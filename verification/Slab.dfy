/** The slab allocator: pages cut into equal objects, each page with a header and a stack of its free objects. */
module SlabAllocator {
  import opened Bits
  import opened Lists

  /** The size of a page header. */
  const HEADER: nat := 32

  datatype Header = Header(freecount: nat, freeObjs: seq<nat>)

  /** Where the objects of a page are: from `offset` on, `stride` apart, `count` of them. */
  datatype Layout = Layout(stride: nat, offset: nat, count: nat)

  predicate LayoutOk(l: Layout) {
    l.stride > 0 && HEADER <= l.offset && l.count >= 1 && l.offset + l.count * l.stride <= PAGE_SIZE
  }

  function Slot(l: Layout, p: nat, i: nat): nat { p + l.offset + i * l.stride }

  /** The start of the page that holds an address. */
  function PageOf(x: nat): nat { x - x % PAGE_SIZE }

  ghost predicate IsSlot(l: Layout, p: nat, x: nat) { exists i: nat :: i < l.count && x == Slot(l, p, i) }

  // ---- where objects lie ----

  /** The layout for objects of a size and an alignment. */
  function LayoutFor(size: nat, align: nat): Layout
    requires align > 0 && AlignUp(size, align) > 0
  {
    var stride, offset := AlignUp(size, align), AlignUp(HEADER, align);
    Layout(stride, offset, if offset > PAGE_SIZE then 0 else CountIn(PAGE_SIZE - offset, stride))
  }

  function CountIn(room: nat, stride: nat): nat
    requires stride > 0
  {
    room / stride
  }

  /** An alignment that is allowed: a power of two up to half a page, which is what divides half a page. */
  predicate AlignOk(align: nat) { align > 0 && (PAGE_SIZE / 2) % align == 0 }

  /** Every object size and alignment that is allowed gives a layout with at least one object: rounding up wastes less
      than an alignment for each object and for the header, and there is no room for one more object. */
  lemma LayoutForOk(size: nat, align: nat)
    requires 8 <= size <= PAGE_SIZE / 2 && AlignOk(align)
    ensures AlignUp(size, align) > 0
    ensures var l := LayoutFor(size, align);
            && LayoutOk(l) && size <= l.stride < size + align && l.stride % align == 0
            && l.offset < HEADER + align && l.offset % align == 0
            && l.offset + (l.count + 1) * l.stride > PAGE_SIZE
  {
    UpToHalf(size, align);
    UpToHalf(HEADER, align);
    var l := LayoutFor(size, align);
    CountFits(PAGE_SIZE - l.offset, l.stride);
  }

  lemma CountFits(room: nat, stride: nat)
    requires 0 < stride <= room
    ensures 1 <= CountIn(room, stride) && CountIn(room, stride) * stride <= room < (CountIn(room, stride) + 1) * stride
  {
    assert (room / stride) * stride <= room < (room / stride + 1) * stride;
  }

  /** Rounding up a size of at most half a page stays within half a page. */
  lemma UpToHalf(x: nat, align: nat)
    requires 0 < x <= PAGE_SIZE / 2 && AlignOk(align)
    ensures x <= AlignUp(x, align) <= PAGE_SIZE / 2 && AlignUp(x, align) < x + align && AlignUp(x, align) % align == 0
  {
    if align > PAGE_SIZE / 2 { DivUnique(PAGE_SIZE / 2, align, 0); }
    AlignUpBounds(x, align);
    if AlignUp(x, align) > PAGE_SIZE / 2 { MultipleBelow(PAGE_SIZE / 2, AlignUp(x, align), align); }
  }

  /** An object lies inside its page, clear of the header and of the other objects, and is aligned. */
  lemma SlotsApart(l: Layout, p: nat, i: nat, q: nat, j: nat)
    requires LayoutOk(l) && p % PAGE_SIZE == 0 && q % PAGE_SIZE == 0 && i < l.count && j < l.count
    ensures p + HEADER <= Slot(l, p, i) && Slot(l, p, i) + l.stride <= p + PAGE_SIZE && PageOf(Slot(l, p, i)) == p
    ensures (p, i) == (q, j) || Slot(l, p, i) + l.stride <= Slot(l, q, j) || Slot(l, q, j) + l.stride <= Slot(l, p, i)
  {
    InPage(l, p, i);
    InPage(l, q, j);
    if p < q { MultipleBelow(p, q, PAGE_SIZE); }
    if q < p { MultipleBelow(q, p, PAGE_SIZE); }
    if p == q && i < j { MulMono(i + 1, j, l.stride); }
    if p == q && j < i { MulMono(j + 1, i, l.stride); }
    assert (i + 1) * l.stride == i * l.stride + l.stride && (j + 1) * l.stride == j * l.stride + l.stride;
  }

  lemma InPage(l: Layout, p: nat, i: nat)
    requires LayoutOk(l) && p % PAGE_SIZE == 0 && i < l.count
    ensures p + HEADER <= Slot(l, p, i) && Slot(l, p, i) + l.stride <= p + PAGE_SIZE && PageOf(Slot(l, p, i)) == p
  {
    MulMono(i + 1, l.count, l.stride);
    assert (i + 1) * l.stride == i * l.stride + l.stride;
    SmallMod(p, Slot(l, p, i) - p, PAGE_SIZE);
  }

  lemma SlotAligned(l: Layout, align: nat, p: nat, i: nat)
    requires AlignOk(align) && p % PAGE_SIZE == 0 && l.stride % align == 0 && l.offset % align == 0
    ensures Slot(l, p, i) % align == 0
  {
    MultipleSum(PAGE_SIZE / 2, PAGE_SIZE / 2, align);
    var k := Multiple(p, PAGE_SIZE);
    MultipleOf(PAGE_SIZE, k, align);
    MultipleOf(l.stride, i, align);
    MultipleSum(p, l.offset, align);
    MultipleSum(p + l.offset, i * l.stride, align);
  }

  lemma MultipleOf(x: nat, k: nat, q: nat)
    requires q > 0 && x % q == 0
    ensures (k * x) % q == 0
  {
    var a := Multiple(x, q);
    assert k * x == (k * a) * q;
    ModMultiple(k * a, q);
  }

  // ---- the allocator ----

  /** The page's free objects are distinct slots and counted; a page whose objects are all free has been given back,
      unless it holds a single object. */
  ghost predicate PageOk(l: Layout, p: nat, h: Header) {
    && h.freecount == |h.freeObjs| && NoDup(h.freeObjs)
    && (forall x | x in h.freeObjs :: IsSlot(l, p, x))
    && (h.freecount < l.count || l.count == 1)
  }

  class Slab {
    const layout: Layout
    var partial: seq<nat>
    var pages: map<nat, Header>

    ghost predicate Valid()
      reads this
    {
      && LayoutOk(layout) && (forall p | p in pages :: p % PAGE_SIZE == 0 && PageOk(layout, p, pages[p]))
      && NoDup(partial) && forall p: nat :: p in partial <==> p in pages && pages[p].freecount > 0
    }

    /** The objects handed out. */
    ghost predicate Live(x: nat)
      reads this
    {
      PageOf(x) in pages && IsSlot(layout, PageOf(x), x) && x !in pages[PageOf(x)].freeObjs
    }

    constructor (size: nat, align: nat)
      requires 8 <= size <= PAGE_SIZE / 2 && AlignOk(align)
      ensures Valid() && AlignUp(size, align) > 0 && layout == LayoutFor(size, align) && pages == map[]
    {
      LayoutForOk(size, align);
      layout := LayoutFor(size, align);
      partial, pages := [], map[];
    }

    /** Cuts a page into objects and stacks them. */
    method StackObjects(p: nat) returns (objs: seq<nat>)
      requires LayoutOk(layout) && p % PAGE_SIZE == 0
      ensures |objs| == layout.count && NoDup(objs) && forall x :: x in objs <==> IsSlot(layout, p, x)
    {
      objs := [];
      var i := 0;
      while i < layout.count
        invariant 0 <= i <= layout.count && |objs| == i
        invariant forall j: nat | j < i :: objs[i - 1 - j] == Slot(layout, p, j)
      {
        objs := [Slot(layout, p, i)] + objs;
        i := i + 1;
      }
      AllStacked(layout, p, objs);
    }

    /** Hands out an object, from a page with free objects if there is one, else from the page `spare` that the page
        allocator provides. */
    method Malloc(spare: nat) returns (obj: nat, usedSpare: bool)
      requires Valid() && spare % PAGE_SIZE == 0 && spare !in pages
      modifies this`partial, this`pages
      ensures Valid() && Live(obj) && !old(Live(obj)) && forall x: nat | x != obj :: Live(x) <==> old(Live(x))
      ensures usedSpare == (old(partial) == []) && pages.Keys == old(pages).Keys + (if usedSpare then {spare} else {})
    {
      hide IsSlot, PageOf, Slot, LayoutOk, NoDup, PageOk;
      var p, h;
      if partial != [] {
        p := partial[0];
        assert p in partial;
        h := pages[p];
        PopFacts(partial);
        partial := partial[1..];
        usedSpare := false;
      } else {
        p := spare;
        var objs := StackObjects(p);
        h := Header(layout.count, objs);
        usedSpare := true;
      }
      TakeFacts(layout, p, h, usedSpare);
      obj := h.freeObjs[0];
      h := Header(h.freecount - 1, h.freeObjs[1..]);
      pages := pages[p := h];
      if h.freecount > 0 {
        PushFacts(partial, p);
        partial := [p] + partial;
      }
    }

    /** Takes an object back; a page none of whose objects is left in use goes back to the page allocator, unless it
        holds a single object. */
    method Free(obj: nat) returns (returned: bool)
      requires Valid() && Live(obj)
      modifies this`partial, this`pages
      ensures Valid() && forall x: nat :: Live(x) <==> old(Live(x)) && x != obj
      ensures pages.Keys == old(pages).Keys - (if returned then {PageOf(obj)} else {})
      ensures returned <==> layout.count >= 2 && forall x: nat | PageOf(x) == PageOf(obj) && old(Live(x)) :: x == obj
    {
      hide IsSlot, PageOf, Slot, LayoutOk, NoDup;
      var p := PageOf(obj);
      SlotPage(layout, p);
      var h := Header(pages[p].freecount + 1, [obj] + pages[p].freeObjs);
      PushFacts(pages[p].freeObjs, obj);
      AllFree(layout, p, h.freeObjs);
      pages := pages[p := h];
      returned := false;
      if h.freecount == 1 {
        PushFacts(partial, p);
        partial := [p] + partial;
        return;
      }
      if h.freecount == layout.count {
        WithoutFacts(partial, p);
        partial := Without(partial, p);
        pages := pages - {p};
        return true;
      }
    }
  }

  lemma AllStacked(l: Layout, p: nat, objs: seq<nat>)
    requires LayoutOk(l) && p % PAGE_SIZE == 0 && |objs| == l.count
    requires forall j: nat | j < l.count :: objs[l.count - 1 - j] == Slot(l, p, j)
    ensures NoDup(objs) && forall x :: x in objs <==> IsSlot(l, p, x)
  {
    forall a, b | 0 <= a < b < |objs|
      ensures objs[a] != objs[b]
    {
      SlotsApart(l, p, l.count - 1 - a, p, l.count - 1 - b);
      assert objs[a] == Slot(l, p, l.count - 1 - a) && objs[b] == Slot(l, p, l.count - 1 - b);
    }
    forall x
      ensures x in objs <==> IsSlot(l, p, x)
    {
      if x in objs {
        var a :| 0 <= a < |objs| && objs[a] == x;
        assert x == Slot(l, p, l.count - 1 - a);
      }
      if IsSlot(l, p, x) {
        var i: nat :| i < l.count && x == Slot(l, p, i);
        assert objs[l.count - 1 - i] == x;
      }
    }
  }

  /** Taking the top object of a page, be it in use or new. */
  lemma TakeFacts(l: Layout, p: nat, h: Header, isNew: bool)
    requires LayoutOk(l) && p % PAGE_SIZE == 0 && (!isNew ==> PageOk(l, p, h) && h.freecount > 0)
    requires isNew ==> h.freecount == |h.freeObjs| == l.count && NoDup(h.freeObjs)
                       && forall x :: x in h.freeObjs <==> IsSlot(l, p, x)
    ensures h.freecount == |h.freeObjs| > 0 && PageOk(l, p, Header(h.freecount - 1, h.freeObjs[1..]))
    ensures var obj := h.freeObjs[0];
            && IsSlot(l, p, obj) && PageOf(obj) == p && obj !in h.freeObjs[1..]
            && forall x: nat :: x in h.freeObjs <==> x == obj || x in h.freeObjs[1..]
  {
    PopFacts(h.freeObjs);
    SlotPage(l, p);
    hide IsSlot, NoDup, PageOf;
    assert h.freeObjs[0] in h.freeObjs;
  }

  lemma PopFacts(q: seq<nat>)
    requires q != [] && NoDup(q)
    ensures NoDup(q[1..]) && q[0] !in q[1..] && forall x: nat :: x in q <==> x == q[0] || x in q[1..]
  {
    assert q == [q[0]] + q[1..];
  }

  lemma SlotPage(l: Layout, p: nat)
    requires LayoutOk(l) && p % PAGE_SIZE == 0
    ensures forall x: nat | IsSlot(l, p, x) :: PageOf(x) == p
  {
    forall x: nat | IsSlot(l, p, x)
      ensures PageOf(x) == p
    {
      var i: nat :| i < l.count && x == Slot(l, p, i);
      InPage(l, p, i);
    }
  }

  ghost function SlotSet(l: Layout, p: nat, n: nat): set<nat> { set i: nat | i < n :: Slot(l, p, i) }

  lemma {:induction false} SlotCount(l: Layout, p: nat, n: nat)
    requires LayoutOk(l) && p % PAGE_SIZE == 0 && n <= l.count
    ensures |SlotSet(l, p, n)| == n
    decreases n
  {
    if n > 0 {
      SlotCount(l, p, n - 1);
      var s, s' := SlotSet(l, p, n - 1), SlotSet(l, p, n);
      var x := Slot(l, p, n - 1);
      assert x !in s by {
        forall i: nat | i < n - 1
          ensures Slot(l, p, i) != x
        {
          SlotsApart(l, p, i, p, n - 1);
        }
      }
      hide Slot;
      assert s' == s + {x};
    }
  }

  ghost function SetOf(q: seq<nat>): set<nat> { if q == [] then {} else {q[0]} + SetOf(q[1..]) }

  lemma {:induction false} SetOfIs(q: seq<nat>)
    ensures forall x: nat :: x in SetOf(q) <==> x in q
  {
    if q != [] {
      SetOfIs(q[1..]);
      assert q == [q[0]] + q[1..];
    }
  }

  lemma {:induction false} Distinct(q: seq<nat>)
    requires NoDup(q)
    ensures |SetOf(q)| == |q|
  {
    if q != [] {
      PopFacts(q);
      SetOfIs(q[1..]);
      Distinct(q[1..]);
    }
  }

  lemma SlotSetIs(l: Layout, p: nat, x: nat)
    ensures x in SlotSet(l, p, l.count) <==> IsSlot(l, p, x)
  {
  }

  /** As many distinct free objects as there are slots are all the slots. */
  lemma AllFree(l: Layout, p: nat, q: seq<nat>)
    requires LayoutOk(l) && p % PAGE_SIZE == 0 && NoDup(q) && forall x | x in q :: IsSlot(l, p, x)
    ensures |q| <= l.count
    ensures |q| == l.count <==> forall x: nat | IsSlot(l, p, x) :: x in q
  {
    hide SlotSet, SetOf, IsSlot, NoDup;
    var all, has := SlotSet(l, p, l.count), SetOf(q);
    SlotCount(l, p, l.count);
    Distinct(q);
    SetOfIs(q);
    forall x: nat
      ensures x in all <==> IsSlot(l, p, x)
    {
      SlotSetIs(l, p, x);
    }
    assert has <= all;
    SubsetSize(has, all);
  }

  /** Objects of half a page are alone on theirs. */
  lemma SingleObjectLayout()
    ensures AlignUp(2048, 8) == 2048 && LayoutFor(2048, 8) == Layout(2048, 32, 1)
  {
    assert (4096 - 32) / 2048 == 1;
  }

  /** So the page of such an object is kept when the object is freed, although nothing on it is in use any more. */
  method KeepsLonePage() returns (slab: Slab, obj: nat, returned: bool)
    ensures slab.Valid() && !returned && slab.pages.Keys == {PAGE_SIZE} && forall x: nat :: !slab.Live(x)
  {
    SingleObjectLayout();
    hide LayoutFor, AlignUp;
    slab := new Slab(2048, 8);
    assert forall x: nat :: !slab.Live(x);
    var usedSpare;
    obj, usedSpare := slab.Malloc(PAGE_SIZE);
    returned := slab.Free(obj);
  }
}
