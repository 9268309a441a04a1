/** The buddy allocator: free lists by order, and a page-frame database entry for every page. */
module BuddyAllocator {
  import opened Bits
  import opened Lists
  import opened BuddyBlocks
  import opened BuddyRuns

  datatype Kind = INVALID | FREE | ALLOCATED | PTABLE

  datatype Page = Page(kind: Kind, maxOrder: nat, curOrder: nat)

  type Pages = map<nat, Page>

  /** Nobody. */
  const NONE: nat := 0

  /** A page that heads a free block is tagged FREE with the block's order, any other is not tagged FREE; the head of
      every block carries the order of its root block. The block an operation holds may still be tagged either way. */
  ghost predicate TagOk(b: Blocks, pages: Pages, held: nat, p: nat)
    requires p in pages
  {
    if p in b then
      && pages[p].maxOrder == b[p].rootOrder
      && (p != held ==>
            if b[p].free then pages[p].kind == FREE && pages[p].curOrder == b[p].order else pages[p].kind != FREE)
    else pages[p].kind != FREE
  }

  ghost predicate Tagged(b: Blocks, pages: Pages, held: nat) {
    && (forall s: nat | s in b :: s in pages)
    && forall p: nat | p in pages :: TagOk(b, pages, held, p)
  }

  ghost predicate ListOk(b: Blocks, q: seq<nat>, k: nat) {
    NoDup(q) && forall s: nat :: s in q <==> s in b && b[s].free && b[s].order == k
  }

  /** List `k` holds exactly the free blocks of order `k`. */
  ghost predicate Listed(b: Blocks, orders: seq<seq<nat>>) {
    |orders| == MAX_ORDER + 1 && forall k: nat | k <= MAX_ORDER :: ListOk(b, orders[k], k)
  }

  /** The blocks in use and their orders. */
  ghost function Outstanding(b: Blocks): map<nat, nat> { map s | s in b && !b[s].free :: b[s].order }

  class Buddies {
    var pages: Pages
    var orders: seq<seq<nat>>
    ghost var blocks: Blocks
    ghost var donated: set<nat>

    ghost predicate Ok(held: nat)
      reads this
    {
      && BlocksOk(blocks, donated) && Coalesced(blocks) && donated <= pages.Keys
      && Tagged(blocks, pages, held) && Listed(blocks, orders)
    }

    ghost predicate Valid()
      reads this
    {
      Ok(NONE)
    }

    /** A page-frame database in which no page is tagged FREE, and no memory donated. */
    constructor (pages: Pages)
      requires forall p: nat | p in pages :: pages[p].kind != FREE
      ensures Valid() && blocks == map[] && donated == {} && this.pages == pages
    {
      this.pages := pages;
      orders := seq(MAX_ORDER + 1, _ => []);
      blocks, donated := map[], {};
    }

    // ---- allocating ----

    /** Halves the held block `s` until it has the order asked for. */
    method SplitDown(s: nat, from: nat, order: nat)
      requires Ok(s) && s in blocks && !blocks[s].free && blocks[s].order == from && order <= from <= MAX_ORDER
      modifies this
      ensures Ok(s) && donated == old(donated) && blocks == SplitTo(old(blocks), s, order)
      ensures s in pages && pages[s] == old(pages)[s]
    {
      hide BlocksOk, Coalesced, Tagged, Listed, SplitTo, Halve, Pow2;
      var c := from;
      ghost var b0 := blocks;
      HeldPage(this, s);
      var maxOrder := pages[s].maxOrder;
      while c > order
        invariant Ok(s) && s in blocks && !blocks[s].free && blocks[s].order == c && order <= c <= from
        invariant blocks[s].rootOrder == b0[s].rootOrder && s in b0 && b0[s].order == from
        invariant SplitTo(blocks, s, order) == SplitTo(b0, s, order)
        invariant donated == old(donated) && s in pages && pages[s] == old(pages)[s]
      {
        c := c - 1;
        var h := s + Pow2(c);
        HalveStep(this, s, order);
        pages := pages[h := Page(FREE, maxOrder, c)];
        orders := orders[c := [h] + orders[c]];
        blocks := Halve(blocks, s);
      }
      SplitDone(blocks, s, order);
    }

    /** Allocates a block of the given order; 0 if there is none and nothing larger to split. */
    method Allocate(order: nat) returns (r: nat)
      requires Valid() && order <= MAX_ORDER
      modifies this
      ensures Valid() && donated == old(donated)
      ensures r == 0 <==> forall s: nat | s in old(blocks) && old(blocks)[s].free :: old(blocks)[s].order < order
      ensures r == 0 ==> unchanged(this)
      ensures r != 0 ==>
                && r in old(blocks) && old(blocks)[r].free && order <= old(blocks)[r].order
                && blocks == SplitTo(old(blocks)[r := old(blocks)[r].(free := false)], r, order)
                && r in blocks && !blocks[r].free && blocks[r].order == order && Aligned(r, order)
                && Outstanding(blocks) == Outstanding(old(blocks))[r := order]
    {
      hide BlocksOk, Coalesced, Tagged, Listed, SplitTo, Outstanding, Aligned;
      OrdersCount(this);
      if orders[order] != [] {
        var s := orders[order][0];
        PopStep(this, order);
        orders := orders[order := orders[order][1..]];
        blocks := blocks[s := blocks[s].(free := false)];
        AllocateDone(old(blocks), donated, s, order);
        SplitDone(blocks, s, order);
        NoneIsNoBlock(blocks, donated);
        Retag(blocks, pages, s, pages[s].(kind := ALLOCATED));
        pages := pages[s := pages[s].(kind := ALLOCATED)];
        return s;
      }
      var c := order + 1;
      while c <= MAX_ORDER && orders[c] == []
        invariant order < c <= MAX_ORDER + 1
        invariant forall k: nat | order <= k < c :: orders[k] == []
      {
        c := c + 1;
      }
      if c > MAX_ORDER {
        NothingFits(this, order);
        return 0;
      }
      var s := orders[c][0];
      PopStep(this, c);
      SomethingFits(this, c, order);
      orders := orders[c := orders[c][1..]];
      blocks := blocks[s := blocks[s].(free := false)];
      SplitDown(s, c, order);
      AllocateDone(old(blocks), donated, s, order);
      HeldPage(this, s);
      NoneIsNoBlock(blocks, donated);
      Retag(blocks, pages, s, pages[s].(kind := ALLOCATED, curOrder := order));
      assert pages[s].kind == FREE;
      pages := pages[s := pages[s].(kind := ALLOCATED, curOrder := order)];
      return s;
    }

    // ---- freeing ----

    /** Joins the held block `s` with its buddy as long as that is free and whole; returns where the block ended up. */
    method JoinUp(s: nat, order: nat) returns (p: nat, c: nat)
      requires Ok(s) && s in blocks && !blocks[s].free && blocks[s].order == order && s in pages
               && pages[s].kind != FREE
      modifies this
      ensures Ok(p) && p in blocks && !blocks[p].free && blocks[p].order == c && p in pages && pages[p].kind != FREE
      ensures !Joinable(blocks, p) && donated == old(donated) && Released(blocks, p) == Released(old(blocks), s)
    {
      hide BlocksOk, Coalesced, Tagged, Listed, Join, Released, Buddy;
      p, c := s, order;
      ghost var b0 := blocks;
      HeldPage(this, p);
      while c < pages[p].maxOrder
        invariant Ok(p) && p in blocks && !blocks[p].free && blocks[p].order == c && p in pages && pages[p].kind != FREE
        invariant s in b0 && donated == old(donated) && Released(blocks, p) == Released(b0, s)
        decreases pages[p].maxOrder - c
      {
        HeldPage(this, p);
        BuddyPage(this, p);
        var x: nat := Buddy(p, c);
        if pages[x].kind != FREE {
          break;
        }
        if pages[x].curOrder != c {
          break;
        }
        JoinStep(this, p);
        orders := orders[c := Without(orders[c], x)];
        ghost var low := Lower(blocks, p);
        pages := pages[x := pages[x].(kind := ALLOCATED)];
        blocks := Join(blocks, p);
        p := if x < p then x else p;
        c := c + 1;
        assert p == low;
      }
      HeldPage(this, p);
      if c < pages[p].maxOrder { BuddyPage(this, p); }
    }

    /** Frees the block of the given order at page `s`. */
    method Free(s: nat, order: nat)
      requires Valid() && s in blocks && !blocks[s].free && blocks[s].order == order
      modifies this
      ensures Valid() && donated == old(donated) && blocks == Released(old(blocks), s)
      ensures Outstanding(blocks) == Outstanding(old(blocks)) - {s}
    {
      hide BlocksOk, Coalesced, Tagged, Listed, Released, Joinable, Outstanding;
      UsedPage(this, s);
      var p, c := JoinUp(s, order);
      FreeStep(this, p);
      ReleaseOutstanding(old(blocks), donated, s);
      ReleasedAt(blocks, p);
      pages := pages[p := pages[p].(kind := FREE, curOrder := c)];
      orders := orders[c := [p] + orders[c]];
      blocks := blocks[p := blocks[p].(free := true)];
    }

    // ---- donating memory ----

    /** A root block of its own. */
    method AddBlock(a: nat, order: nat)
      requires Valid() && 1 <= a && order <= MAX_ORDER && Aligned(a, order)
      requires forall p: nat | InBlock(a, order, p) :: p in pages && p !in donated
      modifies this
      ensures Valid() && pages.Keys == old(pages).Keys && donated == old(donated) + BlockPages(a, order)
      ensures blocks == old(blocks)[a := Block(order, true, a, order)] && a !in old(blocks)
    {
      hide BlocksOk, Coalesced, Tagged, Listed, Aligned, Pow2, BlockPages;
      AddStep(this, a, order);
      pages := pages[a := Page(FREE, order, order)];
      orders := orders[order := [a] + orders[order]];
      blocks := blocks[a := Block(order, true, a, order)];
      donated := donated + BlockPages(a, order);
    }

    /** Donates the pages from `first` up to `end`, from the bottom up, as the largest aligned blocks that fit: every
        aligned block of an order up to the maximum that is inside the range is part of one new root block. */
    method AddPages(first: nat, end: nat)
      requires Valid() && 0 < first <= end
      requires forall p: nat | first <= p < end :: p in pages && p !in donated
      modifies this
      ensures Valid() && pages.Keys == old(pages).Keys
      ensures Donated(old(donated), donated, first, end) && OnlyRootsAdded(old(blocks), blocks)
      ensures RootsMaximal(old(blocks), blocks, first, end, end)
    {
      hide BlocksOk, Coalesced, Tagged, Listed, Aligned, Pow2, BlockPages, Log2, OnlyRootsAdded, RootsMaximal;
      var a := first;
      RootsAdded(blocks);
      NoneToCover(blocks, first, end);
      while a < end
        invariant Valid() && first <= a <= end && pages.Keys == old(pages).Keys
        invariant Donated(old(donated), donated, first, a) && OnlyRootsAdded(old(blocks), blocks)
        invariant RootsMaximal(old(blocks), blocks, first, a, end)
      {
        var fit, align := Log2(end - a), TrailingZeros(a);
        var order := if fit < align then fit else align;
        if order > MAX_ORDER {
          order := MAX_ORDER;
        }
        LargestFit(a, end, order, fit, align);
        RootAdded(old(blocks), blocks, a, order);
        MaximalStep(old(blocks), blocks, first, a, end, order, fit, align);
        AddBlock(a, order);
        a := a + Pow2(order);
      }
    }

    /** Donates the whole pages of a byte range, in 64-bit arithmetic. The start must not round up to address 0, unless
        there is nothing to donate from there. */
    method AddRange(start: nat, length: nat)
      requires Valid() && 0 < start < TWO64 && length < TWO64
      requires start <= TWO64 - PAGE_SIZE || (start + length) % TWO64 < PAGE_SIZE
      requires forall p: nat | InRange(start, length, p) :: p in pages && p !in donated
      modifies this
      ensures Valid() && pages.Keys == old(pages).Keys
      ensures start + length < TWO64 ==>
                forall p: nat :: p in donated <==> p in old(donated) || InRange(start, length, p)
      ensures start + length >= TWO64 ==> unchanged(this)
      ensures (forall p: nat :: p in donated <==> p in old(donated) || InRange(start, length, p)) <==>
              start + length < TWO64 || forall p: nat :: !InRange(start, length, p)
      ensures OnlyRootsAdded(old(blocks), blocks)
      ensures start + length < TWO64 ==>
                forall a: nat, k: nat | k <= MAX_ORDER && Aligned(a, k) && BlockInRange(start, length, a, k) ::
                  InOneRoot(old(blocks), blocks, a, k)
    {
      var end := (start + length) % TWO64 / PAGE_SIZE;
      var first := (start + (PAGE_SIZE - 1)) % TWO64 / PAGE_SIZE;
      RangePages(start, length);
      if start + length < TWO64 { BlocksOfRange(start, length, first, end); }
      if end <= first {
        return;
      }
      hide BlocksOk, Coalesced, Tagged, Listed, OnlyRootsAdded, InRange, InOneRoot, BlockInRange;
      AddPages(first, end);
    }
  }

  ghost predicate Donated(d0: set<nat>, d: set<nat>, first: nat, end: nat) {
    forall p: nat :: p in d <==> p in d0 || first <= p < end
  }

  /** All blocks are still there, and the new ones are free root blocks. */
  ghost predicate OnlyRootsAdded(b0: Blocks, b: Blocks) {
    && (forall s: nat | s in b0 :: s in b && b[s] == b0[s])
    && forall s: nat | s in b && s !in b0 :: b[s] == Block(b[s].order, true, s, b[s].order)
  }

  lemma RootsAdded(b: Blocks)
    ensures OnlyRootsAdded(b, b)
  {
  }

  lemma RootAdded(b0: Blocks, b: Blocks, a: nat, order: nat)
    requires OnlyRootsAdded(b0, b)
    ensures a !in b ==> OnlyRootsAdded(b0, b[a := Block(order, true, a, order)])
  {
  }

  /** The aligned block of order `k` at `a` is inside the pages from `first` to `end`. */
  predicate Eligible(a: nat, k: nat, first: nat, end: nat) {
    k <= MAX_ORDER && Aligned(a, k) && first <= a && a + Pow2(k) <= end
  }

  /** The pages of the block of order `k` at `a` are all in one block of `b` that is not in `b0`. */
  ghost predicate InOneRoot(b0: Blocks, b: Blocks, a: nat, k: nat) {
    exists s: nat :: s in b && s !in b0 && s <= a && a + Pow2(k) <= s + Pow2(b[s].order)
  }

  /** No eligible block that starts below `cur` goes beyond it, and each is in one new block. */
  ghost predicate RootsMaximal(b0: Blocks, b: Blocks, first: nat, cur: nat, end: nat) {
    forall a: nat, k: nat | Eligible(a, k, first, end) && a < cur :: a + Pow2(k) <= cur && InOneRoot(b0, b, a, k)
  }

  lemma NoneToCover(b: Blocks, first: nat, end: nat)
    ensures RootsMaximal(b, b, first, first, end)
  {
  }

  /** The block that is added at `cur` has the largest order that its alignment and the room allow, so it holds every
      eligible block that starts in it. */
  lemma MaximalStep(b0: Blocks, b: Blocks, first: nat, cur: nat, end: nat, order: nat, fit: nat, align: nat)
    requires RootsMaximal(b0, b, first, cur, end) && OnlyRootsAdded(b0, b) && 0 < first <= cur < end
    requires fit == Log2(end - cur) && align == TrailingZeros(cur)
    requires order == if fit < align then (if fit > MAX_ORDER then MAX_ORDER else fit)
                      else if align > MAX_ORDER then MAX_ORDER else align
    ensures cur !in b ==>
              RootsMaximal(b0, b[cur := Block(order, true, cur, order)], first, cur + Pow2(order), end)
  {
    hide Aligned, Pow2, Log2, TrailingZeros, OnlyRootsAdded, InOneRoot;
    if cur in b { return; }
    var b', cur' := b[cur := Block(order, true, cur, order)], cur + Pow2(order);
    OldBlocks(b0, b, cur);
    forall a: nat, k: nat | Eligible(a, k, first, end) && a < cur'
      ensures a + Pow2(k) <= cur' && InOneRoot(b0, b', a, k)
    {
      if a < cur {
        OneRootKept(b0, b, cur, Block(order, true, cur, order), a, k);
      } else {
        Covering(cur, end, order, fit, align, a, k);
        OneRootNew(b0, b', cur, a, k);
      }
    }
  }

  lemma OneRootKept(b0: Blocks, b: Blocks, cur: nat, x: Block, a: nat, k: nat)
    requires InOneRoot(b0, b, a, k) && cur !in b
    ensures InOneRoot(b0, b[cur := x], a, k)
  {
    hide Pow2;
    var s: nat :| s in b && s !in b0 && s <= a && a + Pow2(k) <= s + Pow2(b[s].order);
    assert s in b[cur := x] && b[cur := x][s] == b[s];
  }

  lemma OneRootNew(b0: Blocks, b: Blocks, s: nat, a: nat, k: nat)
    requires s in b && s !in b0 && s <= a && a + Pow2(k) <= s + Pow2(b[s].order)
    ensures InOneRoot(b0, b, a, k)
  {
  }

  lemma OldBlocks(b0: Blocks, b: Blocks, s: nat)
    requires OnlyRootsAdded(b0, b) && s !in b
    ensures s !in b0
  {
  }

  lemma Covering(cur: nat, end: nat, order: nat, fit: nat, align: nat, a: nat, k: nat)
    requires 0 < cur < end && fit == Log2(end - cur) && align == TrailingZeros(cur)
    requires order == if fit < align then (if fit > MAX_ORDER then MAX_ORDER else fit)
                      else if align > MAX_ORDER then MAX_ORDER else align
    requires cur <= a < cur + Pow2(order) && k <= MAX_ORDER && Aligned(a, k) && a + Pow2(k) <= end
    ensures a + Pow2(k) <= cur + Pow2(order)
  {
    TrailingZerosAligned(cur);
    hide Log2, TrailingZeros, Pow2, Aligned;
    AlignedDown(cur, align, order);
    if a == cur {
      LargestOrder(cur, end, k);
      Pow2Mono(k, order);
    } else if k <= order {
      AlignedDown(cur, order, k);
      AlignedSum(cur, order, k);
      AlignedBelow(a, cur + Pow2(order), k);
    } else {
      AlignedDown(a, k, order);
      AlignedBelow(cur, a, order);
    }
  }

  lemma LargestOrder(cur: nat, end: nat, k: nat)
    requires 0 < cur < end && Aligned(cur, k) && cur + Pow2(k) <= end
    ensures k <= Log2(end - cur) && k <= TrailingZeros(cur)
  {
    hide Aligned, TrailingZeros, Pow2, Log2;
    TrailingZerosMost(cur, k);
    Log2Bounds(end - cur);
    Pow2Strict(k, Log2(end - cur) + 1);
  }

  lemma AlignedBelow(s: nat, t: nat, k: nat)
    requires Aligned(s, k) && Aligned(t, k) && s < t
    ensures s + Pow2(k) <= t
  {
    MultipleBelow(s, t, Pow2(k));
  }

  /** A number aligned to `k` bits has at least `k` trailing zeros. */
  lemma {:induction false} TrailingZerosMost(n: nat, k: nat)
    requires n > 0 && Aligned(n, k)
    ensures k <= TrailingZeros(n)
    decreases n
  {
    if k > 0 {
      AlignedDown(n, k, 1);
      assert Pow2(1) == 2;
      var j := AlignedQuotient(n, k);
      assert n == j * (2 * Pow2(k - 1));
      assert n / 2 == j * Pow2(k - 1);
      AlignedMultiple(j, k - 1);
      TrailingZerosMost(n / 2, k - 1);
    }
  }

  /** Every page of the block is within the bytes from `start` on. */
  ghost predicate BlockInRange(start: nat, length: nat, a: nat, k: nat) {
    forall p: nat | InBlock(a, k, p) :: InRange(start, length, p)
  }

  lemma BlocksOfRange(start: nat, length: nat, first: nat, end: nat)
    requires forall p: nat :: InRange(start, length, p) <==> first <= p < end
    ensures forall a: nat, k: nat | k <= MAX_ORDER && Aligned(a, k) && BlockInRange(start, length, a, k) ::
              Eligible(a, k, first, end) && a < end
  {
    hide Aligned, InRange, Pow2;
    forall a: nat, k: nat | k <= MAX_ORDER && Aligned(a, k) && BlockInRange(start, length, a, k)
      ensures Eligible(a, k, first, end) && a < end
    {
      assert InBlock(a, k, a) && InBlock(a, k, a + Pow2(k) - 1);
    }
  }

  /** The pages from the rounded start up to the rounded end, in 64-bit words: those of the range, unless the end of the
      range wraps, and then none. */
  lemma RangePages(start: nat, length: nat)
    requires 0 < start < TWO64 && length < TWO64
    requires start <= TWO64 - PAGE_SIZE || (start + length) % TWO64 < PAGE_SIZE
    ensures var end, first := (start + length) % TWO64 / PAGE_SIZE, (start + (PAGE_SIZE - 1)) % TWO64 / PAGE_SIZE;
            && (first < end ==> 0 < first && start + length < TWO64)
            && (start + length < TWO64 ==> forall p: nat :: InRange(start, length, p) <==> first <= p < end)
  {
    if start + length >= TWO64 { assert (start + length) % TWO64 == start + length - TWO64; }
  }

  /** The last page below 2^64 cannot be donated: the end of its range wraps to 0. */
  lemma TopPageLost()
    ensures var start := TWO64 - PAGE_SIZE; InRange(start, PAGE_SIZE, start / PAGE_SIZE) && start + PAGE_SIZE >= TWO64
  {
  }

  /** Page `p` lies wholly within the bytes from `start` on. */
  predicate InRange(start: nat, length: nat, p: nat) {
    (start + (PAGE_SIZE - 1)) / PAGE_SIZE <= p < (start + length) / PAGE_SIZE
  }

  /** The pages of a block. */
  ghost function BlockPages(a: nat, order: nat): set<nat> {
    set p: nat | a <= p < a + Pow2(order) && InBlock(a, order, p)
  }

  /** The number of trailing zero bits. */
  function TrailingZeros(n: nat): nat
    requires n > 0
  {
    if n % 2 == 1 then 0 else 1 + TrailingZeros(n / 2)
  }

  lemma {:induction false} TrailingZerosAligned(n: nat)
    requires n > 0
    ensures Aligned(n, TrailingZeros(n))
  {
    if n % 2 == 1 {
      assert Pow2(0) == 1;
    } else {
      TrailingZerosAligned(n / 2);
      DoubleAligned(n, TrailingZeros(n / 2));
    }
  }

  lemma DoubleAligned(n: nat, z: nat)
    requires n % 2 == 0 && Aligned(n / 2, z)
    ensures Aligned(n, z + 1)
  {
    var j := AlignedQuotient(n / 2, z);
    assert Pow2(z + 1) == 2 * Pow2(z);
    hide Pow2, Aligned;
    assert n == j * Pow2(z + 1);
    AlignedMultiple(j, z + 1);
  }

  lemma LargestFit(a: nat, end: nat, order: nat, fit: nat, align: nat)
    requires 0 < a < end && fit == Log2(end - a) && align == TrailingZeros(a) && order <= fit && order <= align
    ensures Aligned(a, order) && a + Pow2(order) <= end
    ensures forall p: nat :: InBlock(a, order, p) <==> p in BlockPages(a, order)
    ensures forall p: nat :: InBlock(a, order, p) ==> a <= p < end
    ensures forall p: nat :: InBlock(a, order, p) <==> a <= p < a + Pow2(order)
  {
    TrailingZerosAligned(a);
    AlignedDown(a, align, order);
    Log2Bounds(end - a);
    Pow2Mono(order, fit);
  }

  // ---- what the operations need of the invariant ----

  lemma OrdersCount(v: Buddies)
    requires v.Valid()
    ensures |v.orders| == MAX_ORDER + 1 == 15
  {
  }

  lemma HeldPage(v: Buddies, s: nat)
    requires v.Ok(s) && s in v.blocks
    ensures s in v.pages && v.pages[s].maxOrder == v.blocks[s].rootOrder && s != NONE && |v.orders| == MAX_ORDER + 1
  {
    assert TagOk(v.blocks, v.pages, s, s);
    assert BlockOk(v.blocks, s);
  }

  /** A new free block enters its list. */
  lemma HalveListed(b: Blocks, orders: seq<seq<nat>>, s: nat)
    requires Listed(b, orders) && s in b && 0 < b[s].order && b[s].order <= MAX_ORDER && !b[s].free
    requires s + Pow2(b[s].order - 1) !in b
    ensures var o := b[s].order - 1; Listed(Halve(b, s), orders[o := [s + Pow2(o)] + orders[o]])
  {
    var o, b' := b[s].order - 1, Halve(b, s);
    var h := s + Pow2(o);
    var orders' := orders[o := [h] + orders[o]];
    hide Pow2;
    forall k: nat | k <= MAX_ORDER
      ensures ListOk(b', orders'[k], k)
    {
      assert ListOk(b, orders[k], k);
      if k == o { PushFacts(orders[o], h); }
    }
  }

  lemma HalveTagged(b: Blocks, pages: Pages, s: nat)
    requires Tagged(b, pages, s) && s in b && 0 < b[s].order && s + Pow2(b[s].order - 1) !in b && !b[s].free
    ensures var o := b[s].order - 1; Tagged(Halve(b, s), pages[s + Pow2(o) := Page(FREE, b[s].rootOrder, o)], s)
  {
    var o, b' := b[s].order - 1, Halve(b, s);
    var pages' := pages[s + Pow2(o) := Page(FREE, b[s].rootOrder, o)];
    hide Pow2;
    forall p: nat | p in pages'
      ensures TagOk(b', pages', s, p)
    {
      if p in pages { assert TagOk(b, pages, s, p); }
    }
  }

  lemma HalveStep(v: Buddies, s: nat, order: nat)
    requires v.Ok(s) && s in v.blocks && !v.blocks[s].free && order < v.blocks[s].order <= MAX_ORDER
    ensures var b, o := v.blocks, v.blocks[s].order - 1;
            var h, b' := s + Pow2(o), Halve(b, s);
            && BlocksOk(b', v.donated) && Coalesced(b') && o < |v.orders| && h != s
            && Tagged(b', v.pages[h := Page(FREE, b[s].rootOrder, o)], s)
            && Listed(b', v.orders[o := [h] + v.orders[o]])
            && s in b' && b'[s] == b[s].(order := o) && SplitTo(b', s, order) == SplitTo(b, s, order)
  {
    hide BlocksOk, Coalesced, Tagged, Listed, Halve, Pow2, Aligned, Buddy;
    HeldPage(v, s);
    HalfBlocks(v.blocks, v.donated, s);
    HalveOk(v.blocks, v.donated, s);
    HalveCoalesced(v.blocks, v.donated, s);
    HalveListed(v.blocks, v.orders, s);
    HalveTagged(v.blocks, v.pages, s);
    HalveShape(v.blocks, s);
  }

  lemma SplitDone(b: Blocks, s: nat, order: nat)
    requires s in b && b[s].order == order
    ensures SplitTo(b, s, order) == b
  {
  }

  /** Taking the first block of list `k` off it, to hold it. */
  lemma PopStep(v: Buddies, k: nat)
    requires v.Valid() && k <= MAX_ORDER && k < |v.orders| && v.orders[k] != []
    ensures var s, b := v.orders[k][0], v.blocks;
            && s in b && b[s].free && b[s].order == k && s in v.pages && s != NONE && v.pages[s].kind == FREE
            && var b' := b[s := b[s].(free := false)];
               && BlocksOk(b', v.donated) && Coalesced(b')
               && Tagged(b', v.pages, s) && Listed(b', v.orders[k := v.orders[k][1..]])
  {
    var q, b := v.orders[k], v.blocks;
    var s := q[0];
    assert ListOk(b, q, k);
    assert s in q;
    var b' := b[s := b[s].(free := false)];
    FlagOk(b, v.donated, s, false);
    assert BlockOk(b, s);
    assert TagOk(b, v.pages, NONE, s);
    PopListed(b, v.orders, k);
    forall p: nat | p in v.pages
      ensures TagOk(b', v.pages, s, p)
    {
      assert TagOk(b, v.pages, NONE, p);
    }
    UsedCoalesced(b, s);
  }

  lemma UsedCoalesced(b: Blocks, s: nat)
    requires Coalesced(b) && s in b
    ensures Coalesced(b[s := b[s].(free := false)])
  {
    var b' := b[s := b[s].(free := false)];
    forall t: nat | t in b' && b'[t].free
      ensures !Joinable(b', t)
    {
      assert !Joinable(b, t);
    }
  }

  lemma PopListed(b: Blocks, orders: seq<seq<nat>>, k: nat)
    requires Listed(b, orders) && k <= MAX_ORDER && orders[k] != [] && orders[k][0] in b
    ensures var s := orders[k][0]; Listed(b[s := b[s].(free := false)], orders[k := orders[k][1..]])
  {
    var s, orders' := orders[k][0], orders[k := orders[k][1..]];
    var b' := b[s := b[s].(free := false)];
    forall j: nat | j <= MAX_ORDER
      ensures ListOk(b', orders'[j], j)
    {
      assert ListOk(b, orders[j], j) && ListOk(b, orders[k], k);
      assert orders[k] == [s] + orders[k][1..];
      if j != k { assert s !in orders[j] by { assert s in orders[k]; } }
    }
  }

  lemma NothingFits(v: Buddies, order: nat)
    requires v.Valid() && order <= MAX_ORDER && |v.orders| == MAX_ORDER + 1
    requires forall k: nat | order <= k <= MAX_ORDER :: v.orders[k] == []
    ensures forall s: nat | s in v.blocks && v.blocks[s].free :: v.blocks[s].order < order
  {
    forall s: nat | s in v.blocks && v.blocks[s].free
      ensures v.blocks[s].order < order
    {
      assert BlockOk(v.blocks, s);
      var k := v.blocks[s].order;
      assert ListOk(v.blocks, v.orders[k], k);
    }
  }

  lemma SomethingFits(v: Buddies, c: nat, order: nat)
    requires v.Valid() && order <= c <= MAX_ORDER && c < |v.orders| && v.orders[c] != []
    ensures exists s: nat :: s in v.blocks && v.blocks[s].free && v.blocks[s].order >= order
  {
    assert ListOk(v.blocks, v.orders[c], c);
    assert v.orders[c][0] in v.orders[c];
  }

  /** The outcome of an allocation out of the free block `s`. */
  lemma AllocateDone(b: Blocks, donated: set<nat>, s: nat, order: nat)
    requires BlocksOk(b, donated) && s in b && b[s].free && order <= b[s].order
    ensures var b' := SplitTo(b[s := b[s].(free := false)], s, order);
            && s in b' && !b'[s].free && b'[s].order == order && Aligned(s, order)
            && Outstanding(b') == Outstanding(b)[s := order]
            && exists t: nat :: t in b && b[t].free && b[t].order >= order
  {
    var used := b[s := b[s].(free := false)];
    FlagOk(b, donated, s, false);
    SplitOutstanding(used, donated, s, order);
    NowOutstanding(b, s);
    assert BlockOk(b, s);
    AlignedDown(s, b[s].order, order);
    hide BlocksOk, Outstanding, BlockOk;
  }

  lemma NowOutstanding(b: Blocks, s: nat)
    requires s in b
    ensures Outstanding(b[s := b[s].(free := false)]) == Outstanding(b)[s := b[s].order]
  {
  }

  lemma {:induction false} SplitOutstanding(b: Blocks, donated: set<nat>, s: nat, o: nat)
    requires BlocksOk(b, donated) && s in b && o <= b[s].order && !b[s].free
    ensures Outstanding(SplitTo(b, s, o)) == Outstanding(b)[s := o]
    decreases b[s].order
  {
    if o < b[s].order {
      HalfBlocks(b, donated, s);
      HalveOk(b, donated, s);
      HalveShape(b, s);
      HalveOutstanding(b, s);
      hide BlocksOk, Halve, Outstanding;
      SplitOutstanding(Halve(b, s), donated, s, o);
    }
  }

  lemma HalveOutstanding(b: Blocks, s: nat)
    requires s in b && b[s].order > 0 && !b[s].free && s + Pow2(b[s].order - 1) !in b
    ensures Outstanding(Halve(b, s)) == Outstanding(b)[s := b[s].order - 1]
  {
    hide Pow2;
  }

  /** Tagging the held block as in use. */
  lemma Retag(b: Blocks, pages: Pages, s: nat, page: Page)
    requires Tagged(b, pages, s) && s in b && !b[s].free && s in pages && NONE !in b
    requires page.kind != FREE && page.maxOrder == pages[s].maxOrder
    ensures Tagged(b, pages[s := page], NONE)
  {
    var pages' := pages[s := page];
    forall p: nat | p in pages'
      ensures TagOk(b, pages', NONE, p)
    {
      assert TagOk(b, pages, s, p);
    }
  }

  lemma NoneIsNoBlock(b: Blocks, donated: set<nat>)
    requires BlocksOk(b, donated)
    ensures NONE !in b
  {
  }

  // ---- for a free ----

  lemma UsedPage(v: Buddies, s: nat)
    requires v.Valid() && s in v.blocks && !v.blocks[s].free
    ensures v.Ok(s) && s in v.pages && v.pages[s].kind != FREE
  {
    NoneIsNoBlock(v.blocks, v.donated);
    assert TagOk(v.blocks, v.pages, NONE, s);
    forall p: nat | p in v.pages
      ensures TagOk(v.blocks, v.pages, s, p)
    {
      assert TagOk(v.blocks, v.pages, NONE, p);
    }
  }

  /** The buddy's page-frame entry tells whether the block can be joined. */
  lemma BuddyPage(v: Buddies, p: nat)
    requires v.Ok(p) && p in v.blocks && !v.blocks[p].free && v.blocks[p].order < v.blocks[p].rootOrder
    ensures var x, c := Buddy(p, v.blocks[p].order), v.blocks[p].order;
            && x >= 0 && x in v.pages && x != p
            && (Joinable(v.blocks, p) <==> v.pages[x].kind == FREE && v.pages[x].curOrder == c)
  {
    var b, c := v.blocks, v.blocks[p].order;
    assert BlockOk(b, p);
    BuddyFacts(p, c);
    BuddyInside(p, c, b[p].root, b[p].rootOrder);
    var x: nat := Buddy(p, c);
    assert InBlock(b[p].root, b[p].rootOrder, x);
    assert TagOk(b, v.pages, p, x);
  }

  lemma JoinListed(b: Blocks, donated: set<nat>, orders: seq<seq<nat>>, s: nat)
    requires BlocksOk(b, donated) && Listed(b, orders) && s in b && Joinable(b, s) && !b[s].free
             && b[s].order <= MAX_ORDER
    ensures var x: nat := Buddy(s, b[s].order);
            x in orders[b[s].order] && Listed(Join(b, s), orders[b[s].order := Without(orders[b[s].order], x)])
  {
    var o := b[s].order;
    var x: nat := Buddy(s, o);
    JoinFacts(b, donated, s);
    assert ListOk(b, orders[o], o);
    WithoutFacts(orders[o], x);
    var b', orders' := Join(b, s), orders[o := Without(orders[o], x)];
    hide BlocksOk, Buddy, Pow2, Aligned, IndexOf, Without;
    forall k: nat | k <= MAX_ORDER
      ensures ListOk(b', orders'[k], k)
    {
      assert ListOk(b, orders[k], k);
    }
  }

  lemma JoinTagged(b: Blocks, donated: set<nat>, pages: Pages, s: nat)
    requires BlocksOk(b, donated) && Tagged(b, pages, s) && s in b && Joinable(b, s) && !b[s].free && s in pages
             && pages[s].kind != FREE
    ensures var x: nat := Buddy(s, b[s].order);
            && x in pages && Lower(b, s) in pages
            && Tagged(Join(b, s), pages[x := pages[x].(kind := ALLOCATED)], Lower(b, s))
            && pages[x := pages[x].(kind := ALLOCATED)][Lower(b, s)].kind != FREE
            && pages[x].maxOrder == pages[s].maxOrder
  {
    var x: nat := Buddy(s, b[s].order);
    JoinFacts(b, donated, s);
    assert TagOk(b, pages, s, x) && TagOk(b, pages, s, s);
    var b', pages' := Join(b, s), pages[x := pages[x].(kind := ALLOCATED)];
    hide BlocksOk, Buddy, Pow2, Aligned;
    forall p: nat | p in pages'
      ensures TagOk(b', pages', Lower(b, s), p)
    {
      assert TagOk(b, pages, s, p);
    }
  }

  lemma JoinStep(v: Buddies, s: nat)
    requires v.Ok(s) && s in v.blocks && Joinable(v.blocks, s) && !v.blocks[s].free && s in v.pages
             && v.pages[s].kind != FREE
    ensures var b, c := v.blocks, v.blocks[s].order;
            var x: nat, b', low := Buddy(s, c), Join(b, s), Lower(b, s);
            && c < |v.orders| && x in v.orders[c] && x in v.pages && low in v.pages && low == (if x < s then x else s)
            && BlocksOk(b', v.donated) && Coalesced(b')
            && Tagged(b', v.pages[x := v.pages[x].(kind := ALLOCATED)], low)
            && v.pages[x := v.pages[x].(kind := ALLOCATED)][low].kind != FREE
            && Listed(b', v.orders[c := Without(v.orders[c], x)])
            && low in b' && !b'[low].free && b'[low].order == c + 1 && Released(b', low) == Released(b, s)
            && v.pages[x].maxOrder == v.pages[s].maxOrder
  {
    var b := v.blocks;
    assert BlockOk(b, s);
    HeldPage(v, s);
    hide BlocksOk, Coalesced, Tagged, Listed, Buddy, Without;
    JoinOk(b, v.donated, s);
    JoinCoalesced(b, v.donated, s);
    JoinListed(b, v.donated, v.orders, s);
    JoinTagged(b, v.donated, v.pages, s);
  }

  /** Tagging and listing the held block as free. */
  lemma FreeStep(v: Buddies, s: nat)
    requires v.Ok(s) && s in v.blocks && !v.blocks[s].free && s in v.pages && v.pages[s].kind != FREE
             && !Joinable(v.blocks, s)
    ensures var b, c := v.blocks, v.blocks[s].order;
            var b' := b[s := b[s].(free := true)];
            && c < |v.orders| && BlocksOk(b', v.donated) && Coalesced(b')
            && Tagged(b', v.pages[s := v.pages[s].(kind := FREE, curOrder := c)], NONE)
            && Listed(b', v.orders[c := [s] + v.orders[c]])
  {
    var b, c := v.blocks, v.blocks[s].order;
    var b' := b[s := b[s].(free := true)];
    assert BlockOk(b, s);
    FreeingCoalesced(b, v.donated, s);
    NoneIsNoBlock(b, v.donated);
    FreeTagged(b, v.pages, s, c);
    FreeListed(b, v.orders, s);
  }

  lemma FreeTagged(b: Blocks, pages: Pages, s: nat, c: nat)
    requires Tagged(b, pages, s) && s in b && s in pages && b[s].order == c && NONE !in b
    ensures Tagged(b[s := b[s].(free := true)], pages[s := pages[s].(kind := FREE, curOrder := c)], NONE)
  {
    var b', pages' := b[s := b[s].(free := true)], pages[s := pages[s].(kind := FREE, curOrder := c)];
    forall p: nat | p in pages'
      ensures TagOk(b', pages', NONE, p)
    {
      assert TagOk(b, pages, s, p);
    }
  }

  lemma FreeListed(b: Blocks, orders: seq<seq<nat>>, s: nat)
    requires Listed(b, orders) && s in b && !b[s].free && b[s].order <= MAX_ORDER
    ensures Listed(b[s := b[s].(free := true)], orders[b[s].order := [s] + orders[b[s].order]])
  {
    var c := b[s].order;
    var b', orders' := b[s := b[s].(free := true)], orders[c := [s] + orders[c]];
    forall k: nat | k <= MAX_ORDER
      ensures ListOk(b', orders'[k], k)
    {
      assert ListOk(b, orders[k], k);
      if k == c { PushFacts(orders[c], s); }
    }
  }

  lemma {:induction false} ReleaseOutstanding(b: Blocks, donated: set<nat>, s: nat)
    requires BlocksOk(b, donated) && s in b && !b[s].free
    ensures Outstanding(Released(b, s)) == Outstanding(b) - {s}
    decreases if b[s].order < b[s].rootOrder then b[s].rootOrder - b[s].order else 0
  {
    if Joinable(b, s) {
      JoinOk(b, donated, s);
      JoinFacts(b, donated, s);
      JoinOutstanding(b, s);
      hide BlocksOk, Outstanding, Buddy, Join;
      ReleaseOutstanding(Join(b, s), donated, Lower(b, s));
    }
  }

  lemma JoinOutstanding(b: Blocks, s: nat)
    requires s in b && !b[s].free && Joinable(b, s) && Buddy(s, b[s].order) != s
    ensures Lower(b, s) in Join(b, s) && !Join(b, s)[Lower(b, s)].free
    ensures Join(b, s)[Lower(b, s)].order == b[s].order + 1 && Join(b, s)[Lower(b, s)].rootOrder == b[s].rootOrder
    ensures Outstanding(Join(b, s)) - {Lower(b, s)} == Outstanding(b) - {s}
  {
    hide Buddy;
  }

  lemma ReleasedAt(b: Blocks, s: nat)
    requires s in b
    ensures !Joinable(b, s) ==> Released(b, s) == b[s := b[s].(free := true)]
  {
  }

  // ---- for a donation ----

  lemma AddStep(v: Buddies, a: nat, order: nat)
    requires v.Valid() && 1 <= a && order <= MAX_ORDER && Aligned(a, order)
    requires forall p: nat | InBlock(a, order, p) :: p in v.pages && p !in v.donated
    ensures var b' := v.blocks[a := Block(order, true, a, order)];
            && a !in v.blocks && a in v.pages && order < |v.orders| && BlocksOk(b', v.donated + BlockPages(a, order))
            && Coalesced(b')
            && Tagged(b', v.pages[a := Page(FREE, order, order)], NONE)
            && Listed(b', v.orders[order := [a] + v.orders[order]])
            && BlockPages(a, order) <= v.pages.Keys
  {
    var b := v.blocks;
    assert InBlock(a, order, a);
    assert a !in b by {
      if a in b { assert InBlock(a, b[a].order, a); assert Covered(b, a); }
    }
    AddOk(b, v.donated, a, order);
    AddCoalesced(b, v.donated, a, order);
    AddTagged(b, v.pages, a, order);
    AddListed(b, v.orders, a, order);
  }

  ghost predicate Outside(b: Blocks, donated: set<nat>, a: nat, order: nat) {
    && BlocksOk(b, donated) && 1 <= a && order <= MAX_ORDER && Aligned(a, order) && a !in b
    && forall p: nat | InBlock(a, order, p) :: p !in donated
  }

  /** A block of donated pages does not meet the new one. */
  lemma AddApart(b: Blocks, donated: set<nat>, a: nat, order: nat, s: nat)
    requires Outside(b, donated, a, order) && s in b
    ensures Disjoint(s, b[s].order, a, order) && Disjoint(b[s].root, b[s].rootOrder, a, order)
  {
    var r, k := b[s].root, b[s].rootOrder;
    assert BlockOk(b, s);
    if !Disjoint(r, k, a, order) {
      var p := if r < a then a else r;
      assert InBlock(r, k, p) && InBlock(a, order, p);
      assert false;
    }
  }

  lemma AddOk(b: Blocks, donated: set<nat>, a: nat, order: nat)
    requires Outside(b, donated, a, order)
    ensures BlocksOk(b[a := Block(order, true, a, order)], donated + BlockPages(a, order))
  {
    var b', d' := b[a := Block(order, true, a, order)], donated + BlockPages(a, order);
    hide Pow2, Aligned;
    forall t: nat | t in b'
      ensures BlockOk(b', t)
    {
      if t != a { assert BlockOk(b, t); }
    }
    forall t: nat, u: nat | t in b' && u in b'
      ensures PairOk(b', t, u)
    {
      if t != a { AddApart(b, donated, a, order, t); }
      if u != a { AddApart(b, donated, a, order, u); }
      if t != a && u != a { assert PairOk(b, t, u); }
    }
    forall p: nat
      ensures p in d' <==> Covered(b', p)
    {
      if Covered(b, p) {
        var t: nat :| t in b && InBlock(t, b[t].order, p);
        assert t in b' && InBlock(t, b'[t].order, p);
      }
      if InBlock(a, order, p) { assert a in b' && InBlock(a, b'[a].order, p); }
      if Covered(b', p) {
        var t: nat :| t in b' && InBlock(t, b'[t].order, p);
        if t != a { assert t in b && InBlock(t, b[t].order, p); }
      }
    }
    forall t: nat, p: nat | t in b' && InBlock(b'[t].root, b'[t].rootOrder, p)
      ensures p in d'
    {
      if t != a { assert InBlock(b[t].root, b[t].rootOrder, p); }
    }
  }

  lemma AddCoalesced(b: Blocks, donated: set<nat>, a: nat, order: nat)
    requires Outside(b, donated, a, order) && Coalesced(b)
    ensures Coalesced(b[a := Block(order, true, a, order)])
  {
    var b' := b[a := Block(order, true, a, order)];
    forall t: nat | t in b' && b'[t].free
      ensures !Joinable(b', t)
    {
      if t != a {
        assert !Joinable(b, t);
        if b[t].order < b[t].rootOrder && Buddy(t, b[t].order) == a {
          assert BlockOk(b, t);
          BuddyInside(t, b[t].order, b[t].root, b[t].rootOrder);
          AddApart(b, donated, a, order, t);
        }
      }
    }
  }

  lemma AddTagged(b: Blocks, pages: Pages, a: nat, order: nat)
    requires Tagged(b, pages, NONE) && a in pages && a !in b
    ensures Tagged(b[a := Block(order, true, a, order)], pages[a := Page(FREE, order, order)], NONE)
  {
    var b', pages' := b[a := Block(order, true, a, order)], pages[a := Page(FREE, order, order)];
    forall p: nat | p in pages'
      ensures TagOk(b', pages', NONE, p)
    {
      assert TagOk(b, pages, NONE, p);
    }
  }

  lemma AddListed(b: Blocks, orders: seq<seq<nat>>, a: nat, order: nat)
    requires Listed(b, orders) && a !in b && order <= MAX_ORDER
    ensures Listed(b[a := Block(order, true, a, order)], orders[order := [a] + orders[order]])
  {
    var b', orders' := b[a := Block(order, true, a, order)], orders[order := [a] + orders[order]];
    forall k: nat | k <= MAX_ORDER
      ensures ListOk(b', orders'[k], k)
    {
      assert ListOk(b, orders[k], k);
      if k == order { PushFacts(orders[k], a); }
    }
  }
}
