/** The key under which a futex word is registered: the base of the leaf that maps its page, plus its offset in the
    page. */
module FutexKeys {
  import opened Bits
  import opened PageMath
  import opened PageShape
  import opened PageCount
  import opened Paging
  import Futex

  /** The physical address of `a`. */
  ghost function Physical(p: PageTable, a: nat): nat
    requires p.Translate(a / PAGE_SIZE).Some?
    reads p
  {
    p.Translate(a / PAGE_SIZE).frame * PAGE_SIZE + a % PAGE_SIZE
  }

  /** The leaf that maps the page of `a`, by its first frame. */
  ghost function LeafOf(p: PageTable, a: nat): int
    requires p.Translate(a / PAGE_SIZE).Some?
    reads p
  {
    p.Translate(a / PAGE_SIZE).frame - (a / PAGE_SIZE) % Size(WalkEnd(p.mem, p.root, p.top, a / PAGE_SIZE))
  }

  ghost function Key(p: PageTable, a: nat): int
    requires p.Translate(a / PAGE_SIZE).Some?
    reads p
  {
    LeafOf(p, a) * PAGE_SIZE + a % PAGE_SIZE
  }

  /** The key of a word. It is the word's physical address exactly when its page is the first of its leaf. */
  method KeyOf(p: PageTable, a: nat) returns (key: int)
    requires p.Valid() && a / PAGE_SIZE < Space(p.top) && p.Translate(a / PAGE_SIZE).Some?
    ensures key == Key(p, a)
    ensures key == Physical(p, a) <==> (a / PAGE_SIZE) % Size(WalkEnd(p.mem, p.root, p.top, a / PAGE_SIZE)) == 0
  {
    var paddr, _ := p.GetPaddr(a / PAGE_SIZE);
    var offset := a % PAGE_SIZE;
    key := paddr * PAGE_SIZE + offset;
  }

  /** So no wakeup of the user's word is missed, in any run, exactly when its page is the first of its leaf. */
  lemma UserWordNotMissedIff(p: PageTable, a: nat)
    requires p.Translate(a / PAGE_SIZE).Some?
    ensures Key(p, a) >= 0
    ensures Futex.NoneMissedAt(Key(p, a), Physical(p, a)) <==>
            (a / PAGE_SIZE) % Size(WalkEnd(p.mem, p.root, p.top, a / PAGE_SIZE)) == 0
  {
    hide Futex.NoneMissedAt;
    LeafIsFrame(p.mem, p.root, p.top, a / PAGE_SIZE);
    Futex.NoneMissedIff(Key(p, a), Physical(p, a));
  }

  lemma {:induction false} LeafIsFrame(m: Mem, t: Frame, l: nat, x: nat)
    requires Walk(m, t, l, x).Some?
    ensures Walk(m, t, l, x).frame >= x % Size(WalkEnd(m, t, l, x))
    decreases l
  {
    var e := m[t][Index(x, l)];
    if e.Table? { LeafIsFrame(m, e.child, l - 1, x); }
  }

  /** Two words have the same key exactly if they are at the same offset in pages of leaves with the same first
      frame. */
  lemma SameKeyIff(p: PageTable, a: nat, b: nat)
    requires p.Translate(a / PAGE_SIZE).Some? && p.Translate(b / PAGE_SIZE).Some?
    ensures Key(p, a) == Key(p, b) <==> LeafOf(p, a) == LeafOf(p, b) && a % PAGE_SIZE == b % PAGE_SIZE
  {
    hide LeafOf;
  }

  lemma {:induction false} SameIndex(x: nat, y: nat, l: nat, k: nat)
    requires x / Size(l) == y / Size(l) && 1 <= l <= k
    ensures x / Size(k) == y / Size(k) && Index(x, k) == Index(y, k)
    decreases k
  {
    if l < k {
      SameIndex(x, y, l, k - 1);
      DivDiv(x, Size(k - 1));
      DivDiv(y, Size(k - 1));
    }
  }

  lemma DivDiv(x: nat, s: nat)
    requires s > 0
    ensures x / (ENTRIES * s) == (x / s) / ENTRIES
  {
    var q, r := x / s, x % s;
    var a, b := q / ENTRIES, q % ENTRIES;
    assert x == q * s + r && q == a * ENTRIES + b;
    assert x == a * (ENTRIES * s) + (b * s + r);
    MulMono(b + 1, ENTRIES, s);
    assert b * s + r < ENTRIES * s;
    DivUnique(x, ENTRIES * s, a);
  }

  /** Pages in the same slot of the level at which the walk of one ends have the same leaf. */
  lemma {:induction false} SameLeaf(m: Mem, t: Frame, l: nat, x: nat, y: nat)
    requires Walk(m, t, l, x).Some? && x / Size(WalkEnd(m, t, l, x)) == y / Size(WalkEnd(m, t, l, x))
    ensures WalkEnd(m, t, l, y) == WalkEnd(m, t, l, x) && Walk(m, t, l, y).Some?
    ensures var s := Size(WalkEnd(m, t, l, x)); Walk(m, t, l, y).frame - y % s == Walk(m, t, l, x).frame - x % s
    decreases l
  {
    WalkEndBelow(m, t, l, x);
    SameIndex(x, y, WalkEnd(m, t, l, x), l);
    var e := m[t][Index(x, l)];
    if e.Table? { SameLeaf(m, e.child, l - 1, x, y); }
  }

  lemma {:induction false} WalkEndBelow(m: Mem, t: Frame, l: nat, x: nat)
    requires Walk(m, t, l, x).Some?
    ensures 1 <= WalkEnd(m, t, l, x) <= l
    decreases l
  {
    var e := m[t][Index(x, l)];
    if e.Table? { WalkEndBelow(m, e.child, l - 1, x); }
  }

  /** So words at the same offset in different pages of a large leaf share a key, although they are different words. */
  lemma SharedKey(p: PageTable, a: nat, b: nat)
    requires p.Translate(a / PAGE_SIZE).Some? && a % PAGE_SIZE == b % PAGE_SIZE && a != b
    requires var s := Size(WalkEnd(p.mem, p.root, p.top, a / PAGE_SIZE)); a / PAGE_SIZE / s == b / PAGE_SIZE / s
    ensures p.Translate(b / PAGE_SIZE).Some? && Key(p, a) == Key(p, b) && Physical(p, a) != Physical(p, b)
  {
    var x, y := a / PAGE_SIZE, b / PAGE_SIZE;
    assert x != y;
    hide Walk, WalkEnd, Size;
    SameLeaf(p.mem, p.root, p.top, x, y);
    DifferentRest(x, y, Size(WalkEnd(p.mem, p.root, p.top, x)));
  }

  lemma DifferentRest(x: nat, y: nat, s: nat)
    requires s > 0 && x != y && x / s == y / s
    ensures x % s != y % s
  {
    assert x == (x / s) * s + x % s && y == (y / s) * s + y % s;
  }
}
