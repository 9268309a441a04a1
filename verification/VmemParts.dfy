/** An arena as a sequence of segments in address order: what splitting, allocating, freeing and merging do to it. */
module VmemParts {
  import opened Bits

  datatype Segment = Segment(base: nat, size: nat, used: bool)

  type Parts = seq<Segment>

  function End(s: Segment): nat { s.base + s.size }

  predicate Inside(s: Segment, x: nat) { s.base <= x < End(s) }

  /** `x` is a multiple of the quantum. */
  predicate OnGrid(x: nat, q: nat)
    requires q > 0
  {
    x % q == 0
  }

  predicate Adjacent(a: Segment, b: Segment) { End(a) == b.base }

  /** The segments are not empty, start on the grid, and tile the addresses from `lo` to `hi`. */
  ghost predicate Tiles(p: Parts, lo: nat, hi: nat, q: nat)
    requires q > 0
  {
    && |p| > 0 && p[0].base == lo && End(p[|p| - 1]) == hi
    && (forall i | 0 <= i < |p| :: p[i].size > 0 && OnGrid(p[i].base, q))
    && (forall i, j | 0 <= i < j < |p| && j == i + 1 :: Adjacent(p[i], p[j]))
  }

  /** No two neighbours are both free, except possibly the pairs ending at an index in `skip`. */
  ghost predicate CoalescedBut(p: Parts, skip: set<int>) {
    forall i, j | 0 <= i < j < |p| && j == i + 1 && j !in skip :: p[i].used || p[j].used
  }

  ghost predicate Coalesced(p: Parts) { CoalescedBut(p, {}) }

  /** Address `x` is allocated. */
  ghost predicate Taken(p: Parts, x: nat) { exists k | 0 <= k < |p| :: Inside(p[k], x) && p[k].used }

  lemma {:induction false} Sorted(p: Parts, lo: nat, hi: nat, q: nat, i: nat, j: nat)
    requires q > 0 && Tiles(p, lo, hi, q) && i < j < |p|
    ensures End(p[i]) <= p[j].base
    decreases j
  {
    assert Adjacent(p[j - 1], p[j]);
    if i < j - 1 { Sorted(p, lo, hi, q, i, j - 1); }
  }

  lemma Bounds(p: Parts, lo: nat, hi: nat, q: nat, k: nat)
    requires q > 0 && Tiles(p, lo, hi, q) && k < |p|
    ensures lo <= p[k].base < End(p[k]) <= hi
  {
    if k > 0 { Sorted(p, lo, hi, q, 0, k); }
    if k < |p| - 1 { Sorted(p, lo, hi, q, k, |p| - 1); }
  }

  /** An address is in one segment only. */
  lemma OneHolder(p: Parts, lo: nat, hi: nat, q: nat, i: nat, j: nat, x: nat)
    requires q > 0 && Tiles(p, lo, hi, q) && i < |p| && j < |p| && Inside(p[i], x) && Inside(p[j], x)
    ensures i == j
  {
    if i < j { Sorted(p, lo, hi, q, i, j); }
    if j < i { Sorted(p, lo, hi, q, j, i); }
  }

  lemma TakenIn(p: Parts, lo: nat, hi: nat, q: nat, k: nat, x: nat)
    requires q > 0 && Tiles(p, lo, hi, q) && k < |p| && Inside(p[k], x)
    ensures Taken(p, x) <==> p[k].used
  {
    if Taken(p, x) {
      var j: nat :| j < |p| && Inside(p[j], x) && p[j].used;
      OneHolder(p, lo, hi, q, j, k, x);
    }
  }

  lemma Holder(p: Parts, lo: nat, hi: nat, q: nat, x: nat) returns (k: nat)
    requires q > 0 && Tiles(p, lo, hi, q) && lo <= x < hi
    ensures k < |p| && Inside(p[k], x)
  {
    k := 0;
    while End(p[k]) <= x
      invariant k < |p| && p[k].base <= x
      decreases |p| - k
    {
      assert k + 1 < |p|;
      assert Adjacent(p[k], p[k + 1]);
      k := k + 1;
    }
  }

  // ---- replacing segments by others that tile the same addresses ----

  function Splice(p: Parts, i: nat, j: nat, mid: Parts): Parts
    requires i <= j <= |p|
  {
    p[..i] + mid + p[j..]
  }

  lemma SpliceAt(p: Parts, i: nat, j: nat, mid: Parts, k: nat)
    requires i <= j <= |p| && k < |Splice(p, i, j, mid)|
    ensures Splice(p, i, j, mid)[k] ==
            if k < i then p[k] else if k < i + |mid| then mid[k - i] else p[k - |mid| - i + j]
  {
  }

  lemma TilesSplice(p: Parts, lo: nat, hi: nat, q: nat, i: nat, j: nat, mid: Parts)
    requires q > 0 && Tiles(p, lo, hi, q) && i < j <= |p| && Tiles(mid, p[i].base, End(p[j - 1]), q)
    ensures Tiles(Splice(p, i, j, mid), lo, hi, q)
  {
    var r := Splice(p, i, j, mid);
    SpliceAt(p, i, j, mid, 0);
    SpliceAt(p, i, j, mid, |r| - 1);
    forall k | 0 <= k < |r|
      ensures r[k].size > 0 && OnGrid(r[k].base, q)
    {
      SpliceAt(p, i, j, mid, k);
    }
    forall k, l | 0 <= k < l < |r| && l == k + 1
      ensures Adjacent(r[k], r[l])
    {
      SpliceAt(p, i, j, mid, k);
      SpliceAt(p, i, j, mid, l);
      if l < i { assert Adjacent(p[k], p[l]); }
      else if l == i { assert Adjacent(p[i - 1], p[i]); }
      else if l < i + |mid| { assert Adjacent(mid[k - i], mid[l - i]); }
      else { assert Adjacent(p[l - |mid| - i + j - 1], p[l - |mid| - i + j]); }
    }
  }

  /** Splicing changes only the addresses it covers. */
  lemma TakenSplice(p: Parts, lo: nat, hi: nat, q: nat, i: nat, j: nat, mid: Parts, x: nat)
    requires q > 0 && Tiles(p, lo, hi, q) && i < j <= |p| && Tiles(mid, p[i].base, End(p[j - 1]), q)
    ensures Taken(Splice(p, i, j, mid), x) <==> if p[i].base <= x < End(p[j - 1]) then Taken(mid, x) else Taken(p, x)
  {
    var r := Splice(p, i, j, mid);
    TilesSplice(p, lo, hi, q, i, j, mid);
    if lo <= x < hi {
      var k := Holder(r, lo, hi, q, x);
      TakenIn(r, lo, hi, q, k, x);
      SpliceAt(p, i, j, mid, k);
      if k < i {
        Sorted(p, lo, hi, q, k, i);
        TakenIn(p, lo, hi, q, k, x);
      } else if k < i + |mid| {
        Bounds(mid, p[i].base, End(p[j - 1]), q, k - i);
        TakenIn(mid, p[i].base, End(p[j - 1]), q, k - i, x);
      } else {
        Sorted(p, lo, hi, q, j - 1, k - |mid| - i + j);
        TakenIn(p, lo, hi, q, k - |mid| - i + j, x);
      }
    } else {
      NotTakenOutside(r, lo, hi, q, x);
      NotTakenOutside(p, lo, hi, q, x);
      Bounds(p, lo, hi, q, i);
      Bounds(p, lo, hi, q, j - 1);
    }
  }

  lemma NotTakenOutside(p: Parts, lo: nat, hi: nat, q: nat, x: nat)
    requires q > 0 && Tiles(p, lo, hi, q) && !(lo <= x < hi)
    ensures !Taken(p, x)
  {
    if Taken(p, x) {
      var k: nat :| k < |p| && Inside(p[k], x) && p[k].used;
      Bounds(p, lo, hi, q, k);
      assert false;
    }
  }

  // ---- allocating ----

  /** The free segment `s` cut up around the allocation of `size` bytes at `r`: a rest smaller than the quantum is
      not split off. */
  function AllocPieces(s: Segment, r: nat, size: nat, q: nat): Parts
    requires s.base <= r && r + size <= End(s)
  {
    var cut := s.base != r && r - s.base >= q;
    var left := if cut then [Segment(s.base, r - s.base, false)] else [];
    var base := if cut then r else s.base;
    var len := End(s) - base;
    if len != size && len - size >= q then left + [Segment(base, size, true), Segment(base + size, len - size, false)]
    else left + [Segment(base, len, true)]
  }

  /** Where the bytes granted by an allocation end: a rest of the arena smaller than the quantum goes with it. */
  function GrantEnd(e: nat, hi: nat, q: nat): nat { if e < hi && hi - e < q then hi else e }

  /** The free segment `s` has room for `size` bytes at `r`, on the grid. */
  predicate Within(s: Segment, r: nat, size: nat, q: nat)
    requires q > 0
  {
    && !s.used && s.base <= r && r + size <= End(s)
    && OnGrid(s.base, q) && OnGrid(r, q) && OnGrid(size, q)
  }

  predicate Fits(s: Segment, r: nat, size: nat, q: nat)
    requires q > 0
  {
    size > 0 && Within(s, r, size, q)
  }

  lemma AllocTiles(s: Segment, r: nat, size: nat, q: nat)
    requires q > 0 && Fits(s, r, size, q)
    ensures Tiles(AllocPieces(s, r, size, q), s.base, End(s), q)
  {
    MultipleSum(r, size, q);
    if s.base < r { MultipleBelow(s.base, r, q); }
  }

  lemma AllocTaken(s: Segment, r: nat, size: nat, q: nat, x: nat)
    requires q > 0 && Fits(s, r, size, q)
    ensures Taken(AllocPieces(s, r, size, q), x) <==> r <= x < GrantEnd(r + size, End(s), q)
  {
    var p := AllocPieces(s, r, size, q);
    if s.base < r { MultipleBelow(s.base, r, q); }
    AllocTiles(s, r, size, q);
    if s.base <= x < End(s) {
      var k := Holder(p, s.base, End(s), q, x);
      TakenIn(p, s.base, End(s), q, k, x);
    } else {
      NotTakenOutside(p, s.base, End(s), q, x);
    }
  }

  /** Allocating `size` bytes at `r` inside the free segment `k`. */
  function AllocParts(p: Parts, k: nat, r: nat, size: nat, q: nat): Parts
    requires k < |p| && p[k].base <= r && r + size <= End(p[k])
  {
    Splice(p, k, k + 1, AllocPieces(p[k], r, size, q))
  }

  /** The end of a segment that is not the last one is on the grid. */
  lemma EndOnGrid(p: Parts, lo: nat, hi: nat, q: nat, k: nat)
    requires q > 0 && Tiles(p, lo, hi, q) && k < |p|
    ensures End(p[k]) == hi || OnGrid(End(p[k]), q)
  {
    if k + 1 < |p| { assert Adjacent(p[k], p[k + 1]); }
  }

  lemma GrantInArena(p: Parts, lo: nat, hi: nat, q: nat, k: nat, r: nat, size: nat)
    requires q > 0 && Tiles(p, lo, hi, q) && k < |p| && Fits(p[k], r, size, q)
    ensures GrantEnd(r + size, End(p[k]), q) == r + size || End(p[k]) == hi
    ensures GrantEnd(r + size, hi, q) == GrantEnd(r + size, End(p[k]), q)
            || (End(p[k]) == r + size < hi && hi - (r + size) < q)
  {
    EndOnGrid(p, lo, hi, q, k);
    Bounds(p, lo, hi, q, k);
    MultipleSum(r, size, q);
    if End(p[k]) != hi && r + size < End(p[k]) { MultipleBelow(r + size, End(p[k]), q); }
  }

  /** A rest of the arena smaller than the quantum, behind a free segment, is in use. */
  lemma RestTaken(p: Parts, lo: nat, hi: nat, q: nat, k: nat, x: nat)
    requires q > 0 && Tiles(p, lo, hi, q) && Coalesced(p) && k < |p| && !p[k].used
    requires OnGrid(End(p[k]), q) && End(p[k]) <= x < hi && hi - End(p[k]) < q
    ensures Taken(p, x)
  {
    Bounds(p, lo, hi, q, k);
    var j := Holder(p, lo, hi, q, x);
    assert j > k by {
      if j < k { Sorted(p, lo, hi, q, j, k); }
    }
    assert Adjacent(p[k], p[k + 1]);
    Bounds(p, lo, hi, q, j);
    if j > k + 1 {
      Sorted(p, lo, hi, q, k + 1, j);
      MultipleBelow(End(p[k]), p[j].base, q);
    }
    TakenIn(p, lo, hi, q, j, x);
  }

  /** An allocation takes the bytes it returns, and with them a rest of the arena smaller than the quantum. */
  lemma AllocPartsTaken(p: Parts, lo: nat, hi: nat, q: nat, k: nat, r: nat, size: nat, x: nat)
    requires q > 0 && Tiles(p, lo, hi, q) && Coalesced(p) && k < |p| && Fits(p[k], r, size, q)
    ensures Taken(AllocParts(p, k, r, size, q), x) <==> Taken(p, x) || r <= x < GrantEnd(r + size, hi, q)
  {
    var s := p[k];
    AllocTiles(s, r, size, q);
    TakenSplice(p, lo, hi, q, k, k + 1, AllocPieces(s, r, size, q), x);
    AllocTaken(s, r, size, q, x);
    GrantInArena(p, lo, hi, q, k, r, size);
    Bounds(p, lo, hi, q, k);
    MultipleSum(r, size, q);
    if s.base <= x < End(s) {
      TakenIn(p, lo, hi, q, k, x);
    } else if r + size == End(s) <= x < GrantEnd(r + size, hi, q) {
      RestTaken(p, lo, hi, q, k, x);
    }
  }

  lemma AllocPartsValid(p: Parts, lo: nat, hi: nat, q: nat, k: nat, r: nat, size: nat)
    requires q > 0 && Tiles(p, lo, hi, q) && Coalesced(p) && k < |p| && Fits(p[k], r, size, q)
    ensures Tiles(AllocParts(p, k, r, size, q), lo, hi, q) && Coalesced(AllocParts(p, k, r, size, q))
  {
    var mid := AllocPieces(p[k], r, size, q);
    AllocTiles(p[k], r, size, q);
    TilesSplice(p, lo, hi, q, k, k + 1, mid);
    CoalescedSplice(p, k, k + 1, mid, {}) by {
      assert k > 0 ==> p[k - 1].used;
    }
  }

  /** A request for no bytes leaves an empty allocated segment in the list, and so breaks the tiling, unless less than a
      quantum is left of the free segment, which is then granted as a whole. */
  lemma EmptyRequest(p: Parts, lo: nat, hi: nat, q: nat, k: nat, r: nat)
    requires q > 0 && Tiles(p, lo, hi, q) && Coalesced(p) && k < |p| && !p[k].used
    requires p[k].base <= r <= End(p[k]) && OnGrid(r, q)
    ensures var p' := AllocParts(p, k, r, 0, q);
            Tiles(p', lo, hi, q) && Coalesced(p') <==> 0 < End(p[k]) - r < q
  {
    var s, mid := p[k], AllocPieces(p[k], r, 0, q);
    if s.base < r { MultipleBelow(s.base, r, q); }
    if 0 < End(s) - r < q {
      TilesSplice(p, lo, hi, q, k, k + 1, mid);
      CoalescedSplice(p, k, k + 1, mid, {}) by {
        assert k > 0 ==> p[k - 1].used;
      }
    } else {
      var j := if s.base < r then 1 else 0;
      SpliceAt(p, k, k + 1, mid, k + j);
      assert mid[j].size == 0;
    }
  }

  /** Such a request breaks the tiling of an arena of two free pages. */
  lemma EmptyRequestBreaks()
    ensures var s := Segment(4096, 8192, false);
            && Tiles([s], 4096, 12288, 4096) && Coalesced([s])
            && AllocParts([s], 0, 4096, 0, 4096) == [Segment(4096, 0, true), s]
            && !Tiles(AllocParts([s], 0, 4096, 0, 4096), 4096, 12288, 4096)
  {
    var s := Segment(4096, 8192, false);
    assert AllocPieces(s, 4096, 0, 4096) == [Segment(4096, 0, true), s];
    var p' := AllocParts([s], 0, 4096, 0, 4096);
    assert p' == [Segment(4096, 0, true), s];
    assert p'[0].size == 0;
  }

  /** Splicing keeps neighbours apart if the new segments and the two seams do. */
  lemma CoalescedSplice(p: Parts, i: nat, j: nat, mid: Parts, skip: set<int>)
    requires CoalescedBut(p, skip) && i < j <= |p| && |mid| > 0 && CoalescedBut(mid, {})
    requires i > 0 ==> p[i - 1].used || mid[0].used
    requires j < |p| ==> mid[|mid| - 1].used || p[j].used
    requires forall n | n in skip :: i <= n <= j
    ensures Coalesced(Splice(p, i, j, mid))
  {
    var r := Splice(p, i, j, mid);
    forall k, l | 0 <= k < l < |r| && l == k + 1
      ensures r[k].used || r[l].used
    {
      SpliceAt(p, i, j, mid, k);
      SpliceAt(p, i, j, mid, l);
      if i < l < i + |mid| { assert mid[k - i].used || mid[l - i].used; }
    }
  }

  // ---- finding room ----

  /** The bytes from `a` on, `size` of them, are in the arena and free. */
  ghost predicate FreeRun(p: Parts, lo: nat, hi: nat, a: nat, size: nat) {
    lo <= a && a + size <= hi && forall x: nat | a <= x < a + size :: !Taken(p, x)
  }

  /** `p'` has the bytes from `a` to `b` in use besides those of `p`. */
  ghost predicate AddsTaken(p: Parts, p': Parts, a: nat, b: nat) {
    forall x: nat :: Taken(p', x) <==> Taken(p, x) || a <= x < b
  }

  /** There is room for a request of `size` bytes at `addr` or, for `addr` 0, anywhere. */
  ghost predicate Available(p: Parts, lo: nat, hi: nat, addr: nat, size: nat) {
    if addr == 0 then exists a: nat :: FreeRun(p, lo, hi, a, size) else FreeRun(p, lo, hi, addr, size)
  }

  /** A free run lies inside one segment. */
  lemma RunInSegment(p: Parts, lo: nat, hi: nat, q: nat, a: nat, size: nat) returns (k: nat)
    requires q > 0 && Tiles(p, lo, hi, q) && Coalesced(p) && size > 0 && FreeRun(p, lo, hi, a, size)
    ensures k < |p| && !p[k].used && p[k].base <= a && a + size <= End(p[k])
  {
    k := Holder(p, lo, hi, q, a);
    TakenIn(p, lo, hi, q, k, a);
    if a + size > End(p[k]) {
      Bounds(p, lo, hi, q, k);
      assert k + 1 < |p|;
      assert Adjacent(p[k], p[k + 1]);
      TakenIn(p, lo, hi, q, k + 1, End(p[k]));
      assert false;
    }
  }

  /** Part of a free segment is a free run. */
  lemma SegmentIsRun(p: Parts, lo: nat, hi: nat, q: nat, k: nat, a: nat, size: nat)
    requires q > 0 && Tiles(p, lo, hi, q) && k < |p| && !p[k].used && p[k].base <= a && a + size <= End(p[k])
    ensures FreeRun(p, lo, hi, a, size)
  {
    Bounds(p, lo, hi, q, k);
    forall x: nat | a <= x < a + size
      ensures !Taken(p, x)
    {
      TakenIn(p, lo, hi, q, k, x);
    }
  }

  // ---- freeing ----

  /** The used segment `s` cut up around the bytes from `cur` to `end` that become free. */
  function FreePieces(s: Segment, cur: nat, end: nat): Parts
    requires s.base <= cur < End(s) && cur < end
  {
    var left := if s.base < cur then [Segment(s.base, cur - s.base, true)] else [];
    var right := if End(s) > end then [Segment(end, End(s) - end, true)] else [];
    left + [Segment(cur, Min(End(s), end) - cur, false)] + right
  }

  lemma FreePiecesValid(s: Segment, cur: nat, end: nat, q: nat)
    requires q > 0 && s.used && s.base <= cur < End(s) && cur < end
    requires OnGrid(s.base, q) && OnGrid(cur, q) && OnGrid(end, q)
    ensures Tiles(FreePieces(s, cur, end), s.base, End(s), q) && Coalesced(FreePieces(s, cur, end))
  {
  }

  lemma FreePiecesTaken(s: Segment, cur: nat, end: nat, q: nat, x: nat)
    requires q > 0 && s.used && s.base <= cur < End(s) && cur < end
    requires OnGrid(s.base, q) && OnGrid(cur, q) && OnGrid(end, q)
    ensures Taken(FreePieces(s, cur, end), x) <==> s.base <= x < End(s) && !(cur <= x < end)
  {
    var p := FreePieces(s, cur, end);
    FreePiecesValid(s, cur, end, q);
    if s.base <= x < End(s) {
      var k := Holder(p, s.base, End(s), q, x);
      TakenIn(p, s.base, End(s), q, k, x);
    } else {
      NotTakenOutside(p, s.base, End(s), q, x);
    }
  }

  /** Segments `k - 1` and `k` become one free segment. */
  function Merge(p: Parts, k: nat): Parts
    requires 0 < k < |p|
  {
    Splice(p, k - 1, k + 1, [Segment(p[k - 1].base, p[k - 1].size + p[k].size, false)])
  }

  lemma MergeKeeps(p: Parts, lo: nat, hi: nat, q: nat, k: nat, x: nat)
    requires q > 0 && Tiles(p, lo, hi, q) && 0 < k < |p| && !p[k - 1].used && !p[k].used
    ensures Tiles(Merge(p, k), lo, hi, q)
    ensures Taken(Merge(p, k), x) <==> Taken(p, x)
  {
    assert Adjacent(p[k - 1], p[k]);
    var mid := [Segment(p[k - 1].base, p[k - 1].size + p[k].size, false)];
    TilesSplice(p, lo, hi, q, k - 1, k + 1, mid);
    TakenSplice(p, lo, hi, q, k - 1, k + 1, mid, x);
    if p[k - 1].base <= x < End(p[k]) {
      if x < p[k].base { TakenIn(p, lo, hi, q, k - 1, x); } else { TakenIn(p, lo, hi, q, k, x); }
    }
  }

  function MergeLeft(p: Parts, k: nat): Parts
    requires k < |p|
  {
    if k > 0 && !p[k - 1].used then Merge(p, k) else p
  }

  function LeftIndex(p: Parts, k: nat): nat
    requires k < |p|
  {
    if k > 0 && !p[k - 1].used then k - 1 else k
  }

  function MergeRight(p: Parts, k: nat): Parts
    requires k < |p|
  {
    if k + 1 < |p| && !p[k + 1].used then Merge(p, k + 1) else p
  }

  /** Where the freed segment is after `FreeCut`. */
  function CutIndex(p: Parts, k: nat, cur: nat): nat
    requires k < |p|
  {
    if p[k].base < cur then k + 1 else k
  }

  function FreeCut(p: Parts, k: nat, cur: nat, end: nat): Parts
    requires k < |p| && p[k].base <= cur < End(p[k]) && cur < end
  {
    Splice(p, k, k + 1, FreePieces(p[k], cur, end))
  }

  /** One round of freeing: cut the bytes out of the used segment `k` and merge them with free neighbours. */
  function FreeStep(p: Parts, k: nat, cur: nat, end: nat): Parts
    requires k < |p| && p[k].base <= cur < End(p[k]) && cur < end
  {
    var p1, k1 := FreeCut(p, k, cur, end), CutIndex(p, k, cur);
    CutAt(p, k, cur, end);
    MergeRight(MergeLeft(p1, k1), LeftIndex(p1, k1))
  }

  lemma CutAt(p: Parts, k: nat, cur: nat, end: nat)
    requires k < |p| && p[k].base <= cur < End(p[k]) && cur < end
    ensures CutIndex(p, k, cur) < |FreeCut(p, k, cur, end)|
    ensures FreeCut(p, k, cur, end)[CutIndex(p, k, cur)] == Segment(cur, Min(End(p[k]), end) - cur, false)
  {
    SpliceAt(p, k, k + 1, FreePieces(p[k], cur, end), CutIndex(p, k, cur));
  }

  lemma CutValid(p: Parts, lo: nat, hi: nat, q: nat, k: nat, cur: nat, end: nat)
    requires q > 0 && Tiles(p, lo, hi, q) && Coalesced(p) && k < |p| && p[k].used
    requires p[k].base <= cur < End(p[k]) && cur < end && OnGrid(cur, q) && OnGrid(end, q)
    ensures var p1, k1 := FreeCut(p, k, cur, end), CutIndex(p, k, cur);
            Tiles(p1, lo, hi, q) && CoalescedBut(p1, {k1, k1 + 1})
  {
    var mid := FreePieces(p[k], cur, end);
    FreePiecesValid(p[k], cur, end, q);
    TilesSplice(p, lo, hi, q, k, k + 1, mid);
    var r, k1 := Splice(p, k, k + 1, mid), CutIndex(p, k, cur);
    forall i, j | 0 <= i < j < |r| && j == i + 1 && j !in {k1, k1 + 1}
      ensures r[i].used || r[j].used
    {
      SpliceAt(p, k, k + 1, mid, i);
      SpliceAt(p, k, k + 1, mid, j);
    }
  }

  lemma CutTaken(p: Parts, lo: nat, hi: nat, q: nat, k: nat, cur: nat, end: nat, x: nat)
    requires q > 0 && Tiles(p, lo, hi, q) && Coalesced(p) && k < |p| && p[k].used
    requires p[k].base <= cur < End(p[k]) && cur < end && OnGrid(cur, q) && OnGrid(end, q)
    ensures Taken(FreeCut(p, k, cur, end), x) <==> Taken(p, x) && !(cur <= x < Min(End(p[k]), end))
  {
    FreePiecesValid(p[k], cur, end, q);
    FreePiecesTaken(p[k], cur, end, q, x);
    TakenSplice(p, lo, hi, q, k, k + 1, FreePieces(p[k], cur, end), x);
    if Inside(p[k], x) { TakenIn(p, lo, hi, q, k, x); }
  }

  lemma MergeCoalesced(p: Parts, k: nat, skip: set<int>)
    requires 0 < k < |p| && !p[k - 1].used && !p[k].used && CoalescedBut(p, skip)
    requires forall n | n in skip :: k <= n <= k + 1
    ensures CoalescedBut(Merge(p, k), if k + 1 in skip then {k} else {})
  {
    var mid := [Segment(p[k - 1].base, p[k - 1].size + p[k].size, false)];
    var r := Splice(p, k - 1, k + 1, mid);
    forall i, j | 0 <= i < j < |r| && j == i + 1 && j !in (if k + 1 in skip then {k} else {})
      ensures r[i].used || r[j].used
    {
      SpliceAt(p, k - 1, k + 1, mid, i);
      SpliceAt(p, k - 1, k + 1, mid, j);
      if j == k - 1 { assert r[i] == p[i]; }
      if j == k { assert r[j] == p[j + 1]; }
    }
  }

  lemma MergeLeftValid(p: Parts, lo: nat, hi: nat, q: nat, k: nat)
    requires q > 0 && Tiles(p, lo, hi, q) && k < |p| && !p[k].used && CoalescedBut(p, {k, k + 1})
    ensures Tiles(MergeLeft(p, k), lo, hi, q) && LeftIndex(p, k) < |MergeLeft(p, k)|
    ensures CoalescedBut(MergeLeft(p, k), {LeftIndex(p, k) + 1}) && !MergeLeft(p, k)[LeftIndex(p, k)].used
  {
    if k > 0 && !p[k - 1].used {
      MergeKeeps(p, lo, hi, q, k, 0);
      MergeCoalesced(p, k, {k, k + 1});
    }
  }

  lemma MergeRightValid(p: Parts, lo: nat, hi: nat, q: nat, k: nat)
    requires q > 0 && Tiles(p, lo, hi, q) && k < |p| && !p[k].used && CoalescedBut(p, {k + 1})
    ensures Tiles(MergeRight(p, k), lo, hi, q) && Coalesced(MergeRight(p, k))
  {
    if k + 1 < |p| && !p[k + 1].used {
      hide *;
      assert MergeRight(p, k) == Merge(p, k + 1) by { MergesRight(p, k); }
      MergeKeeps(p, lo, hi, q, k + 1, 0);
      MergeCoalesced(p, k + 1, {k + 1});
      NoSkip(Merge(p, k + 1));
    }
  }

  lemma MergesRight(p: Parts, k: nat)
    requires k + 1 < |p| && !p[k + 1].used
    ensures MergeRight(p, k) == Merge(p, k + 1)
  {
  }

  lemma NoSkip(p: Parts)
    ensures CoalescedBut(p, {}) ==> Coalesced(p)
  {
  }

  lemma FreeStepValid(p: Parts, lo: nat, hi: nat, q: nat, k: nat, cur: nat, end: nat)
    requires q > 0 && Tiles(p, lo, hi, q) && Coalesced(p) && k < |p| && p[k].used
    requires p[k].base <= cur < End(p[k]) && cur < end && OnGrid(cur, q) && OnGrid(end, q)
    ensures Tiles(FreeStep(p, k, cur, end), lo, hi, q) && Coalesced(FreeStep(p, k, cur, end))
  {
    hide Tiles, CoalescedBut, Coalesced, FreeCut, MergeLeft, MergeRight;
    var p1, k1 := FreeCut(p, k, cur, end), CutIndex(p, k, cur);
    CutAt(p, k, cur, end);
    CutValid(p, lo, hi, q, k, cur, end);
    MergeLeftValid(p1, lo, hi, q, k1);
    MergeRightValid(MergeLeft(p1, k1), lo, hi, q, LeftIndex(p1, k1));
  }

  lemma FreeStepTaken(p: Parts, lo: nat, hi: nat, q: nat, k: nat, cur: nat, end: nat, x: nat)
    requires q > 0 && Tiles(p, lo, hi, q) && Coalesced(p) && k < |p| && p[k].used
    requires p[k].base <= cur < End(p[k]) && cur < end && OnGrid(cur, q) && OnGrid(end, q)
    ensures Taken(FreeStep(p, k, cur, end), x) <==> Taken(p, x) && !(cur <= x < Min(End(p[k]), end))
  {
    hide Tiles, CoalescedBut, Coalesced, Taken, FreeCut, Merge, Inside;
    var p1, k1 := FreeCut(p, k, cur, end), CutIndex(p, k, cur);
    CutAt(p, k, cur, end);
    CutValid(p, lo, hi, q, k, cur, end);
    CutTaken(p, lo, hi, q, k, cur, end, x);
    var p2, k2 := MergeLeft(p1, k1), LeftIndex(p1, k1);
    MergeLeftValid(p1, lo, hi, q, k1);
    if k1 > 0 && !p1[k1 - 1].used { MergeKeeps(p1, lo, hi, q, k1, x); }
    if k2 + 1 < |p2| && !p2[k2 + 1].used { MergeKeeps(p2, lo, hi, q, k2 + 1, x); }
  }
}
