/** Freeing a range over any number of segments, and undoing an allocation. */
module VmemFree {
  import opened Bits
  import opened VmemParts

  /** The used segment that holds `x`, searching from index `k` on; -1 if there is none. */
  function UsedFrom(p: Parts, x: nat, k: nat): (i: int)
    requires k <= |p|
    ensures i == -1 || (k <= i < |p| && p[i].used && Inside(p[i], x))
    ensures i == -1 ==> forall j | k <= j < |p| :: !(p[j].used && Inside(p[j], x))
    decreases |p| - k
  {
    if k == |p| then -1 else if p[k].used && Inside(p[k], x) then k else UsedFrom(p, x, k + 1)
  }

  /** Frees the bytes from `cur` on, segment after segment, up to `end` or the first byte that is not in use. */
  function FreeParts(p: Parts, cur: nat, end: nat): Parts
    decreases end - cur
  {
    if cur >= end then p
    else
      var k := UsedFrom(p, cur, 0);
      if k < 0 then p else FreeParts(FreeStep(p, k, cur, end), Min(End(p[k]), end), end)
  }

  lemma UsedFromAt(p: Parts, lo: nat, hi: nat, q: nat, x: nat, k: nat)
    requires q > 0 && Tiles(p, lo, hi, q) && k < |p| && p[k].used && Inside(p[k], x)
    ensures UsedFrom(p, x, 0) == k
  {
    var i := UsedFrom(p, x, 0);
    OneHolder(p, lo, hi, q, i, k, x);
  }

  /** The cursor of a free: on the grid, or at the end of the arena. */
  ghost predicate Cursor(x: nat, hi: nat, q: nat)
    requires q > 0
  {
    OnGrid(x, q) || x >= hi
  }

  lemma NextCursor(p: Parts, lo: nat, hi: nat, q: nat, k: nat, cur: nat, end: nat)
    requires q > 0 && Tiles(p, lo, hi, q) && k < |p| && Inside(p[k], cur) && cur < end
    requires Cursor(cur, hi, q) && OnGrid(end, q)
    ensures OnGrid(cur, q) && Cursor(Min(End(p[k]), end), hi, q)
  {
    Bounds(p, lo, hi, q, k);
    EndOnGrid(p, lo, hi, q, k);
  }

  lemma {:induction false} FreePartsValid(p: Parts, lo: nat, hi: nat, q: nat, cur: nat, end: nat)
    requires q > 0 && Tiles(p, lo, hi, q) && Coalesced(p) && Cursor(cur, hi, q) && OnGrid(end, q)
    ensures Tiles(FreeParts(p, cur, end), lo, hi, q) && Coalesced(FreeParts(p, cur, end))
    decreases end - cur
  {
    hide Tiles, CoalescedBut, Coalesced, FreeStep;
    if cur < end {
      var k := UsedFrom(p, cur, 0);
      if k >= 0 {
        NextCursor(p, lo, hi, q, k, cur, end);
        FreeStepValid(p, lo, hi, q, k, cur, end);
        FreePartsValid(FreeStep(p, k, cur, end), lo, hi, q, Min(End(p[k]), end), end);
      }
    }
  }

  /** Every byte from `cur` to `x` is in use. */
  ghost predicate AllTaken(p: Parts, cur: nat, x: nat) { forall y: nat | cur <= y <= x :: Taken(p, y) }

  /** Freeing takes away exactly the bytes of the range that no free byte of the range precedes. */
  lemma {:induction false} FreedPrefix(p: Parts, lo: nat, hi: nat, q: nat, cur: nat, end: nat, x: nat)
    requires q > 0 && Tiles(p, lo, hi, q) && Coalesced(p) && Cursor(cur, hi, q) && OnGrid(end, q)
    ensures Taken(FreeParts(p, cur, end), x) <==> Taken(p, x) && !(cur <= x < end && AllTaken(p, cur, x))
    decreases end - cur
  {
    hide Tiles, CoalescedBut, Coalesced, FreeStep, Taken;
    if cur < end {
      var k := UsedFrom(p, cur, 0);
      if k < 0 {
        NobodyHolds(p, cur);
      } else {
        NextCursor(p, lo, hi, q, k, cur, end);
        var p', cur' := FreeStep(p, k, cur, end), Min(End(p[k]), end);
        FreeStepValid(p, lo, hi, q, k, cur, end);
        FreedPrefix(p', lo, hi, q, cur', end, x);
        FreeStepTaken(p, lo, hi, q, k, cur, end, x);
        PrefixStep(p, lo, hi, q, k, cur, end, x);
      }
    }
  }

  lemma NobodyHolds(p: Parts, x: nat)
    requires UsedFrom(p, x, 0) < 0
    ensures !Taken(p, x)
  {
  }

  lemma PrefixStep(p: Parts, lo: nat, hi: nat, q: nat, k: nat, cur: nat, end: nat, x: nat)
    requires q > 0 && Tiles(p, lo, hi, q) && Coalesced(p) && k < |p| && p[k].used
    requires Inside(p[k], cur) && cur < end && OnGrid(cur, q) && OnGrid(end, q)
    ensures var cur' := Min(End(p[k]), end);
            && (cur <= x < cur' ==> AllTaken(p, cur, x))
            && (cur' <= x < end ==> (AllTaken(p, cur, x) <==> AllTaken(FreeStep(p, k, cur, end), cur', x)))
  {
    hide Tiles, CoalescedBut, Coalesced, FreeStep, Taken;
    var p', cur' := FreeStep(p, k, cur, end), Min(End(p[k]), end);
    forall y: nat | cur <= y < cur'
      ensures Taken(p, y)
    {
      TakenIn(p, lo, hi, q, k, y);
    }
    forall y: nat | cur' <= y
      ensures Taken(p', y) <==> Taken(p, y)
    {
      FreeStepTaken(p, lo, hi, q, k, cur, end, y);
    }
  }

  // ---- a segment that ends at 2^64 ----

  /** Freeing from `cur` to `end` comes to a last segment that ends at 2^64: its end wraps to 0, so no rest is kept. */
  ghost predicate ReachesTop(p: Parts, cur: nat, end: nat) {
    && |p| > 0 && cur < end
    && var s := p[|p| - 1];
       s.used && End(s) == TWO64 && s.base < end && AllTaken(p, cur, if cur < s.base then s.base else cur)
  }

  /** Where freeing from `cur` to `end` ends. */
  ghost function FreeLimit(p: Parts, cur: nat, end: nat): nat { if ReachesTop(p, cur, end) then TWO64 else end }

  /** Where a round on the segment `s` ends: if the segment ends at 2^64 its end has wrapped to 0. */
  function RoundEnd(s: Segment, end: nat): nat { if End(s) == TWO64 then TWO64 else end }

  lemma LastSplice(p: Parts, i: nat, j: nat, mid: Parts)
    requires i <= j < |p|
    ensures var r := Splice(p, i, j, mid); |r| > 0 && r[|r| - 1] == p[|p| - 1]
  {
    var r := Splice(p, i, j, mid);
    SpliceAt(p, i, j, mid, |r| - 1);
  }

  lemma LastMergeLeft(p: Parts, k: nat)
    requires k + 1 < |p|
    ensures var p', k' := MergeLeft(p, k), LeftIndex(p, k); k' + 1 < |p'| && p'[|p'| - 1] == p[|p| - 1]
  {
    if k > 0 && !p[k - 1].used {
      LastSplice(p, k - 1, k + 1, [Segment(p[k - 1].base, p[k - 1].size + p[k].size, false)]);
    }
  }

  lemma LastMergeRight(p: Parts, k: nat)
    requires k + 1 < |p| && p[|p| - 1].used
    ensures var p' := MergeRight(p, k); |p'| > 0 && p'[|p'| - 1] == p[|p| - 1]
  {
    if !p[k + 1].used {
      LastSplice(p, k, k + 2, [Segment(p[k].base, p[k].size + p[k + 1].size, false)]);
    }
  }

  lemma LastCut(p: Parts, k: nat, cur: nat, end: nat)
    requires k + 1 < |p| && Inside(p[k], cur) && cur < end
    ensures var p', k' := FreeCut(p, k, cur, end), CutIndex(p, k, cur); k' + 1 < |p'| && p'[|p'| - 1] == p[|p| - 1]
  {
    LastSplice(p, k, k + 1, FreePieces(p[k], cur, end));
  }

  /** A round that frees part of another segment keeps a last segment that is in use. */
  lemma LastKept(p: Parts, k: nat, cur: nat, end: nat)
    requires k + 1 < |p| && Inside(p[k], cur) && cur < end && p[|p| - 1].used
    ensures var p' := FreeStep(p, k, cur, end); |p'| > 0 && p'[|p'| - 1] == p[|p| - 1]
  {
    hide FreeCut, CutIndex, MergeLeft, LeftIndex, MergeRight;
    var p1, k1 := FreeCut(p, k, cur, end), CutIndex(p, k, cur);
    LastCut(p, k, cur, end);
    LastMergeLeft(p1, k1);
    LastMergeRight(MergeLeft(p1, k1), LeftIndex(p1, k1));
  }

  lemma LastFree(p: Parts, lo: nat, hi: nat, q: nat, k: nat, cur: nat, end: nat)
    requires q > 0 && Tiles(p, lo, hi, q) && Coalesced(p) && k + 1 < |p| && p[k].used && !p[|p| - 1].used
    requires Inside(p[k], cur) && cur < end && OnGrid(cur, q) && OnGrid(end, q)
    ensures var p' := FreeStep(p, k, cur, end); |p'| > 0 && !p'[|p'| - 1].used
  {
    hide FreeStep, Coalesced, CoalescedBut;
    var p', x := FreeStep(p, k, cur, end), hi - 1;
    FreeStepValid(p, lo, hi, q, k, cur, end);
    FreeStepTaken(p, lo, hi, q, k, cur, end, x);
    Bounds(p, lo, hi, q, |p| - 1);
    Sorted(p, lo, hi, q, k, |p| - 1);
    TakenIn(p, lo, hi, q, |p| - 1, x);
    Bounds(p', lo, hi, q, |p'| - 1);
    TakenIn(p', lo, hi, q, |p'| - 1, x);
  }

  /** Whether the last segment is reached does not change from round to round. */
  lemma TopStep(p: Parts, lo: nat, hi: nat, q: nat, k: nat, cur: nat, end: nat)
    requires q > 0 && Tiles(p, lo, hi, q) && Coalesced(p) && k < |p| && p[k].used && hi <= TWO64
    requires Inside(p[k], cur) && cur < end && OnGrid(cur, q) && OnGrid(end, q) && End(p[k]) < TWO64
    ensures ReachesTop(p, cur, end) <==> ReachesTop(FreeStep(p, k, cur, end), Min(End(p[k]), end), end)
    ensures ReachesTop(p, cur, end) ==> End(p[k]) < end
  {
    hide FreeStep, Coalesced, CoalescedBut, Taken;
    var p', cur', s := FreeStep(p, k, cur, end), Min(End(p[k]), end), p[|p| - 1];
    FreeStepValid(p, lo, hi, q, k, cur, end);
    if k + 1 < |p| {
      Sorted(p, lo, hi, q, k, |p| - 1);
      if s.used {
        LastKept(p, k, cur, end);
        PrefixStep(p, lo, hi, q, k, cur, end, s.base);
      } else {
        LastFree(p, lo, hi, q, k, cur, end);
      }
    }
  }

  /** A round does not depend on how far beyond the segment the range goes. */
  lemma SameStep(p: Parts, k: nat, cur: nat, end: nat, end': nat)
    requires k < |p| && Inside(p[k], cur) && End(p[k]) <= end && End(p[k]) <= end'
    ensures FreeStep(p, k, cur, end) == FreeStep(p, k, cur, end')
  {
    assert FreePieces(p[k], cur, end) == FreePieces(p[k], cur, end');
  }

  /** A round on a segment that ends at 2^64 frees it to its end. */
  lemma TopRound(p: Parts, lo: nat, hi: nat, q: nat, k: nat, cur: nat, end: nat)
    requires q > 0 && Tiles(p, lo, hi, q) && k < |p| && p[k].used && hi <= TWO64
    requires Inside(p[k], cur) && cur < end && End(p[k]) == TWO64
    ensures ReachesTop(p, cur, end) && FreeParts(p, cur, TWO64) == FreeStep(p, k, cur, TWO64)
  {
    Bounds(p, lo, hi, q, |p| - 1);
    if k + 1 < |p| { Sorted(p, lo, hi, q, k, |p| - 1); }
    TakenIn(p, lo, hi, q, k, cur);
    UsedFromAt(p, lo, hi, q, cur, k);
    assert FreeParts(FreeStep(p, k, cur, TWO64), TWO64, TWO64) == FreeStep(p, k, cur, TWO64);
  }

  /** Exactly the allocated prefix of the range is freed if and only if freeing does not come to a last segment that
      ends at 2^64. */
  lemma WrapHarmlessIff(p: Parts, lo: nat, hi: nat, q: nat, cur: nat, end: nat)
    requires q > 0 && Tiles(p, lo, hi, q) && Coalesced(p) && hi <= TWO64 && TWO64 % q == 0
    requires Cursor(cur, hi, q) && OnGrid(end, q) && end < TWO64
    ensures var p' := FreeParts(p, cur, FreeLimit(p, cur, end));
            (forall x: nat :: Taken(p', x) <==> Taken(p, x) && !(cur <= x < end && AllTaken(p, cur, x)))
            <==> !ReachesTop(p, cur, end)
  {
    hide FreeParts, Taken, Coalesced, CoalescedBut;
    var p' := FreeParts(p, cur, FreeLimit(p, cur, end));
    if ReachesTop(p, cur, end) {
      var s, x := p[|p| - 1], TWO64 - 1;
      Bounds(p, lo, hi, q, |p| - 1);
      forall y: nat | cur <= y <= x
        ensures Taken(p, y)
      {
        if y >= s.base { TakenIn(p, lo, hi, q, |p| - 1, y); }
      }
      FreedPrefix(p, lo, hi, q, cur, TWO64, x);
      assert Taken(p, x) && !Taken(p', x);
    } else {
      forall x: nat
        ensures Taken(p', x) <==> Taken(p, x) && !(cur <= x < end && AllTaken(p, cur, x))
      {
        FreedPrefix(p, lo, hi, q, cur, end, x);
      }
    }
  }

  /** Where it is not harmless: freeing the first page of an arena that is one allocation up to 2^64 frees all of it. */
  lemma WrapFreesAll()
    ensures var s := Segment(4096, TWO64 - 4096, true);
            && Tiles([s], 4096, TWO64, 4096) && Coalesced([s]) && ReachesTop([s], 4096, 8192)
            && FreeParts([s], 4096, FreeLimit([s], 4096, 8192)) == [s.(used := false)]
  {
    var s := Segment(4096, TWO64 - 4096, true);
    var p := [s];
    assert p[0] == s;
    assert AllTaken(p, 4096, 4096) by { assert Inside(p[0], 4096) && p[0].used; }
    TopRound(p, 4096, TWO64, 4096, 0, 4096, 8192);
    CutAt(p, 0, 4096, TWO64);
    assert FreePieces(s, 4096, TWO64) == [s.(used := false)];
    assert FreeCut(p, 0, 4096, TWO64) == [s.(used := false)];
  }

  // ---- an allocation and its undoing ----

  /** The used piece of an allocation, with its free neighbours if it was split off. */
  lemma AllocUndone(p: Parts, lo: nat, hi: nat, q: nat, k: nat, r: nat, size: nat)
    requires q > 0 && Tiles(p, lo, hi, q) && Coalesced(p) && k < |p| && Fits(p[k], r, size, q)
    requires GrantEnd(r + size, End(p[k]), q) == r + size
    ensures FreeParts(AllocParts(p, k, r, size, q), r, r + size) == p
  {
    var s, a := p[k], AllocParts(p, k, r, size, q);
    if s.base < r { MultipleBelow(s.base, r, q); }
    AllocPartsValid(p, lo, hi, q, k, r, size);
    var i := if s.base < r then k + 1 else k;
    SpliceAt(p, k, k + 1, AllocPieces(s, r, size, q), i);
    assert a[i] == Segment(r, size, true);
    UsedFromAt(a, lo, hi, q, r, i);
    StepUndoes(p, q, k, r, size, i);
    assert FreeParts(a, r, r + size) == FreeParts(p, r + size, r + size);
  }

  function LeftPiece(s: Segment, r: nat): Parts
    requires s.base <= r
  {
    if s.base < r then [Segment(s.base, r - s.base, false)] else []
  }

  function RestPiece(s: Segment, e: nat): Parts
    requires e <= End(s)
  {
    if e < End(s) then [Segment(e, End(s) - e, false)] else []
  }

  lemma PiecesOf(s: Segment, r: nat, size: nat, q: nat)
    requires q > 0 && Fits(s, r, size, q) && GrantEnd(r + size, End(s), q) == r + size
    requires s.base < r ==> r - s.base >= q
    ensures AllocPieces(s, r, size, q) == LeftPiece(s, r) + [Segment(r, size, true)] + RestPiece(s, r + size)
  {
  }

  lemma UsedNeighbours(p: Parts, k: nat)
    requires Coalesced(p) && k < |p| && !p[k].used
    ensures p[..k] != [] ==> p[..k][k - 1].used
    ensures p[k + 1..] != [] ==> p[k + 1..][0].used
  {
  }

  lemma StepUndoes(p: Parts, q: nat, k: nat, r: nat, size: nat, i: nat)
    requires q > 0 && Coalesced(p) && k < |p| && Fits(p[k], r, size, q) && GrantEnd(r + size, End(p[k]), q) == r + size
    requires p[k].base < r ==> r - p[k].base >= q
    requires i == (if p[k].base < r then k + 1 else k)
    requires i < |AllocParts(p, k, r, size, q)| && AllocParts(p, k, r, size, q)[i] == Segment(r, size, true)
    ensures FreeStep(AllocParts(p, k, r, size, q), i, r, r + size) == p
  {
    hide Coalesced, CoalescedBut, AllocPieces, FreeCut, MergeLeft, LeftIndex, MergeRight, GrantEnd, OnGrid, CutIndex;
    var s, a := p[k], AllocParts(p, k, r, size, q);
    var before, after := p[..k], p[k + 1..];
    var left, rest, mid := LeftPiece(s, r), RestPiece(s, r + size), Segment(r, size, false);
    UsedNeighbours(p, k);
    PiecesOf(s, r, size, q);
    CutBack(before, left, mid, rest, after);
    CutAt(a, i, r, r + size);
    MergedLeft(before, left, mid, rest + after);
    MergedRight(before, Segment(s.base, r + size - s.base, false), rest, after);
    assert p == before + [s] + after;
  }

  lemma CutBack(before: Parts, left: Parts, mid: Segment, rest: Parts, after: Parts)
    requires !mid.used && mid.size > 0
    ensures var a, i := before + (left + [mid.(used := true)] + rest) + after, |before| + |left|;
            && i < |a| && a[i] == mid.(used := true)
            && CutIndex(a, i, mid.base) == i
            && FreeCut(a, i, mid.base, End(mid)) == before + left + [mid] + (rest + after)
  {
    var a, i := before + (left + [mid.(used := true)] + rest) + after, |before| + |left|;
    assert a[i] == mid.(used := true);
    assert FreePieces(a[i], mid.base, End(mid)) == [mid];
    assert a[..i] == before + left && a[i + 1..] == rest + after;
  }

  lemma MergedLeft(before: Parts, left: Parts, mid: Segment, tail: Parts)
    requires before != [] ==> before[|before| - 1].used
    requires left == [] || (|left| == 1 && !left[0].used && Adjacent(left[0], mid))
    requires !mid.used
    ensures var c, i := before + left + [mid] + tail, |before| + |left|;
            var base := if left == [] then mid.base else left[0].base;
            && i < |c| && LeftIndex(c, i) == |before|
            && MergeLeft(c, i) == before + [Segment(base, End(mid) - base, false)] + tail
  {
    var c, i := before + left + [mid] + tail, |before| + |left|;
    assert c[i] == mid;
    if left == [] {
      assert before != [] ==> c[i - 1] == before[|before| - 1];
    } else {
      assert c[i - 1] == left[0];
      assert c[..i - 1] == before && c[i + 1..] == tail;
    }
  }

  lemma MergedRight(before: Parts, mid: Segment, rest: Parts, after: Parts)
    requires after != [] ==> after[0].used
    requires rest == [] || (|rest| == 1 && !rest[0].used && Adjacent(mid, rest[0]))
    requires !mid.used
    ensures var c, i := before + [mid] + (rest + after), |before|;
            var end := if rest == [] then End(mid) else End(rest[0]);
            i < |c| && MergeRight(c, i) == before + [Segment(mid.base, end - mid.base, false)] + after
  {
    var c, i := before + [mid] + (rest + after), |before|;
    assert c[i] == mid;
    if rest == [] {
      assert after != [] ==> c[i + 1] == after[0];
    } else {
      assert c[i + 1] == rest[0];
      assert c[..i] == before && c[i + 2..] == after;
    }
  }

  /** Freeing an allocation that ends below 2^64 never comes to a segment that ends there. */
  lemma AllocBelowTop(p: Parts, lo: nat, hi: nat, q: nat, k: nat, r: nat, size: nat)
    requires q > 0 && Tiles(p, lo, hi, q) && Coalesced(p) && k < |p| && Fits(p[k], r, size, q) && hi <= TWO64
    requires GrantEnd(r + size, End(p[k]), q) == r + size < TWO64
    ensures !ReachesTop(AllocParts(p, k, r, size, q), r, r + size)
  {
    hide Coalesced, CoalescedBut, Taken, AllTaken;
    var s, a := p[k], AllocParts(p, k, r, size, q);
    if s.base < r { MultipleBelow(s.base, r, q); }
    AllocPartsValid(p, lo, hi, q, k, r, size);
    var i := if s.base < r then k + 1 else k;
    SpliceAt(p, k, k + 1, AllocPieces(s, r, size, q), i);
    assert a[i] == Segment(r, size, true);
    if i + 1 < |a| { Sorted(a, lo, hi, q, i, |a| - 1); }
  }

  lemma NotRestored(p: Parts, lo: nat, hi: nat, q: nat, k: nat, r: nat, size: nat, end: nat)
    requires q > 0 && Tiles(p, lo, hi, q) && Coalesced(p) && k < |p| && Fits(p[k], r, size, q)
    requires OnGrid(end, q) && end <= r + size && (end < r + size || GrantEnd(r + size, End(p[k]), q) != r + size)
    ensures FreeParts(AllocParts(p, k, r, size, q), r, end) != p
  {
    hide Coalesced, CoalescedBut, FreeParts, AllocParts;
    var x := if end < r + size then r + size - 1 else r + size;
    MultipleSum(r, size, q);
    AllocPartsValid(p, lo, hi, q, k, r, size);
    AllocPartsTaken(p, lo, hi, q, k, r, size, x);
    GrantInArena(p, lo, hi, q, k, r, size);
    TakenIn(p, lo, hi, q, k, x);
    FreedPrefix(AllocParts(p, k, r, size, q), lo, hi, q, r, end, x);
  }

  /** An arena with a rest smaller than the quantum does not end at 2^64. */
  lemma RaggedBelowTop(p: Parts, lo: nat, hi: nat, q: nat, k: nat, r: nat, size: nat)
    requires q > 0 && Tiles(p, lo, hi, q) && k < |p| && Fits(p[k], r, size, q) && hi <= TWO64 && TWO64 % q == 0
    requires GrantEnd(r + size, End(p[k]), q) != r + size
    ensures hi < TWO64
  {
    GrantInArena(p, lo, hi, q, k, r, size);
    MultipleSum(r, size, q);
    if hi == TWO64 { MultipleBelow(r + size, TWO64, q); }
  }

  /** Freeing what was just allocated brings back the segments as they were, exactly when the allocation did not
      swallow a rest of the arena smaller than the quantum and ends below 2^64. */
  lemma AllocFreeRestores(p: Parts, lo: nat, hi: nat, q: nat, k: nat, r: nat, size: nat)
    requires q > 0 && Tiles(p, lo, hi, q) && Coalesced(p) && k < |p| && Fits(p[k], r, size, q)
    requires hi <= TWO64 && TWO64 % q == 0
    ensures var p', end := AllocParts(p, k, r, size, q), (r + size) % TWO64;
            FreeParts(p', r, FreeLimit(p', r, end)) == p <==> GrantEnd(r + size, End(p[k]), q) == r + size < TWO64
  {
    hide FreeParts, AllocParts, Coalesced, CoalescedBut;
    Bounds(p, lo, hi, q, k);
    MultipleSum(r, size, q);
    WordEnd(r + size);
    if r + size == TWO64 {
      NotRestored(p, lo, hi, q, k, r, size, 0);
    } else if GrantEnd(r + size, End(p[k]), q) == r + size {
      AllocBelowTop(p, lo, hi, q, k, r, size);
      AllocUndone(p, lo, hi, q, k, r, size);
    } else {
      NotRestored(p, lo, hi, q, k, r, size, r + size);
      RaggedBelowTop(p, lo, hi, q, k, r, size);
      AllocPartsValid(p, lo, hi, q, k, r, size);
    }
  }

  // ---- the stages of an allocation ----

  ghost predicate CutsFront(s: Segment, r: nat, q: nat) { s.base != r && r - s.base >= q }

  /** The free segment `k` with its bytes before `r` split off, if they are a quantum or more. */
  ghost function FrontSplit(p: Parts, k: nat, r: nat, q: nat): Parts
    requires k < |p| && p[k].base <= r <= End(p[k])
  {
    var s := p[k];
    if CutsFront(s, r, q) then
      Splice(p, k, k + 1, [Segment(s.base, r - s.base, false), Segment(r, End(s) - r, s.used)])
    else
      p
  }

  ghost function FrontIndex(p: Parts, k: nat, r: nat, q: nat): nat
    requires k < |p|
  {
    if CutsFront(p[k], r, q) then k + 1 else k
  }

  /** A free segment with its first `len` bytes put in use. */
  function TakenPieces(s: Segment, len: nat, q: nat): Parts
    requires len <= s.size
  {
    if s.size != len && s.size - len >= q then [Segment(s.base, len, true), Segment(s.base + len, s.size - len, false)]
    else [Segment(s.base, s.size, true)]
  }

  /** Splitting off the front and taking the front of the rest is the allocation. */
  lemma AllocStages(p: Parts, k: nat, r: nat, size: nat, q: nat)
    requires k < |p| && p[k].base <= r && r + size <= End(p[k]) && !p[k].used
    ensures var p', k' := FrontSplit(p, k, r, q), FrontIndex(p, k, r, q);
            && k' < |p'| && !p'[k'].used && End(p'[k']) == End(p[k]) && size <= p'[k'].size
            && p'[k'].base == (if CutsFront(p[k], r, q) then r else p[k].base)
            && Splice(p', k', k' + 1, TakenPieces(p'[k'], size, q)) == AllocParts(p, k, r, size, q)
  {
    hide AllocPieces, TakenPieces, Splice;
    var s := p[k];
    StagedPieces(s, r, size, q);
    if CutsFront(s, r, q) {
      var left, t := Segment(s.base, r - s.base, false), Segment(r, End(s) - r, false);
      SpliceTwice(p, k, left, t, TakenPieces(t, size, q));
    }
  }

  lemma StagedPieces(s: Segment, r: nat, size: nat, q: nat)
    requires s.base <= r && r + size <= End(s)
    ensures AllocPieces(s, r, size, q) ==
            if CutsFront(s, r, q) then
              [Segment(s.base, r - s.base, false)] + TakenPieces(Segment(r, End(s) - r, false), size, q)
            else TakenPieces(s, size, q)
  {
  }

  lemma SpliceTwice(p: Parts, k: nat, left: Segment, t: Segment, pieces: Parts)
    requires k < |p|
    ensures var p' := Splice(p, k, k + 1, [left, t]);
            && k + 1 < |p'| && p'[k + 1] == t
            && Splice(p', k + 1, k + 2, pieces) == Splice(p, k, k + 1, [left] + pieces)
  {
    var p' := Splice(p, k, k + 1, [left, t]);
    assert p'[..k + 1] == p[..k] + [left];
    assert p'[k + 2..] == p[k + 1..];
  }

  // ---- the stages of a free ----

  /** The used segment `k` with its bytes before `cur` split off. */
  ghost function FrontKept(p: Parts, k: nat, cur: nat): Parts
    requires k < |p| && p[k].base <= cur <= End(p[k])
  {
    var s := p[k];
    if s.base < cur then
      Splice(p, k, k + 1, [Segment(s.base, cur - s.base, true), Segment(cur, End(s) - cur, true)])
    else
      p
  }

  /** The used segment `k` with its bytes from `end` on split off. */
  ghost function BackKept(p: Parts, k: nat, end: nat): Parts
    requires k < |p| && p[k].base <= end
  {
    var s := p[k];
    if End(s) > end then
      Splice(p, k, k + 1, [Segment(s.base, end - s.base, true), Segment(end, End(s) - end, true)])
    else
      p
  }

  lemma FrontStage(p: Parts, k: nat, cur: nat)
    requires k < |p| && p[k].used && Inside(p[k], cur)
    ensures var a, t := p[..k] + KeptFront(p[k], cur), Segment(cur, End(p[k]) - cur, true);
            |a| == CutIndex(p, k, cur) && FrontKept(p, k, cur) == a + [t] + p[k + 1..]
  {
  }

  function KeptFront(s: Segment, cur: nat): Parts {
    if s.base < cur then [Segment(s.base, cur - s.base, true)] else []
  }

  lemma CutShape(p: Parts, k: nat, cur: nat, end: nat)
    requires k < |p| && p[k].used && Inside(p[k], cur) && cur < end
    ensures var t := Segment(cur, End(p[k]) - cur, true);
            FreeCut(p, k, cur, end) == (p[..k] + KeptFront(p[k], cur)) + FreePieces(t, cur, end) + p[k + 1..]
  {
    var t := Segment(cur, End(p[k]) - cur, true);
    assert FreePieces(p[k], cur, end) == KeptFront(p[k], cur) + FreePieces(t, cur, end);
  }

  lemma BackStage(a: Parts, t: Segment, b: Parts, end: nat)
    requires t.used && t.base < end && t.size > 0
    ensures var p := a + [t] + b;
            && p[|a|] == t
            && var p2 := BackKept(p, |a|, end);
               && |a| < |p2| && p2[|a|] == Segment(t.base, Min(End(t), end) - t.base, true)
               && Splice(p2, |a|, |a| + 1, [p2[|a|].(used := false)]) == a + FreePieces(t, t.base, end) + b
  {
    SpliceMiddle(a, t, b);
    if End(t) > end {
      var front, right := Segment(t.base, end - t.base, true), Segment(end, End(t) - end, true);
      assert a + [front, right] + b == a + [front] + ([right] + b);
      SpliceMiddle(a, front, [right] + b);
      assert a + [front.(used := false)] + ([right] + b) == a + FreePieces(t, t.base, end) + b;
    }
  }

  lemma SpliceMiddle(a: Parts, t: Segment, b: Parts)
    ensures var p := a + [t] + b;
            p[|a|] == t && forall mid: Parts :: Splice(p, |a|, |a| + 1, mid) == a + mid + b
  {
    var p := a + [t] + b;
    assert p[..|a|] == a && p[|a| + 1..] == b;
  }

  /** Keeping front and back and freeing what is left is the cut. */
  lemma FreeStages(p: Parts, k: nat, cur: nat, end: nat)
    requires k < |p| && p[k].used && Inside(p[k], cur) && cur < end
    ensures var p1, k1 := FrontKept(p, k, cur), CutIndex(p, k, cur);
            && k1 < |p1| && p1[k1] == Segment(cur, End(p[k]) - cur, true)
            && var p2 := BackKept(p1, k1, end);
               && k1 < |p2| && p2[k1] == Segment(cur, Min(End(p[k]), end) - cur, true)
               && Splice(p2, k1, k1 + 1, [p2[k1].(used := false)]) == FreeCut(p, k, cur, end)
  {
    hide FrontKept, BackKept, CutIndex, FreeCut, FreePieces, Splice, KeptFront;
    FrontStage(p, k, cur);
    CutShape(p, k, cur, end);
    BackStage(p[..k] + KeptFront(p[k], cur), Segment(cur, End(p[k]) - cur, true), p[k + 1..], end);
  }
}
