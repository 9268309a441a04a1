/** Which free segments an allocation request accepts, and why the bucket search finds one if there is one. */
module VmemFit {
  import opened Bits
  import opened VmemParts
  import opened VmemViews

  function Max(a: nat, b: nat): nat { if a > b then a else b }

  /** The free segment `s` can hold the request; address 0 means anywhere. */
  predicate CanHold(s: Segment, size: nat, addr: nat) {
    if addr == 0 then s.size >= size else s.base <= addr && addr + size <= End(s)
  }

  /** The segment is taken for one that can hold a request at the lower address `addr`, because it ends at 2^64, where
      the end of the request wraps to 0. */
  predicate Overruns(s: Segment, size: nat, addr: nat) {
    addr != 0 && addr < s.base && s.size == size && End(s) == TWO64
  }

  /** The search stops at the free segment `s`. */
  predicate Hits(s: Segment, size: nat, addr: nat) { CanHold(s, size, addr) || Overruns(s, size, addr) }

  /** Where the search says that the request starts in the segment it stops at. */
  function StartOf(s: Segment, size: nat, addr: nat): nat {
    if addr == 0 || Overruns(s, size, addr) then s.base else addr
  }

  function StartIn(s: Segment, min: nat, q: nat): nat
    requires q > 0
  {
    AlignUp(Max(min, s.base), q)
  }

  /** The test of the search loops, in 64-bit arithmetic. */
  predicate Accepted(s: Segment, size: nat, min: nat, max: nat, q: nat)
    requires q > 0
  {
    var start := StartIn(s, min, q);
    && s.size >= size
    && start - s.base <= s.size - size
    && (max == UINT64_MAX || (start + size) % TWO64 <= max)
  }

  function MinFor(addr: nat, q: nat): nat
    requires q > 0
  {
    AlignUp(addr, q)
  }

  function MaxFor(size: nat, addr: nat, q: nat): nat
    requires q > 0
  {
    if addr != 0 then AlignUp((addr + size) % TWO64, q) else UINT64_MAX
  }

  /** The 64-bit test accepts exactly the segments that can hold the request, starting it where it belongs, and a
      segment that it overruns, starting at the base of that. */
  lemma AcceptedIff(s: Segment, size: nat, addr: nat, q: nat)
    requires 0 < q && TWO64 % q == 0 && OnGrid(s.base, q) && OnGrid(addr, q) && OnGrid(size, q)
    requires addr < TWO64 && size < TWO64 && 0 < s.size && End(s) <= TWO64
    ensures Accepted(s, size, MinFor(addr, q), MaxFor(size, addr, q), q) <==> Hits(s, size, addr)
    ensures Hits(s, size, addr) ==> StartIn(s, MinFor(addr, q), q) == StartOf(s, size, addr)
  {
    var start := Max(addr, s.base);
    AlignUpAligned(addr, q);
    AlignUpAligned(start, q);
    if s.size >= size && start - s.base <= s.size - size {
      assert addr + size <= start + size <= TWO64;
      MultipleSum(addr, size, q);
      if start + size < TWO64 {
        NoWrap(start + size, TWO64);
        NoWrap(addr + size, TWO64);
        AlignUpAligned(addr + size, q);
      } else if addr + size < TWO64 {
        assert (start + size) % TWO64 == 0;
      } else {
        assert (addr + size) % TWO64 == 0;
        AlignUpAligned(0, q);
      }
    }
  }

  /** A segment two buckets below the request's is too small. */
  lemma BucketTooSmall(have: nat, size: nat)
    requires 0 < have && Log2(have) + 1 < Log2Ceil(size)
    ensures have < size
  {
    Log2Bounds(have);
    Log2CeilBounds(size);
    Pow2Mono(Log2(have) + 1, Log2Ceil(size) - 1);
  }

  /** The search passes over all segments filed under `b`. */
  ghost predicate NoneIn(segs: map<Id, Segment>, free: seq<seq<Id>>, b: nat, size: nat, addr: nat)
    requires b < |free|
  {
    forall id | id in free[b] :: id in segs && !Hits(segs[id], size, addr)
  }

  ghost predicate NoneAnywhere(segs: map<Id, Segment>, size: nat, addr: nat) {
    forall id | id in segs && !segs[id].used :: !Hits(segs[id], size, addr)
  }

  /** Where the search for `size` bytes starts. */
  function LowBucket(size: nat): nat { if Log2Ceil(size) < 63 then Log2Ceil(size) else 63 }

  /** The first segment of freelist `b` at which the search stops is that at place `i`. */
  ghost predicate HitAt(segs: map<Id, Segment>, free: seq<seq<Id>>, size: nat, addr: nat, b: nat, i: nat) {
    && b < |free| && i < |free[b]| && free[b][i] in segs && Hits(segs[free[b][i]], size, addr)
    && (forall j | 0 <= j < i :: free[b][j] in segs && !Hits(segs[free[b][j]], size, addr))
  }

  /** The search stops at place `i` of freelist `b`: it goes through the freelists from that of `size` on, and then
      through the one below. */
  ghost predicate FirstHit(segs: map<Id, Segment>, free: seq<seq<Id>>, size: nat, addr: nat, b: nat, i: nat) {
    && HitAt(segs, free, size, addr, b, i) && |free| == BUCKETS && LowBucket(size) <= b + 1
    && (forall c: nat | LowBucket(size) <= c < (if LowBucket(size) <= b then b else BUCKETS) ::
          NoneIn(segs, free, c, size, addr))
  }

  lemma OneFirstHit(segs: map<Id, Segment>, free: seq<seq<Id>>, size: nat, addr: nat, b: nat, i: nat, b': nat, i': nat)
    requires FirstHit(segs, free, size, addr, b, i) && FirstHit(segs, free, size, addr, b', i')
    ensures b == b' && i == i'
  {
    hide Hits;
    assert free[b][i] in free[b] && free[b'][i'] in free[b'];
    assert !NoneIn(segs, free, b, size, addr) && !NoneIn(segs, free, b', size, addr);
  }

  /** The search is led to a segment above the address asked for. */
  ghost predicate Misled(segs: map<Id, Segment>, free: seq<seq<Id>>, size: nat, addr: nat) {
    exists b: nat, i: nat :: FirstHit(segs, free, size, addr, b, i) && Overruns(segs[free[b][i]], size, addr)
  }

  /** Where a search is misled: with the last page below 2^64 as the only free segment, a request for a page at 8192 is
      led to it. */
  lemma TopMisleads(segs: map<Id, Segment>, free: seq<seq<Id>>)
    requires segs == map[1 := Segment(4096, TWO64 - 8192, true), 2 := Segment(TWO64 - 4096, 4096, false)]
    requires |free| == BUCKETS && forall b | 0 <= b < BUCKETS :: free[b] == if b == 12 then [2] else []
    ensures Misled(segs, free, 4096, 8192)
  {
    PageBucket();
    hide Log2Ceil;
    assert HitAt(segs, free, 4096, 8192, 12, 0);
    assert FirstHit(segs, free, 4096, 8192, 12, 0);
  }

  lemma PageBucket()
    ensures Log2Ceil(4096) == Log2(4096) == 12
  {
    assert Pow2(11) == 2048 && Pow2(12) == 4096 && Pow2(13) == 8192 by { assert Pow2(5) == 32; assert Pow2(8) == 256; }
    Log2Unique(4095, 11);
    Log2Unique(4096, 12);
  }

  /** The segment at which a search for no bytes at `addr` stops has less than a quantum left there. */
  ghost predicate SwallowsRest(segs: map<Id, Segment>, free: seq<seq<Id>>, addr: nat, q: nat) {
    exists b: nat, i: nat ::
      && FirstHit(segs, free, 0, addr, b, i)
      && var s := segs[free[b][i]]; 0 < End(s) - StartOf(s, 0, addr) < q
  }

  lemma SwallowsRestIff(segs: map<Id, Segment>, free: seq<seq<Id>>, addr: nat, q: nat, b: nat, i: nat)
    requires FirstHit(segs, free, 0, addr, b, i)
    ensures var s := segs[free[b][i]]; SwallowsRest(segs, free, addr, q) <==> 0 < End(s) - StartOf(s, 0, addr) < q
  {
    hide Hits, StartOf, NoneIn;
    if SwallowsRest(segs, free, addr, q) {
      var b': nat, i': nat :| FirstHit(segs, free, 0, addr, b', i')
                              && 0 < End(segs[free[b'][i']]) - StartOf(segs[free[b'][i']], 0, addr) < q;
      OneFirstHit(segs, free, 0, addr, b, i, b', i');
    }
  }

  /** Searching the buckets from that of `size` on, and the one below, is enough. */
  lemma SearchComplete(segs: map<Id, Segment>, free: seq<seq<Id>>, bitmap: set<nat>, tree: set<Id>, size: nat,
                       addr: nat, index: nat)
    requires Filed(segs, free, bitmap, tree, NULL) && NULL !in segs && index == LowBucket(size)
    requires forall id | id in segs :: 0 < segs[id].size < TWO64
    requires forall b: nat | index <= b + 1 && b < BUCKETS :: NoneIn(segs, free, b, size, addr)
    ensures NoneAnywhere(segs, size, addr)
  {
    forall id | id in segs && !segs[id].used
      ensures !Hits(segs[id], size, addr)
    {
      var b := Log2(segs[id].size);
      Log2Small(segs[id].size);
      assert Placed(segs, free, tree, NULL, id);
      if index <= b + 1 {
        assert NoneIn(segs, free, b, size, addr);
      } else {
        BucketTooSmall(segs[id].size, size);
      }
    }
  }
}
