/** The range allocator: segments kept in an address-ordered list, power-of-two freelists with a bitmap, and a tree. */
module VmemAllocator {
  import opened Bits
  import opened Lists
  import opened VmemParts
  import opened VmemFree
  import opened VmemViews
  import opened VmemFit
  import opened RedBlackTree
  import RbMemory

  class Vmem {
    const base: nat
    const size: nat
    const quantum: nat
    var segs: map<Id, Segment>
    var list: seq<Id>
    var freelists: seq<seq<Id>>
    var bitmap: set<nat>
    /** The segments in use, by their bases. */
    const tree: RbTree
    ghost var members: set<Id>

    /** The arena starts above 0 on the grid, ends at 2^64 or below, and the quantum is a power of two. */
    ghost predicate Arena() {
      && 0 < quantum < TWO64 && TWO64 % quantum == 0
      && 0 < base && OnGrid(base, quantum) && 0 < size && base + size <= TWO64
    }

    /** The views agree on the segments `p`, but for the one that an operation holds. */
    ghost predicate Agree(p: Parts, held: Id)
      reads this, tree
    {
      && Arena() && NULL !in segs && Listed(list, segs) && Values(list, segs) == p
      && Filed(segs, freelists, bitmap, members, held) && Treed()
    }

    /** The linked tree holds the nodes of `members`, each under the base of its segment. */
    ghost predicate Treed()
      reads this`segs, this`members, tree
    {
      tree.Valid() && Keyed(segs, members, tree.Contents(), tree.valueOfNode, tree.mem)
    }

    ghost predicate Whole(p: Parts)
    {
      Arena() && Tiles(p, base, base + size, quantum) && Coalesced(p)
    }

    ghost predicate Valid()
      reads this, tree
    {
      Agree(Values(list, segs), NULL) && Whole(Values(list, segs))
    }

    /** The segments of the arena in address order. */
    ghost function Segments(): Parts
      reads this
    {
      Values(list, segs)
    }

    // ---- freelists ----

    method FlistAdd(seg: Id, index: nat)
      requires index < |freelists|
      modifies this`freelists, this`bitmap
      ensures freelists == Added(old(freelists), index, seg) && bitmap == old(bitmap) + {index}
    {
      freelists := freelists[index := [seg] + freelists[index]];
      bitmap := bitmap + {index};
    }

    method FlistDel(seg: Id, index: nat)
      requires index < |freelists| && seg in freelists[index]
      modifies this`freelists, this`bitmap
      ensures freelists == Deleted(old(freelists), index, seg)
      ensures bitmap == if freelists[index] == [] then old(bitmap) - {index} else old(bitmap)
    {
      freelists := freelists[index := Without(freelists[index], seg)];
      if freelists[index] == [] {
        bitmap := bitmap - {index};
      }
    }

    // ---- segment records and the tree ----

    /** A zeroed segment record from the slab allocator. */
    method NewSegment() returns (n: Id)
      requires Treed()
      modifies tree`mem
      ensures Treed() && n !in segs && n != NULL && n !in members && RbMemory.IsNode(tree.mem, n)
    {
      hide RbTree.Valid, RbTree.Contents;
      NotANode(this);
      n := tree.NewNode();
      KeyedGrows(segs, members, tree.Contents(), tree.valueOfNode, old(tree.mem), tree.mem);
    }

    /** Changes the record of a segment that is not in the tree. */
    method SetSegment(id: Id, s: Segment)
      requires Treed() && id !in members && (id in segs || RbMemory.IsNode(tree.mem, id))
      modifies this`segs
      ensures Treed() && segs == old(segs)[id := s]
    {
      hide RbTree.Valid, RbTree.Contents;
      KeyedSet(segs, members, tree.Contents(), tree.valueOfNode, tree.mem, id, s);
      segs := segs[id := s];
    }

    /** Gives the record of a segment that is not in the tree back. */
    method DropSegment(id: Id)
      requires Treed() && id !in members
      modifies this`segs
      ensures Treed() && segs == old(segs) - {id}
    {
      hide RbTree.Valid, RbTree.Contents;
      KeyedDrop(segs, members, tree.Contents(), tree.valueOfNode, tree.mem, id);
      segs := segs - {id};
    }

    /** Puts the node of a segment into the tree, under the base that the segment has by now. */
    method TreeInsert(id: Id)
      requires Treed() && id in segs && id !in members
      modifies tree, this`members
      ensures Treed() && members == old(members) + {id} && tree.mem.Keys == old(tree.mem).Keys
    {
      hide RbTree.Valid, RbTree.Contents;
      NotContained(this, id);
      tree.Rekey(id, segs[id].base);
      ghost var before := tree.Contents();
      var _ := tree.Insert(id);
      members := members + {id};
      KeyedAdd(segs, old(members), before, tree.Contents(), old(tree.valueOfNode), tree.valueOfNode, old(tree.mem),
               tree.mem, id);
    }

    /** Takes the node of a segment out of the tree. */
    method TreeRemove(id: Id)
      requires Treed() && id in members
      modifies tree, this`members
      ensures Treed() && members == old(members) - {id} && tree.mem.Keys == old(tree.mem).Keys
    {
      hide RbTree.Valid, RbTree.Contents;
      Contained(this, id);
      tree.MembersOnce();
      ghost var before := tree.Contents();
      var _ := tree.Remove(id);
      members := members - {id};
      KeyedCut(segs, old(members), before, tree.Contents(), tree.valueOfNode, old(tree.mem), tree.mem, id);
    }

    /** Creates an allocator whose arena is one free segment. */
    constructor (base: nat, size: nat, quantum: nat)
      requires 0 < quantum < TWO64 && TWO64 % quantum == 0
      requires 0 < base && base % quantum == 0 && 0 < size && base + size <= TWO64
      ensures Valid() && this.base == base && this.size == size && this.quantum == quantum
      ensures Segments() == [Segment(base, size, false)] && fresh(tree)
    {
      hide RbTree.Valid, RbTree.Contents, Keyed, Filed, Log2;
      this.base, this.size, this.quantum := base, size, quantum;
      segs, list, bitmap, members := map[], [], {}, {};
      freelists := seq(BUCKETS, _ => []);
      tree := new RbTree(_ => 0, map[]);
      new;
      NothingKeyed(tree.valueOfNode, tree.mem);
      var seg := NewSegment();
      NothingFiled(segs, freelists, bitmap, members);
      FileFree(segs, freelists, bitmap, members, NULL, seg, Segment(base, size, false));
      SetSegment(seg, Segment(base, size, false));
      list := [seg];
      FlistAdd(seg, Log2(size));
      Value(seg, segs);
    }

    /** The allocation of `bytes` for a request at `addr` was cut at `r` out of the free segment `k`. */
    ghost predicate Granted(p: Parts, p': Parts, bytes: nat, addr: nat, r: nat, k: nat)
      requires quantum > 0
    {
      && (addr == 0 || r == addr)
      && k < |p| && Within(p[k], r, bytes, quantum) && p' == AllocParts(p, k, r, bytes, quantum)
    }

    /** The segment `k` is the first at which the search stops, and `r` is where it says that the request starts. */
    ghost predicate CutFirst(list: seq<Id>, segs: map<Id, Segment>, free: seq<seq<Id>>, bytes: nat, addr: nat, r: nat,
                             k: nat)
    {
      exists b: nat, i: nat ::
        && FirstHit(segs, free, bytes, addr, b, i)
        && k < |list| && list[k] == free[b][i] && r == StartOf(segs[free[b][i]], bytes, addr)
    }

    // ---- searching for room ----

    /** First fit in one freelist, at its place `i`. */
    method ScanBucket(b: nat, size: nat, addr: nat) returns (seg: Id, start: nat, ghost i: nat)
      requires Valid() && b < BUCKETS && addr < TWO64 && size < TWO64 && OnGrid(addr, quantum) && OnGrid(size, quantum)
      ensures seg == NULL ==> NoneIn(segs, freelists, b, size, addr)
      ensures seg != NULL ==> HitAt(segs, freelists, size, addr, b, i) && freelists[b][i] == seg
      ensures seg != NULL ==> start == StartOf(segs[seg], size, addr)
    {
      hide *;
      BucketFacts(this, b);
      var min, max := AlignUp(addr, quantum), if addr != 0 then AlignUp((addr + size) % TWO64, quantum) else UINT64_MAX;
      Limits(size, addr, quantum);
      var at := 0;
      while at < |freelists[b]|
        invariant 0 <= at <= |freelists[b]|
        invariant forall j | 0 <= j < at :: freelists[b][j] in segs && !Hits(segs[freelists[b][j]], size, addr)
      {
        var id := freelists[b][at];
        assert id in freelists[b];
        AcceptedIff(segs[id], size, addr, quantum);
        if Accepted(segs[id], size, min, max, quantum) {
          FoundAt(segs, freelists, size, addr, b, at);
          return id, StartIn(segs[id], min, quantum), at;
        }
        at := at + 1;
      }
      NoneFound(segs, freelists, b, size, addr);
      return NULL, 0, 0;
    }

    /** Searches the freelists from that of `size` upwards, then the one below. */
    method FitAlloc(size: nat, addr: nat) returns (seg: Id, start: nat, index: int, ghost at: nat)
      requires Valid() && addr < TWO64 && size < TWO64 && OnGrid(addr, quantum) && OnGrid(size, quantum)
      ensures seg == NULL ==> NoneAnywhere(segs, size, addr)
      ensures seg != NULL ==> index >= 0 && FirstHit(segs, freelists, size, addr, index, at)
                              && freelists[index][at] == seg
      ensures seg != NULL ==> seg in segs && !segs[seg].used && index == Log2(segs[seg].size)
                              && Hits(segs[seg], size, addr) && start == StartOf(segs[seg], size, addr)
    {
      hide *;
      var low := LowBucket(size);
      LowBucketSmall(size);
      var i := low;
      BucketCount(this);
      while i < BUCKETS && i !in bitmap
        invariant low <= i <= BUCKETS
        invariant forall b: nat | low <= b < i :: NoneIn(segs, freelists, b, size, addr)
      {
        EmptyBucket(this, i, size, addr);
        i := i + 1;
      }
      while i < BUCKETS
        invariant low <= i <= BUCKETS
        invariant forall b: nat | low <= b < i :: NoneIn(segs, freelists, b, size, addr)
      {
        seg, start, at := ScanBucket(i, size, addr);
        if seg != NULL {
          FirstHitIn(segs, freelists, size, addr, i, at);
          FiledIn(this, i, seg);
          return seg, start, i, at;
        }
        i := i + 1;
      }
      if low == 0 {
        Complete(this, size, addr, low);
        return NULL, 0, -1, 0;
      }
      seg, start, at := ScanBucket(low - 1, size, addr);
      if seg != NULL {
        FirstHitIn(segs, freelists, size, addr, low - 1, at);
        FiledIn(this, low - 1, seg);
        return seg, start, low - 1, at;
      }
      Complete(this, size, addr, low);
      return NULL, 0, -1, 0;
    }

    // ---- allocating ----

    /** Splits a free rest off the front of the held free segment at `k`, which then starts at `r`. */
    method SplitFront(seg: Id, r: nat, ghost k: nat, ghost p: Parts)
      requires Agree(p, seg) && k < |list| && list[k] == seg && 0 < p[k].base <= r <= End(p[k]) <= TWO64
      modifies this, tree
      ensures Agree(FrontSplit(p, k, r, quantum), seg)
      ensures var k' := FrontIndex(p, k, r, quantum); k' < |list| && list[k'] == seg
    {
      hide Treed, Listed, Values, Filed, Splice, Log2, InsertAt, Added;
      HeldOut(this, p, k);
      InSegs(list, segs, k);
      var s := segs[seg];
      if s.base != r && r - s.base >= quantum {
        var n := NewSegment();
        var left := Segment(s.base, r - s.base, false);
        var rest := Segment(r, s.size - left.size, s.used);
        PartsInsertBefore(list, segs, k, rest, n, left);
        FileFree(segs, freelists, bitmap, members, seg, n, left);
        HeldChanges(segs[n := left], Added(freelists, Log2(left.size), n), bitmap + {Log2(left.size)}, members, seg,
                    rest);
        Position(list, segs, k);
        SetSegment(n, left);
        list := InsertAt(list, IndexOf(list, seg), n);
        FlistAdd(n, Log2(left.size));
        SetSegment(seg, rest);
      }
    }

    /** Puts the first `len` bytes of the held free segment at `k` in use, splitting off a free rest. */
    method TakeFront(seg: Id, len: nat, ghost k: nat, ghost p: Parts) returns (r: nat)
      requires Agree(p, seg) && k < |list| && list[k] == seg && !p[k].used && len <= p[k].size
      requires 0 < p[k].base && End(p[k]) <= TWO64
      modifies this, tree
      ensures r == p[k].base
      ensures Agree(Splice(p, k, k + 1, TakenPieces(p[k], len, quantum)), NULL)
    {
      hide Treed, Listed, Values, Filed, Splice, Log2, InsertAt, Added;
      HeldOut(this, p, k);
      InSegs(list, segs, k);
      var s := segs[seg];
      HeldInSegs(list, segs, k);
      if s.size != len && s.size - len >= quantum {
        var n := NewSegment();
        var front := Segment(s.base, len, true);
        var rest := Segment(s.base + len, s.size - len, false);
        PartsInsertBefore(list, segs, k, rest, n, front);
        FileUsed(segs, freelists, bitmap, members, seg, n, front);
        FileFree(segs[n := front], freelists, bitmap, members + {n}, seg, seg, rest);
        Position(list, segs, k);
        SetSegment(n, front);
        SetSegment(seg, rest);
        list := InsertAt(list, IndexOf(list, seg), n);
        FlistAdd(seg, Log2(rest.size));
        TreeInsert(n);
        return front.base;
      }
      var whole := s.(used := true);
      PartsChange(list, segs, k, whole);
      FileUsed(segs, freelists, bitmap, members, seg, seg, whole);
      SetSegment(seg, whole);
      TreeInsert(seg);
      return whole.base;
    }

    /** Cuts the allocation of `bytes` at `start` out of the free segment at `k`. */
    method Carve(seg: Id, index: nat, start: nat, bytes: nat, ghost k: nat, ghost p: Parts) returns (r: nat)
      requires Agree(p, NULL) && k < |list| == |p| && list[k] == seg && seg in segs && p[k] == segs[seg]
      requires !p[k].used && 0 < p[k].base <= start && start + bytes <= End(p[k]) <= TWO64
      requires index == Log2(p[k].size) && index < |freelists| && seg in freelists[index]
      modifies this, tree
      ensures Agree(AllocParts(p, k, start, bytes, quantum), NULL)
      ensures (p[k].base != start ==> start - p[k].base >= quantum) ==> r == start
    {
      hide Treed, Listed, Values, Filed, Splice, Log2, AllocParts, Deleted, FrontSplit, TakenPieces;
      Unfile(segs, freelists, bitmap, members, NULL, seg);
      FlistDel(seg, index);
      AllocStages(p, k, start, bytes, quantum);
      SplitFront(seg, start, k, p);
      r := TakeFront(seg, bytes, FrontIndex(p, k, start, quantum), FrontSplit(p, k, start, quantum));
    }

    /** Allocates `request` bytes, rounded up to the quantum, at `addr` or, for 0, anywhere; 0 if there is no room.
        `ok` says that the assertion on the address found holds: it fails exactly if the search is misled, which needs
        an arena that ends at 2^64. `k` is the free segment the allocation was cut from, which is the first at which the
        search stops. A request that rounds to 0 leaves the segments in order only where less than a quantum is left
        of that segment. */
    method Alloc(request: nat, addr: nat) returns (ok: bool, r: nat, ghost k: nat)
      requires Valid() && request < TWO64 && addr < TWO64
      modifies this, tree
      ensures !ok <==> addr % quantum == 0 && Misled(old(segs), old(freelists), AlignUp(request, quantum), addr)
      ensures base + size < TWO64 ==> ok
      ensures r == 0 ==> unchanged(this) && unchanged(tree) && Valid()
      ensures !ok ==> r == 0
      ensures r != 0 ==> Granted(old(Segments()), Segments(), AlignUp(request, quantum), addr, r, k)
      ensures r != 0 ==> CutFirst(old(list), old(segs), old(freelists), AlignUp(request, quantum), addr, r, k)
      ensures Agree(Segments(), NULL)
      ensures var bytes, p := AlignUp(request, quantum), old(Segments());
              bytes > 0 && ok ==>
                && Valid() && (r != 0 <==> addr % quantum == 0 && Available(p, base, base + size, addr, bytes))
                && (r != 0 ==> FreeRun(p, base, base + size, r, bytes)
                               && AddsTaken(p, Segments(), r, GrantEnd(r + bytes, base + size, quantum)))
      ensures var bytes, p := AlignUp(request, quantum), old(Segments());
              bytes == 0 && ok ==>
                && (r != 0 <==> addr % quantum == 0 && EmptyRoom(p, addr))
                && (r != 0 ==> (Valid() <==> SwallowsRest(old(segs), old(freelists), addr, quantum)))
    {
      hide Treed, Tiles, Coalesced, Listed, Values, Filed, Log2, AlignUp, FreeRun, Taken, CanHold, NoneAnywhere;
      hide Hits, FirstHit, AllocParts, GrantEnd, Available, AddsTaken, Arena, OnGrid, Misled, Overruns, EmptyRoom;
      hide StartOf, SwallowsRest;
      RequestFacts(this, request);
      var bytes := AlignUp(request, quantum);
      ghost var p := Segments();
      if addr % quantum != 0 {
        return true, 0, 0;
      }
      AddrOnGrid(addr, quantum);
      ghost var at;
      var seg, start, index;
      seg, start, index, at := FitAlloc(bytes, addr);
      if seg == NULL {
        NotMisled(this, bytes, addr);
        NoRoom(this, bytes, addr);
        return true, 0, 0;
      }
      MisledIff(this, bytes, addr, index, at);
      if bytes == 0 { SwallowsRestIff(segs, freelists, addr, quantum, index, at); }
      if addr != 0 && start != addr {
        return false, 0, 0;
      }
      k := Chosen(this, seg, bytes, addr, start);
      r := Carve(seg, index, start, bytes, k, p);
      if bytes > 0 {
        AllocDone(p, base, base + size, quantum, k, start, bytes);
      } else {
        EmptyRequest(p, base, base + size, quantum, k, start);
      }
      return true, r, k;
    }

    // ---- looking up ----

    /** The segment in use that holds `addr`, null if there is none: what a scan of the whole list would find. */
    method FindSegment(addr: nat) returns (r: Id)
      requires Valid()
      ensures r == NULL <==> !Taken(Segments(), addr)
      ensures r != NULL ==> r in segs && segs[r].used && Inside(segs[r], addr)
    {
      hide RbTree.Valid, RbTree.Contents, Keyed, Listed, Values, Filed, Tiles, Coalesced, Taken;
      TreeFacts(this);
      var node := tree.SearchLesserEqual(addr);
      FloorFound(this, addr, node);
      LookupRight(this, addr, node);
      if node == NULL {
        return NULL;
      }
      if addr < segs[node].base || addr - segs[node].base >= segs[node].size {
        return NULL;
      }
      return node;
    }

    // ---- freeing ----

    /** Leaves the bytes of the held segment before `cur` in use. */
    method KeepFront(seg: Id, cur: nat, ghost k: nat, ghost p: Parts)
      requires Agree(p, seg) && k < |list| == |p| && list[k] == seg && p[k].used && p[k].base <= cur < End(p[k])
      modifies this, tree
      ensures Agree(FrontKept(p, k, cur), seg)
      ensures var k' := CutIndex(p, k, cur); k' < |list| && list[k'] == seg
    {
      hide Treed, Listed, Values, Filed, Splice, InsertAt;
      HeldOut(this, p, k);
      InSegs(list, segs, k);
      var s := segs[seg];
      if s.base < cur {
        var n := NewSegment();
        var left := Segment(s.base, cur - s.base, true);
        var rest := Segment(cur, s.size - left.size, true);
        PartsInsertBefore(list, segs, k, rest, n, left);
        FileUsed(segs, freelists, bitmap, members, seg, n, left);
        HeldChanges(segs[n := left], freelists, bitmap, members + {n}, seg, rest);
        Position(list, segs, k);
        SetSegment(n, left);
        SetSegment(seg, rest);
        list := InsertAt(list, IndexOf(list, seg), n);
        TreeInsert(n);
      }
    }

    /** Leaves the bytes of the held segment from `end` on in use, unless the end of the segment, `segEnd`, has wrapped
        to 0. */
    method KeepBack(seg: Id, end: nat, segEnd: nat, ghost k: nat, ghost p: Parts)
      requires Agree(p, seg) && k < |list| == |p| && list[k] == seg && p[k].used && p[k].base < end < TWO64
      requires End(p[k]) <= TWO64 && segEnd == End(p[k]) % TWO64
      modifies this, tree
      ensures Agree(BackKept(p, k, RoundEnd(p[k], end)), seg) && k < |list| && list[k] == seg
    {
      hide Treed, Listed, Values, Filed, Splice, InsertAt;
      HeldOut(this, p, k);
      InSegs(list, segs, k);
      var s := segs[seg];
      WordEnd(End(s));
      if segEnd > end {
        var n := NewSegment();
        var right := Segment(end, segEnd - end, true);
        var rest := Segment(s.base, end - s.base, true);
        PartsInsertAfter(list, segs, k, rest, n, right);
        FileUsed(segs, freelists, bitmap, members, seg, n, right);
        HeldChanges(segs[n := right], freelists, bitmap, members + {n}, seg, rest);
        Position(list, segs, k);
        SetSegment(n, right);
        SetSegment(seg, rest);
        list := InsertAt(list, IndexOf(list, seg) + 1, n);
        TreeInsert(n);
      }
    }

    /** Merges the held free segment with a free neighbour at `d`, whose record goes back to the slab allocator. */
    method Absorb(seg: Id, other: Id, ghost k: nat, ghost d: nat, ghost p: Parts)
      requires Agree(p, seg) && k < |list| == |p| && list[k] == seg && d < |list| && list[d] == other
      requires (d == k + 1 && Adjacent(p[k], p[d])) || (k == d + 1 && Adjacent(p[d], p[k]))
      requires !p[k].used && !p[d].used && p[d].size < TWO64
      modifies this, tree
      ensures var i := if d < k then d else k;
              Agree(Merge(p, i + 1), seg) && i < |list| && list[i] == seg
    {
      hide Treed, Listed, Values, Filed, Splice, RemoveAt, Deleted, Log2, Without;
      HeldOut(this, p, k);
      InSegs(list, segs, k);
      InSegs(list, segs, d);
      Distinct(list, segs, k, d);
      FreeOut(this, p, seg, d);
      var s, o := segs[seg], segs[other];
      var whole := Segment(if o.base < s.base then o.base else s.base, s.size + o.size, false);
      Sizes(p, k, d);
      PartsDrop(list, segs, k, d, whole);
      Unfile(segs, freelists, bitmap, members, seg, other);
      FiledCount(segs, freelists, bitmap, members, seg);
      ghost var b := Log2(o.size);
      ghost var free' := Deleted(freelists, b, other);
      HeldChanges(segs - {other}, free', if free'[b] == [] then bitmap - {b} else bitmap, members, seg, whole);
      Position(list, segs, d);
      FlistDel(other, Log2(o.size));
      list := RemoveAt(list, IndexOf(list, other));
      DropSegment(other);
      SetSegment(seg, whole);
    }

    /** Merges the held free segment at `k` with a free segment before it. */
    method MergePrev(seg: Id, ghost k: nat, ghost p: Parts)
      requires Agree(p, seg) && k < |list| == |p| && list[k] == seg && !p[k].used
      requires k > 0 ==> Adjacent(p[k - 1], p[k]) && p[k - 1].size < TWO64
      modifies this, tree
      ensures Agree(MergeLeft(p, k), seg) && LeftIndex(p, k) < |list| && list[LeftIndex(p, k)] == seg
    {
      hide Treed, Listed, Values, Filed, Merge;
      Position(list, segs, k);
      InSegs(list, segs, k);
      var at := IndexOf(list, seg);
      if at > 0 {
        InSegs(list, segs, k - 1);
        var prev := list[at - 1];
        if !segs[prev].used && segs[prev].base + segs[prev].size == segs[seg].base {
          Absorb(seg, prev, k, k - 1, p);
        }
      }
    }

    /** Merges the held free segment at `k` with a free segment after it. */
    method MergeNext(seg: Id, ghost k: nat, ghost p: Parts)
      requires Agree(p, seg) && k < |list| == |p| && list[k] == seg && !p[k].used
      requires k + 1 < |p| ==> Adjacent(p[k], p[k + 1]) && p[k + 1].size < TWO64
      modifies this, tree
      ensures Agree(MergeRight(p, k), seg) && k < |list| && list[k] == seg
    {
      hide Treed, Listed, Values, Filed, Merge;
      Position(list, segs, k);
      InSegs(list, segs, k);
      var at := IndexOf(list, seg);
      if at + 1 < |list| {
        InSegs(list, segs, k + 1);
        var next := list[at + 1];
        if !segs[next].used && segs[seg].base + segs[seg].size == segs[next].base {
          Absorb(seg, next, k, k + 1, p);
        }
      }
    }

    /** Files the held free segment at `k`. */
    method Release(seg: Id, ghost k: nat, ghost p: Parts)
      requires Agree(p, seg) && k < |list| == |p| && list[k] == seg && !p[k].used && 0 < p[k].size < TWO64
      modifies this`freelists, this`bitmap
      ensures Agree(p, NULL)
    {
      hide Treed, Listed, Values, Filed;
      InSegs(list, segs, k);
      FileFree(segs, freelists, bitmap, members, seg, seg, segs[seg]) by { HeldNotNull(this, k); }
      SameSegs(segs, seg);
      FlistAdd(seg, Log2(segs[seg].size));
    }

    /** Merges the held free segment at `k` with free neighbours and files it. */
    method Coalesce(seg: Id, ghost k: nat, ghost p: Parts)
      requires Agree(p, seg) && k < |list| == |p| && list[k] == seg && !p[k].used
               && Tiles(p, base, base + size, quantum)
      requires CoalescedBut(p, {k, k + 1})
      modifies this, tree
      ensures k < |p| && LeftIndex(p, k) < |MergeLeft(p, k)|
              && Agree(MergeRight(MergeLeft(p, k), LeftIndex(p, k)), NULL)
    {
      hide Treed, Listed, Values, Filed, Tiles, CoalescedBut, MergeLeft, MergeRight, LeftIndex;
      ghost var k', p' := LeftIndex(p, k), MergeLeft(p, k);
      MergeLeftValid(p, base, base + size, quantum, k);
      MergeRightValid(p', base, base + size, quantum, k');
      MergedFree(p', k');
      Neighbours(p, base, base + size, quantum, k);
      Neighbours(p', base, base + size, quantum, k');
      Neighbours(MergeRight(p', k'), base, base + size, quantum, k');
      MergePrev(seg, k, p);
      SameLength(list, segs);
      MergeNext(seg, k', p');
      SameLength(list, segs);
      Release(seg, k', MergeRight(p', k'));
    }

    /** Frees the bytes from `cur` to `end` as far as the segment `seg` in use reaches. */
    method FreeSegment(seg: Id, cur: nat, end: nat, ghost k: nat, ghost p: Parts) returns (next: nat)
      requires Agree(p, NULL) && Whole(p) && k < |list| == |p| && list[k] == seg && seg in segs && p[k] == segs[seg]
      requires p[k].used && Inside(p[k], cur) && cur < end < TWO64 && OnGrid(cur, quantum) && OnGrid(end, quantum)
      modifies this, tree
      ensures next == Min(End(p[k]) % TWO64, end)
      ensures var e := RoundEnd(p[k], end);
              cur < e && Agree(FreeStep(p, k, cur, e), NULL) && Whole(FreeStep(p, k, cur, e))
    {
      hide Treed, Listed, Values, Filed, Tiles, Coalesced, CoalescedBut, Splice, FreeCut, MergeLeft, MergeRight;
      hide LeftIndex, FrontKept, BackKept, CutIndex;
      ghost var e := RoundEnd(p[k], end);
      RoundFacts(p, base, base + size, quantum, k, cur, end);
      var segEnd := (segs[seg].base + segs[seg].size) % TWO64;
      NotNull(this, seg);
      Untree(segs, freelists, bitmap, members, seg);
      TreeRemove(seg);
      FreeStages(p, k, cur, e);
      KeepFront(seg, cur, k, p);
      ghost var p1, k1 := FrontKept(p, k, cur), CutIndex(p, k, cur);
      SameLength(list, segs);
      KeepBack(seg, end, segEnd, k1, p1);
      SameLength(list, segs);
      InSegs(list, segs, k1);
      next := if segEnd < end then segEnd else end;
      HeldOut(this, Values(list, segs), k1);
      PartsChange(list, segs, k1, segs[seg].(used := false));
      HeldChanges(segs, freelists, bitmap, members, seg, segs[seg].(used := false));
      SetSegment(seg, segs[seg].(used := false));
      ghost var p3 := FreeCut(p, k, cur, e);
      assert Values(list, segs) == p3;
      CutAt(p, k, cur, e);
      CutValid(p, base, base + size, quantum, k, cur, e);
      FreeStepValid(p, base, base + size, quantum, k, cur, e);
      SameLength(list, segs);
      Coalesce(seg, k1, p3);
    }

    /** Frees a range: everything from its start up to its end or the first byte not in use; but a last segment that
        ends at 2^64 is freed to its end once it is reached. */
    method Free(addr: nat, len: nat)
      requires Valid() && addr < TWO64 && len < TWO64
      modifies this, tree
      ensures Valid()
      ensures var from, p := AlignUp(addr, quantum), old(Segments());
              var end := (from + AlignUp(len, quantum)) % TWO64;
              && Segments() == FreeParts(p, from, FreeLimit(p, from, end))
              && (base + size < TWO64 ==> FreeLimit(p, from, end) == end)
              && forall x: nat :: Taken(Segments(), x) <==>
                   Taken(p, x) && !(from <= x < FreeLimit(p, from, end) && AllTaken(p, from, x))
    {
      hide Treed, Listed, Values, Filed, Tiles, Coalesced, AlignUp, Taken, AllTaken, OnGrid, Inside, FreeStep;
      hide FreeParts, Cursor, ReachesTop, RoundEnd;
      RangeFacts(this, addr, len);
      var bytes, from := AlignUp(len, quantum), AlignUp(addr, quantum);
      ghost var p0 := Segments();
      var cur: nat, end: nat := from, (from + bytes) % TWO64;
      ghost var limit := FreeLimit(p0, from, end);
      TopOfArena(this, from, end);
      FreedBytes(p0, base, base + size, quantum, from, limit);
      if bytes == 0 {
        AtLimit(p0, cur, end);
        return;
      }
      ghost var done := false;
      while cur < end
        invariant Valid() && Cursor(cur, base + size, quantum)
        invariant done ==> cur == 0 && Segments() == FreeParts(p0, from, limit)
        invariant !done ==>
                    && FreeParts(Segments(), cur, limit) == FreeParts(p0, from, limit)
                    && limit == FreeLimit(Segments(), cur, end)
        decreases if done then 0 else 1 + end - cur
      {
        var seg := FindSegment(cur);
        if seg == NULL {
          if !done { HoleAhead(Segments(), cur, limit); }
          return;
        }
        if done { NothingAtZero(this); }
        ghost var k := PlaceOf(this, seg);
        ghost var p := Segments();
        FreeRound(p, base, base + size, quantum, k, cur, end);
        done := End(p[k]) == TWO64;
        cur := FreeSegment(seg, cur, end, k, p);
      }
      if !done { AtLimit(Segments(), cur, end); }
    }
  }

  /** The nodes of the tree are those of `members`, under the bases of their segments, and every segment has a node. */
  ghost predicate Keyed(segs: map<Id, Segment>, members: set<Id>, nodes: seq<Id>, key: Id -> nat, mem: RbMemory.Mem) {
    && (forall id: Id :: id in nodes <==> id in members)
    && (forall id: Id | id in members :: id in segs && key(id) == segs[id].base)
    && (forall id: Id | id in segs :: RbMemory.IsNode(mem, id))
  }

  lemma NothingKeyed(key: Id -> nat, mem: RbMemory.Mem)
    ensures Keyed(map[], {}, [], key, mem)
  {
  }

  lemma KeyedGrows(segs: map<Id, Segment>, members: set<Id>, nodes: seq<Id>, key: Id -> nat, mem: RbMemory.Mem,
                   mem': RbMemory.Mem)
    requires Keyed(segs, members, nodes, key, mem) && mem.Keys <= mem'.Keys
    ensures Keyed(segs, members, nodes, key, mem')
  {
  }

  lemma KeyedSet(segs: map<Id, Segment>, members: set<Id>, nodes: seq<Id>, key: Id -> nat, mem: RbMemory.Mem, id: Id,
                 s: Segment)
    requires Keyed(segs, members, nodes, key, mem) && id !in members && RbMemory.IsNode(mem, id)
    ensures Keyed(segs[id := s], members, nodes, key, mem)
  {
  }

  lemma KeyedDrop(segs: map<Id, Segment>, members: set<Id>, nodes: seq<Id>, key: Id -> nat, mem: RbMemory.Mem, id: Id)
    requires Keyed(segs, members, nodes, key, mem) && id !in members
    ensures Keyed(segs - {id}, members, nodes, key, mem)
  {
  }

  lemma KeyedAdd(segs: map<Id, Segment>, members: set<Id>, nodes: seq<Id>, nodes': seq<Id>, key: Id -> nat,
                 key': Id -> nat, mem: RbMemory.Mem, mem': RbMemory.Mem, id: Id)
    requires Keyed(segs, members, nodes, key, mem) && id in segs && key'(id) == segs[id].base && mem.Keys == mem'.Keys
    requires forall x: Id | x != id :: key'(x) == key(x)
    requires exists i | 0 <= i <= |nodes| :: nodes' == nodes[..i] + [id] + nodes[i..]
    ensures Keyed(segs, members + {id}, nodes', key', mem')
  {
    var i :| 0 <= i <= |nodes| && nodes' == nodes[..i] + [id] + nodes[i..];
    forall x: Id
      ensures x in nodes' <==> x in nodes || x == id
    {
      assert nodes == nodes[..i] + nodes[i..];
    }
  }

  lemma KeyedCut(segs: map<Id, Segment>, members: set<Id>, nodes: seq<Id>, nodes': seq<Id>, key: Id -> nat,
                 mem: RbMemory.Mem, mem': RbMemory.Mem, id: Id)
    requires Keyed(segs, members, nodes, key, mem) && mem.Keys == mem'.Keys && NoDup(nodes)
    requires exists i | 0 <= i < |nodes| :: nodes[i] == id && nodes' == nodes[..i] + nodes[i + 1..]
    ensures Keyed(segs, members - {id}, nodes', key, mem')
  {
    var i :| 0 <= i < |nodes| && nodes[i] == id && nodes' == nodes[..i] + nodes[i + 1..];
    RemoveFacts(nodes, i);
    assert nodes' == RemoveAt(nodes, i);
  }

  /** The held segment is not in the tree. */
  lemma HeldOut(v: Vmem, p: Parts, k: nat)
    requires k < |v.list| && v.Agree(p, v.list[k])
    ensures v.list[k] !in v.members
  {
    hide RbTree.Valid, Keyed;
    assert Placed(v.segs, v.freelists, v.members, v.list[k], v.list[k]);
  }

  /** A free segment is not in the tree. */
  lemma FreeOut(v: Vmem, p: Parts, held: Id, k: nat)
    requires k < |v.list| == |p| && v.Agree(p, held) && v.list[k] != held && !p[k].used
    ensures v.list[k] !in v.members
  {
    hide RbTree.Valid, Keyed;
    InSegs(v.list, v.segs, k);
    assert Placed(v.segs, v.freelists, v.members, held, v.list[k]);
  }

  lemma NotANode(v: Vmem)
    requires v.Treed()
    ensures forall id: Id | id in v.segs || id in v.members :: id in v.tree.mem
  {
  }

  lemma Contained(v: Vmem, id: Id)
    requires v.Treed()
    ensures id in v.tree.Contents() <==> id in v.members
  {
  }

  lemma NotContained(v: Vmem, id: Id)
    requires v.Treed() && id in v.segs && id !in v.members
    ensures id !in v.tree.Contents() && RbMemory.IsNode(v.tree.mem, id)
  {
  }

  /** The search of the tree gives the segment in use with the highest base that is not above `addr`. */
  lemma FloorFound(v: Vmem, addr: nat, node: Id)
    requires v.Treed() && forall id | id in v.members :: id != NULL
    requires node == NULL ==> forall x | x in v.tree.Contents() :: v.tree.valueOfNode(x) > addr
    requires node != NULL ==> node in v.tree.Contents() && v.tree.valueOfNode(node) <= addr
    requires node != NULL ==> forall x | x in v.tree.Contents() && v.tree.valueOfNode(x) <= addr ::
               v.tree.valueOfNode(x) <= v.tree.valueOfNode(node)
    ensures node == NULL <==> forall id | id in v.members :: id in v.segs && v.segs[id].base > addr
    ensures node != NULL ==> node in v.members && node in v.segs && v.segs[node].base <= addr
    ensures node != NULL ==> forall id | id in v.members && id in v.segs && v.segs[id].base <= addr ::
              v.segs[id].base <= v.segs[node].base
  {
    hide RbTree.Valid;
    var nodes := v.tree.Contents();
    assert forall id: Id | id in v.members :: id in nodes && v.tree.valueOfNode(id) == v.segs[id].base;
  }

  lemma NothingFiled(segs: map<Id, Segment>, free: seq<seq<Id>>, bitmap: set<nat>, tree: set<Id>)
    requires segs == map[] && free == seq(BUCKETS, _ => []) && bitmap == {} && tree == {}
    ensures Filed(segs, free, bitmap, tree, NULL)
  {
    forall id: Id
      ensures Placed(segs, free, tree, NULL, id)
    {
    }
  }

  lemma Limits(size: nat, addr: nat, q: nat)
    requires q > 0
    ensures MinFor(addr, q) == AlignUp(addr, q)
    ensures MaxFor(size, addr, q) == if addr != 0 then AlignUp((addr + size) % TWO64, q) else UINT64_MAX
    ensures TWO64 > 0
  {
  }

  lemma SegmentFacts(v: Vmem, id: Id)
    requires v.Valid() && id in v.segs
    ensures OnGrid(v.segs[id].base, v.quantum) && 0 < v.segs[id].base && 0 < v.segs[id].size
    ensures End(v.segs[id]) <= v.base + v.size <= TWO64
    ensures 0 < v.quantum && TWO64 % v.quantum == 0
  {
    var p := Values(v.list, v.segs);
    assert id in v.list;
    var k :| 0 <= k < |v.list| && v.list[k] == id;
    InSegs(v.list, v.segs, k);
    Bounds(p, v.base, v.base + v.size, v.quantum, k);
  }

  lemma BucketCount(v: Vmem)
    requires v.Valid()
    ensures |v.freelists| == BUCKETS == 64
  {
  }

  lemma BucketFacts(v: Vmem, b: nat)
    requires v.Valid() && b < BUCKETS
    ensures |v.freelists| == BUCKETS && 0 < v.quantum && TWO64 % v.quantum == 0 && NULL !in v.freelists[b]
    ensures forall id | id in v.freelists[b] ::
              id in v.segs && OnGrid(v.segs[id].base, v.quantum) && 0 < v.segs[id].size && End(v.segs[id]) <= TWO64
  {
    forall id | id in v.freelists[b]
      ensures id in v.segs && id != NULL
      ensures OnGrid(v.segs[id].base, v.quantum) && 0 < v.segs[id].size && End(v.segs[id]) <= TWO64
    {
      assert Placed(v.segs, v.freelists, v.members, NULL, id);
      SegmentFacts(v, id);
    }
  }

  lemma NoneFound(segs: map<Id, Segment>, free: seq<seq<Id>>, b: nat, size: nat, addr: nat)
    requires b < |free|
    requires forall j | 0 <= j < |free[b]| :: free[b][j] in segs && !Hits(segs[free[b][j]], size, addr)
    ensures NoneIn(segs, free, b, size, addr)
  {
  }

  lemma FoundAt(segs: map<Id, Segment>, free: seq<seq<Id>>, size: nat, addr: nat, b: nat, i: nat)
    requires b < |free| && i < |free[b]| && free[b][i] in segs && Hits(segs[free[b][i]], size, addr)
    requires forall j | 0 <= j < i :: free[b][j] in segs && !Hits(segs[free[b][j]], size, addr)
    ensures HitAt(segs, free, size, addr, b, i)
  {
  }

  lemma LowBucketSmall(size: nat)
    ensures LowBucket(size) <= 63
  {
  }

  lemma FirstHitIn(segs: map<Id, Segment>, free: seq<seq<Id>>, size: nat, addr: nat, b: nat, i: nat)
    requires HitAt(segs, free, size, addr, b, i) && |free| == BUCKETS && LowBucket(size) <= b + 1
    requires forall c: nat | LowBucket(size) <= c < (if LowBucket(size) <= b then b else BUCKETS) ::
               NoneIn(segs, free, c, size, addr)
    ensures FirstHit(segs, free, size, addr, b, i)
    ensures free[b][i] in free[b] && free[b][i] in segs && Hits(segs[free[b][i]], size, addr)
  {
  }

  lemma EmptyBucket(v: Vmem, b: nat, size: nat, addr: nat)
    requires v.Valid() && b < BUCKETS && b !in v.bitmap
    ensures |v.freelists| == BUCKETS && NoneIn(v.segs, v.freelists, b, size, addr)
  {
  }

  lemma FiledIn(v: Vmem, b: nat, id: Id)
    requires v.Valid() && b < BUCKETS && id in v.freelists[b]
    ensures id in v.segs && !v.segs[id].used && b == Log2(v.segs[id].size)
  {
    assert Placed(v.segs, v.freelists, v.members, NULL, id);
  }

  lemma Complete(v: Vmem, size: nat, addr: nat, index: nat)
    requires v.Valid() && index == LowBucket(size)
    requires |v.freelists| == BUCKETS
    requires forall b: nat | index <= b < BUCKETS :: NoneIn(v.segs, v.freelists, b, size, addr)
    requires index > 0 ==> NoneIn(v.segs, v.freelists, index - 1, size, addr)
    ensures NoneAnywhere(v.segs, size, addr)
  {
    hide NoneIn;
    forall id | id in v.segs
      ensures 0 < v.segs[id].size < TWO64
    {
      SegmentFacts(v, id);
    }
    SearchComplete(v.segs, v.freelists, v.bitmap, v.members, size, addr, index);
  }

  lemma Position(list: seq<Id>, segs: map<Id, Segment>, k: nat)
    requires Listed(list, segs) && k < |list|
    ensures list[k] in list && IndexOf(list, list[k]) == k
  {
  }

  lemma HeldInSegs(list: seq<Id>, segs: map<Id, Segment>, k: nat)
    requires Listed(list, segs) && k < |list|
    ensures list[k] in segs
  {
    assert list[k] in list;
  }

  lemma AddrOnGrid(addr: nat, q: nat)
    requires q > 0
    ensures OnGrid(addr, q) <==> addr % q == 0
  {
  }

  lemma RequestFacts(v: Vmem, request: nat)
    requires v.Valid() && request < TWO64
    ensures 0 < v.quantum && v.Arena() && v.Whole(v.Segments()) && v.Agree(v.Segments(), NULL)
    ensures AlignUp(request, v.quantum) < TWO64 && OnGrid(AlignUp(request, v.quantum), v.quantum)
  {
    AlignUpWraps(request, v.quantum);
    AlignUpSmall(request, v.quantum);
  }

  /** Some free segment can hold a request for no bytes. */
  ghost predicate EmptyRoom(p: Parts, addr: nat) { exists k | 0 <= k < |p| :: !p[k].used && CanHold(p[k], 0, addr) }

  /** A search that finds nothing is not misled. */
  lemma NotMisled(v: Vmem, bytes: nat, addr: nat)
    requires v.Valid() && NoneAnywhere(v.segs, bytes, addr)
    ensures !Misled(v.segs, v.freelists, bytes, addr)
  {
    hide Hits, Overruns;
    if Misled(v.segs, v.freelists, bytes, addr) {
      var b: nat, i: nat :| FirstHit(v.segs, v.freelists, bytes, addr, b, i);
      FiledIn(v, b, v.freelists[b][i]);
      assert false;
    }
  }

  /** A search is misled exactly if the segment it stops at is overrun, which is one that ends at 2^64. */
  lemma MisledIff(v: Vmem, bytes: nat, addr: nat, b: nat, i: nat)
    requires v.Valid() && FirstHit(v.segs, v.freelists, bytes, addr, b, i)
    ensures var s := v.segs[v.freelists[b][i]];
            && (Misled(v.segs, v.freelists, bytes, addr) <==> Overruns(s, bytes, addr))
            && (v.base + v.size < TWO64 ==> !Overruns(s, bytes, addr))
            && (Overruns(s, bytes, addr) <==> addr != 0 && StartOf(s, bytes, addr) != addr)
            && (addr == 0 ==> StartOf(s, bytes, addr) == s.base)
            && (Hits(s, bytes, addr) && !Overruns(s, bytes, addr) ==> CanHold(s, bytes, addr))
  {
    var id := v.freelists[b][i];
    SegmentFacts(v, id);
    if Misled(v.segs, v.freelists, bytes, addr) {
      var b': nat, i': nat :| FirstHit(v.segs, v.freelists, bytes, addr, b', i')
                              && Overruns(v.segs[v.freelists[b'][i']], bytes, addr);
      OneFirstHit(v.segs, v.freelists, bytes, addr, b, i, b', i');
    }
  }

  /** If no free segment can hold the request then there is no free run for it. */
  lemma NoRoom(v: Vmem, bytes: nat, addr: nat)
    requires v.Valid() && NoneAnywhere(v.segs, bytes, addr)
    ensures bytes > 0 ==> !Available(v.Segments(), v.base, v.base + v.size, addr, bytes)
    ensures bytes == 0 ==> !EmptyRoom(v.Segments(), addr)
  {
    var p := v.Segments();
    if bytes == 0 && EmptyRoom(p, addr) {
      var k :| 0 <= k < |p| && !p[k].used && CanHold(p[k], 0, addr);
      InSegs(v.list, v.segs, k);
      assert false;
    }
    if bytes > 0 && Available(p, v.base, v.base + v.size, addr, bytes) {
      var a: nat := addr;
      if addr == 0 {
        a :| FreeRun(p, v.base, v.base + v.size, a, bytes);
      }
      var k := RunInSegment(p, v.base, v.base + v.size, v.quantum, a, bytes);
      InSegs(v.list, v.segs, k);
      assert false;
    }
  }

  lemma Chosen(v: Vmem, seg: Id, bytes: nat, addr: nat, start: nat) returns (k: nat)
    requires v.Valid() && seg in v.segs && !v.segs[seg].used && CanHold(v.segs[seg], bytes, addr)
    requires OnGrid(bytes, v.quantum) && OnGrid(addr, v.quantum)
    requires start == if addr == 0 then v.segs[seg].base else addr
    ensures var p, b := v.Segments(), Log2(v.segs[seg].size);
            && k < |v.list| == |p| && v.list[k] == seg && p[k] == v.segs[seg] && Within(p[k], start, bytes, v.quantum)
            && End(p[k]) <= TWO64 && 0 < p[k].base <= start && (p[k].base != start ==> start - p[k].base >= v.quantum)
            && FreeRun(p, v.base, v.base + v.size, start, bytes) && Available(p, v.base, v.base + v.size, addr, bytes)
            && (bytes == 0 ==> EmptyRoom(p, addr))
            && b < |v.freelists| && seg in v.freelists[b]
  {
    var p := v.Segments();
    assert seg in v.list;
    k :| 0 <= k < |v.list| && v.list[k] == seg;
    InSegs(v.list, v.segs, k);
    SegmentFacts(v, seg);
    Bounds(p, v.base, v.base + v.size, v.quantum, k);
    SegmentIsRun(p, v.base, v.base + v.size, v.quantum, k, start, bytes);
    if p[k].base < start { MultipleBelow(p[k].base, start, v.quantum); }
    Log2Small(p[k].size);
    assert Placed(v.segs, v.freelists, v.members, NULL, seg);
  }

  lemma AllocDone(p: Parts, lo: nat, hi: nat, q: nat, k: nat, r: nat, size: nat)
    requires q > 0 && Tiles(p, lo, hi, q) && Coalesced(p) && k < |p| && Fits(p[k], r, size, q)
    ensures var p' := AllocParts(p, k, r, size, q);
            && Tiles(p', lo, hi, q) && Coalesced(p')
            && AddsTaken(p, p', r, GrantEnd(r + size, hi, q))
  {
    AllocPartsValid(p, lo, hi, q, k, r, size);
    var p' := AllocParts(p, k, r, size, q);
    forall x: nat
      ensures Taken(p', x) <==> Taken(p, x) || r <= x < GrantEnd(r + size, hi, q)
    {
      AllocPartsTaken(p, lo, hi, q, k, r, size, x);
    }
  }

  lemma FiledCount(segs: map<Id, Segment>, free: seq<seq<Id>>, bitmap: set<nat>, tree: set<Id>, held: Id)
    requires Filed(segs, free, bitmap, tree, held)
    ensures |free| == BUCKETS
  {
  }

  lemma Sizes(p: Parts, k: nat, d: nat)
    requires k < |p| && d < |p| && ((d == k + 1 && Adjacent(p[k], p[d])) || (k == d + 1 && Adjacent(p[d], p[k])))
    ensures var i := if d < k then d else k;
            Merge(p, i + 1) == Splice(p, i, i + 2, [Segment(p[i].base, p[k].size + p[d].size, false)])
  {
  }

  lemma TreeFacts(v: Vmem)
    requires v.Valid()
    ensures forall id | id in v.members :: id in v.segs && id != NULL && v.segs[id].used
  {
    forall id | id in v.members
      ensures id in v.segs && id != NULL && v.segs[id].used
    {
      assert Placed(v.segs, v.freelists, v.members, NULL, id);
    }
  }

  lemma InTree(v: Vmem, id: Id)
    requires v.Valid() && id in v.segs && v.segs[id].used
    ensures id in v.members
  {
    assert Placed(v.segs, v.freelists, v.members, NULL, id);
  }

  lemma PlaceOf(v: Vmem, id: Id) returns (k: nat)
    requires v.Valid() && id in v.segs
    ensures k < |v.list| == |v.Segments()| && v.list[k] == id && v.Segments()[k] == v.segs[id]
  {
    assert id in v.list;
    k :| 0 <= k < |v.list| && v.list[k] == id;
    InSegs(v.list, v.segs, k);
  }

  /** Looking at the nearest base below is enough. */
  lemma LookupRight(v: Vmem, addr: nat, node: Id)
    requires v.Valid() && forall id | id in v.members :: id in v.segs && id != NULL && v.segs[id].used
    requires node == NULL <==> forall id | id in v.members :: v.segs[id].base > addr
    requires node != NULL ==> node in v.members && v.segs[node].base <= addr
    requires node != NULL ==> forall id | id in v.members && v.segs[id].base <= addr ::
               v.segs[id].base <= v.segs[node].base
    ensures Taken(v.Segments(), addr) <==> node != NULL && Inside(v.segs[node], addr)
  {
    var p := v.Segments();
    if Taken(p, addr) {
      var j: nat :| j < |p| && Inside(p[j], addr) && p[j].used;
      InSegs(v.list, v.segs, j);
      InTree(v, v.list[j]);
      var k := PlaceOf(v, node);
      assert Inside(p[j], p[k].base) by { assert p[j].base <= p[k].base <= addr; }
      SegmentFacts(v, node);
      OneHolder(p, v.base, v.base + v.size, v.quantum, j, k, p[k].base);
    }
    if node != NULL && Inside(v.segs[node], addr) {
      var k := PlaceOf(v, node);
      assert p[k].used;
    }
  }

  lemma SameLength(list: seq<Id>, segs: map<Id, Segment>)
    ensures |Values(list, segs)| == |list|
  {
  }

  lemma SameSegs(segs: map<Id, Segment>, id: Id)
    requires id in segs
    ensures segs[id := segs[id]] == segs
  {
  }

  lemma NotNull(v: Vmem, id: Id)
    requires v.Agree(v.Segments(), NULL) && id in v.segs
    ensures id != NULL
  {
  }

  lemma Neighbours(p: Parts, lo: nat, hi: nat, q: nat, k: nat)
    requires q > 0 && Tiles(p, lo, hi, q) && k < |p| && 0 < lo && hi <= TWO64
    ensures k > 0 ==> Adjacent(p[k - 1], p[k]) && p[k - 1].size < TWO64
    ensures k + 1 < |p| ==> Adjacent(p[k], p[k + 1]) && p[k + 1].size < TWO64
    ensures 0 < p[k].size < TWO64
  {
    Bounds(p, lo, hi, q, k);
    if k > 0 { Bounds(p, lo, hi, q, k - 1); }
    if k + 1 < |p| { Bounds(p, lo, hi, q, k + 1); }
  }

  lemma MergedFree(p: Parts, k: nat)
    requires k < |p| && !p[k].used
    ensures k < |MergeRight(p, k)| && !MergeRight(p, k)[k].used
  {
  }

  lemma RangeFacts(v: Vmem, addr: nat, len: nat)
    requires v.Valid() && addr < TWO64 && len < TWO64
    ensures 0 < v.quantum && v.Whole(v.Segments()) && TWO64 > 0
    ensures var from := AlignUp(addr, v.quantum);
            var end := (from + AlignUp(len, v.quantum)) % TWO64;
            && OnGrid(from, v.quantum) && OnGrid(end, v.quantum) && Cursor(from, v.base + v.size, v.quantum)
            && (AlignUp(len, v.quantum) == 0 ==> end == from)
  {
    var q := v.quantum;
    AlignUpWraps(addr, q);
    AlignUpWraps(len, q);
    var from, bytes := AlignUp(addr, q), AlignUp(len, q);
    AlignUpSmall(addr, q);
    AlignUpSmall(len, q);
    MultipleSum(from, bytes, q);
    if from + bytes < TWO64 {
      NoWrap(from + bytes, TWO64);
    } else {
      DivUnique(from + bytes, TWO64, 1);
      MultipleDifference(from + bytes, TWO64, q);
    }
  }

  lemma AlignUpSmall(x: nat, q: nat)
    requires q > 0
    ensures AlignUp(x, q) < TWO64
  {
  }

  lemma HoleAhead(p: Parts, cur: nat, end: nat)
    requires !Taken(p, cur)
    ensures FreeParts(p, cur, end) == p
  {
  }

  /** Only an arena that ends at 2^64 has a segment that does. */
  lemma TopOfArena(v: Vmem, cur: nat, end: nat)
    requires v.Valid() && OnGrid(end, v.quantum)
    ensures v.base + v.size < TWO64 ==> FreeLimit(v.Segments(), cur, end) == end
    ensures OnGrid(FreeLimit(v.Segments(), cur, end), v.quantum)
  {
  }

  lemma AtLimit(p: Parts, cur: nat, end: nat)
    requires cur >= end
    ensures FreeLimit(p, cur, end) == end && FreeParts(p, cur, end) == p
  {
  }

  lemma NothingAtZero(v: Vmem)
    requires v.Valid()
    ensures !Taken(v.Segments(), 0)
  {
    NotTakenOutside(v.Segments(), v.base, v.base + v.size, v.quantum, 0);
  }

  lemma RoundFacts(p: Parts, lo: nat, hi: nat, q: nat, k: nat, cur: nat, end: nat)
    requires 0 < q && TWO64 % q == 0 && Tiles(p, lo, hi, q) && hi <= TWO64 && k < |p| && Inside(p[k], cur)
    requires cur < end && OnGrid(end, q)
    ensures var e := RoundEnd(p[k], end);
            cur < e && OnGrid(e, q) && End(p[k]) <= TWO64 && p[k].base <= cur < End(p[k])
  {
    Bounds(p, lo, hi, q, k);
  }

  lemma FreedBytes(p: Parts, lo: nat, hi: nat, q: nat, cur: nat, end: nat)
    requires q > 0 && Tiles(p, lo, hi, q) && Coalesced(p) && Cursor(cur, hi, q) && OnGrid(end, q)
    ensures var p' := FreeParts(p, cur, end);
            forall x: nat :: Taken(p', x) <==> Taken(p, x) && !(cur <= x < end && AllTaken(p, cur, x))
  {
    var p' := FreeParts(p, cur, end);
    forall x: nat
      ensures Taken(p', x) <==> Taken(p, x) && !(cur <= x < end && AllTaken(p, cur, x))
    {
      FreedPrefix(p, lo, hi, q, cur, end, x);
    }
  }

  lemma FreeRound(p: Parts, lo: nat, hi: nat, q: nat, k: nat, cur: nat, end: nat)
    requires q > 0 && Tiles(p, lo, hi, q) && k < |p| && p[k].used && Inside(p[k], cur) && cur < end
    requires Cursor(cur, hi, q) && OnGrid(end, q) && hi <= TWO64 && TWO64 % q == 0 && Coalesced(p)
    ensures var cur', e, limit := Min(End(p[k]) % TWO64, end), RoundEnd(p[k], end), FreeLimit(p, cur, end);
            && OnGrid(cur, q) && Cursor(cur', hi, q) && p[k].base <= cur < End(p[k]) && cur < e
            && var p' := FreeStep(p, k, cur, e);
               if End(p[k]) == TWO64 then
                 cur' == 0 && p' == FreeParts(p, cur, limit)
               else
                 && cur < cur' && FreeLimit(p', cur', end) == limit
                 && FreeParts(p, cur, limit) == FreeParts(p', cur', limit)
  {
    hide Tiles, Coalesced, CoalescedBut, FreeStep, ReachesTop;
    Bounds(p, lo, hi, q, k);
    WordEnd(End(p[k]));
    NextCursor(p, lo, hi, q, k, cur, end);
    UsedFromAt(p, lo, hi, q, cur, k);
    if End(p[k]) == TWO64 {
      TopRound(p, lo, hi, q, k, cur, end);
      assert OnGrid(0, q);
    } else {
      TopStep(p, lo, hi, q, k, cur, end);
      if ReachesTop(p, cur, end) { SameStep(p, k, cur, end, TWO64); }
    }
  }

  lemma HeldNotNull(v: Vmem, k: nat)
    requires NULL !in v.segs && Listed(v.list, v.segs) && k < |v.list|
    ensures v.list[k] != NULL
  {
    assert v.list[k] in v.list;
  }

  // ---- runs in which the allocator goes wrong ----

  /** The records of a list of one segment. */
  lemma OneSegment(v: Vmem, s: Segment)
    requires v.Valid() && v.Segments() == [s]
    ensures |v.list| == 1 && v.list[0] in v.segs && v.segs[v.list[0]] == s
    ensures forall id: Id | id in v.segs :: v.segs[id] == s
  {
    SameLength(v.list, v.segs);
    InSegs(v.list, v.segs, 0);
    forall id: Id | id in v.segs
      ensures v.segs[id] == s
    {
      assert id in v.list;
    }
  }

  lemma OneSegmentNotMisled(v: Vmem, s: Segment, bytes: nat, addr: nat)
    requires v.Valid() && v.Segments() == [s] && (addr == 0 || s.base <= addr)
    ensures !Misled(v.segs, v.freelists, bytes, addr)
  {
    OneSegment(v, s);
  }

  lemma OneSegmentRoom(v: Vmem, s: Segment, bytes: nat, addr: nat)
    requires v.Valid() && v.Segments() == [s] && !s.used && CanHold(s, bytes, addr)
    ensures Available(v.Segments(), v.base, v.base + v.size, addr, bytes) && EmptyRoom(v.Segments(), addr)
  {
    var p, a := v.Segments(), if addr == 0 then s.base else addr;
    assert p[0] == s;
    SegmentIsRun(p, v.base, v.base + v.size, v.quantum, 0, a, bytes);
    assert CanHold(p[0], 0, addr);
  }

  /** An allocation from an arena that is one free segment. */
  method AllocFromOne(v: Vmem, ghost s: Segment, bytes: nat, addr: nat) returns (r: nat)
    requires v.Valid() && v.Segments() == [s] && !s.used && CanHold(s, bytes, addr) && bytes < TWO64 && addr < TWO64
    requires bytes % v.quantum == 0 && addr % v.quantum == 0
    modifies v, v.tree
    ensures r == (if addr == 0 then s.base else addr) && s.base <= r && r + bytes <= End(s)
    ensures v.Segments() == AllocParts([s], 0, r, bytes, v.quantum) && (bytes > 0 ==> v.Valid())
  {
    hide Vmem.Treed, Listed, Values, Filed, Tiles, Coalesced, AllocParts, FirstHit, Misled, Available, EmptyRoom;
    hide AlignUp, SwallowsRest, FreeRun, AddsTaken, GrantEnd;
    OneSegment(v, s);
    OneSegmentRoom(v, s, bytes, addr);
    OneSegmentNotMisled(v, s, bytes, addr);
    AlignUpAligned(bytes, v.quantum);
    var ok;
    ghost var k;
    ok, r, k := v.Alloc(bytes, addr);
  }

  lemma OutOfOrder(v: Vmem)
    requires v.quantum > 0 && !Tiles(v.Segments(), v.base, v.base + v.size, v.quantum)
    ensures !v.Valid()
  {
    hide Tiles;
  }

  /** A request for no bytes, the first of an arena of two pages, leaves an empty segment behind. */
  method EmptyRequestRun() returns (v: Vmem, r: nat)
    ensures r == 4096 && v.Segments() == [Segment(4096, 0, true), Segment(4096, 8192, false)] && !v.Valid()
  {
    hide Vmem.Valid, AllocParts, Tiles, Values;
    v := new Vmem(4096, 8192, 4096);
    r := AllocFromOne(v, Segment(4096, 8192, false), 0, 0);
    EmptyRequestBreaks();
    OutOfOrder(v);
  }

  /** All but the last page below 2^64. */
  lemma AllButLast()
    ensures var s := Segment(4096, TWO64 - 4096, false);
            AllocParts([s], 0, 4096, TWO64 - 8192, 4096) ==
            [Segment(4096, TWO64 - 8192, true), Segment(TWO64 - 4096, 4096, false)]
  {
    var s := Segment(4096, TWO64 - 4096, false);
    assert AllocPieces(s, 4096, TWO64 - 8192, 4096) ==
           [Segment(4096, TWO64 - 8192, true), Segment(TWO64 - 4096, 4096, false)];
  }

  lemma WholeArena()
    ensures var s := Segment(4096, TWO64 - 4096, false);
            AllocParts([s], 0, 4096, TWO64 - 4096, 4096) == [s.(used := true)]
  {
    var s := Segment(4096, TWO64 - 4096, false);
    assert AllocPieces(s, 4096, TWO64 - 4096, 4096) == [s.(used := true)];
  }

  /** With the last page below 2^64 as the only free segment, a search for a page at 8192 is misled. */
  lemma LastPageMisleads(v: Vmem)
    requires v.Valid()
    requires v.Segments() == [Segment(4096, TWO64 - 8192, true), Segment(TWO64 - 4096, 4096, false)]
    ensures Misled(v.segs, v.freelists, 4096, 8192)
  {
    hide Log2;
    PageBucket();
    BucketCount(v);
    SameLength(v.list, v.segs);
    InSegs(v.list, v.segs, 0);
    InSegs(v.list, v.segs, 1);
    var id := v.list[1];
    assert Placed(v.segs, v.freelists, v.members, NULL, id);
    assert id in v.freelists[12];
    forall x | x in v.freelists[12]
      ensures x == id
    {
      FiledIn(v, 12, x);
      assert x in v.list;
    }
    var i :| 0 <= i < |v.freelists[12]| && v.freelists[12][i] == id;
    assert v.freelists[12][0] in v.freelists[12] && NoDup(v.freelists[12]);
    assert i == 0;
    assert HitAt(v.segs, v.freelists, 4096, 8192, 12, 0);
    assert FirstHit(v.segs, v.freelists, 4096, 8192, 12, 0);
  }

  /** In an arena up to 2^64 of which only the last page is left, a request for a page at 8192 trips the assertion. */
  method MisledRun() returns (v: Vmem, r: nat, ok: bool)
    ensures v.Valid() && r == 4096 && !ok
    ensures v.Segments() == [Segment(4096, TWO64 - 8192, true), Segment(TWO64 - 4096, 4096, false)]
  {
    hide Vmem.Valid, AllocParts, Tiles, Values, Misled, Available, SwallowsRest;
    GridNumbers();
    v := new Vmem(4096, TWO64 - 4096, 4096);
    r := AllocFromOne(v, Segment(4096, TWO64 - 4096, false), TWO64 - 8192, 4096);
    AllButLast();
    LastPageMisleads(v);
    ghost var k;
    var none;
    ok, none, k := v.Alloc(4096, 8192);
  }

  /** Freeing one page of an allocation that takes an arena up to 2^64 frees the whole arena. */
  method WrapRun() returns (v: Vmem, r: nat)
    ensures v.Valid() && r == 4096 && v.Segments() == [Segment(4096, TWO64 - 4096, false)]
  {
    hide Vmem.Valid, AllocParts, Tiles, Values, FreeParts, FreeLimit, Taken, AllTaken;
    GridNumbers();
    v := new Vmem(4096, TWO64 - 4096, 4096);
    r := AllocFromOne(v, Segment(4096, TWO64 - 4096, false), TWO64 - 4096, 0);
    WholeArena();
    WrapFreesAll();
    v.Free(r, 4096);
  }

  lemma GridNumbers()
    ensures AlignUp(4096, 4096) == 4096 && (4096 + 4096) % TWO64 == 8192
    ensures TWO64 % 4096 == (TWO64 - 4096) % 4096 == (TWO64 - 8192) % 4096 == 0
  {
  }
}
