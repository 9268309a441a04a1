/** The views of one set of segments: the address-ordered list, the 64 freelists with their bitmap, and the tree of
    segments in use. */
module VmemViews {
  import opened Bits
  import opened Lists
  import opened VmemParts

  /** A segment's address; 0 is the null pointer. */
  type Id = nat
  const NULL: Id := 0

  const BUCKETS: nat := 64

  // ---- freelists, bitmap and tree ----

  ghost predicate Unfiled(free: seq<seq<Id>>, tree: set<Id>, id: Id) {
    id !in tree && forall b | 0 <= b < |free| :: id !in free[b]
  }

  /** A used segment is in the tree, a free one in the freelist of its size and nowhere else. */
  ghost predicate FiledUnder(free: seq<seq<Id>>, tree: set<Id>, id: Id, s: Segment) {
    && (id in tree <==> s.used)
    && forall b | 0 <= b < |free| :: id in free[b] <==> !s.used && b == Log2(s.size)
  }

  ghost predicate Placed(segs: map<Id, Segment>, free: seq<seq<Id>>, tree: set<Id>, held: Id, id: Id) {
    if id in segs && id != held then FiledUnder(free, tree, id, segs[id]) else Unfiled(free, tree, id)
  }

  /** Bit `b` is set exactly when freelist `b` is not empty. */
  ghost predicate BitsMatch(free: seq<seq<Id>>, bitmap: set<nat>) {
    && (forall b: nat | b in bitmap :: b < |free|)
    && forall b: nat | b < |free| :: b in bitmap <==> free[b] != []
  }

  /** Every segment is filed where it belongs, except the one an operation holds. */
  ghost predicate Filed(segs: map<Id, Segment>, free: seq<seq<Id>>, bitmap: set<nat>, tree: set<Id>, held: Id) {
    && |free| == BUCKETS && BitsMatch(free, bitmap)
    && (forall b | 0 <= b < BUCKETS :: NoDup(free[b]))
    && forall id: Id :: Placed(segs, free, tree, held, id)
  }

  function Added(free: seq<seq<Id>>, b: nat, id: Id): seq<seq<Id>>
    requires b < |free|
  {
    free[b := [id] + free[b]]
  }

  function Deleted(free: seq<seq<Id>>, b: nat, id: Id): seq<seq<Id>>
    requires b < |free| && id in free[b]
  {
    free[b := Without(free[b], id)]
  }

  /** Filing a free segment that is in no view: the held one, or a new one. */
  lemma FileFree(segs: map<Id, Segment>, free: seq<seq<Id>>, bitmap: set<nat>, tree: set<Id>, held: Id, id: Id,
                 s: Segment)
    requires Filed(segs, free, bitmap, tree, held) && !s.used && 0 < s.size < TWO64
    requires (id == held || id !in segs) && NULL !in segs && id != NULL
    ensures var b := Log2(s.size);
            && b < BUCKETS == |free|
            && Filed(segs[id := s], Added(free, b, id), bitmap + {b}, tree, if id == held then NULL else held)
  {
    Log2Small(s.size);
    var b, held', segs' := Log2(s.size), if id == held then NULL else held, segs[id := s];
    var free' := Added(free, b, id);
    assert Placed(segs, free, tree, held, id);
    InsertFacts(free[b], 0, id);
    assert InsertAt(free[b], 0, id) == [id] + free[b];
    assert BitsMatch(free', bitmap + {b});
    forall x: Id
      ensures Placed(segs', free', tree, held', x)
    {
      assert Placed(segs, free, tree, held, x);
    }
    assert Filed(segs', free', bitmap + {b}, tree, held');
  }

  /** Filing a used segment that is in no view. */
  lemma FileUsed(segs: map<Id, Segment>, free: seq<seq<Id>>, bitmap: set<nat>, tree: set<Id>, held: Id, id: Id,
                 s: Segment)
    requires Filed(segs, free, bitmap, tree, held) && s.used && (id == held || id !in segs) && NULL !in segs
             && id != NULL
    ensures Filed(segs[id := s], free, bitmap, tree + {id}, if id == held then NULL else held)
  {
    assert Placed(segs, free, tree, held, id);
    var segs', tree', held' := segs[id := s], tree + {id}, if id == held then NULL else held;
    forall x: Id
      ensures Placed(segs', free, tree', held', x)
    {
      assert Placed(segs, free, tree, held, x);
    }
  }

  /** Taking a free segment off its freelist, to hold it or to drop it. */
  lemma Unfile(segs: map<Id, Segment>, free: seq<seq<Id>>, bitmap: set<nat>, tree: set<Id>, held: Id, id: Id)
    requires Filed(segs, free, bitmap, tree, held) && id in segs && id != held && !segs[id].used
             && segs[id].size < TWO64
    ensures Log2(segs[id].size) < BUCKETS && id in free[Log2(segs[id].size)]
    ensures var b := Log2(segs[id].size);
            var free' := Deleted(free, b, id);
            var bitmap' := if free'[b] == [] then bitmap - {b} else bitmap;
            && (held == NULL && NULL !in segs ==> Filed(segs, free', bitmap', tree, id))
            && Filed(segs - {id}, free', bitmap', tree, held)
  {
    Log2Small(segs[id].size);
    var b := Log2(segs[id].size);
    assert Placed(segs, free, tree, held, id);
    RemoveFacts(free[b], IndexOf(free[b], id));
    var free' := Deleted(free, b, id);
    var bitmap' := if free'[b] == [] then bitmap - {b} else bitmap;
    assert BitsMatch(free', bitmap');
    forall x: Id
      ensures Placed(segs - {id}, free', tree, held, x)
      ensures held == NULL && NULL !in segs ==> Placed(segs, free', tree, id, x)
    {
      assert Placed(segs, free, tree, held, x);
    }
  }

  /** Taking a used segment out of the tree, to hold it. */
  lemma Untree(segs: map<Id, Segment>, free: seq<seq<Id>>, bitmap: set<nat>, tree: set<Id>, id: Id)
    requires Filed(segs, free, bitmap, tree, NULL) && id in segs && id != NULL && segs[id].used && NULL !in segs
    ensures id in tree && Filed(segs, free, bitmap, tree - {id}, id)
  {
    assert Placed(segs, free, tree, NULL, id);
    forall x: Id
      ensures Placed(segs, free, tree - {id}, id, x)
    {
      assert Placed(segs, free, tree, NULL, x);
    }
  }

  /** The held segment may change freely. */
  lemma HeldChanges(segs: map<Id, Segment>, free: seq<seq<Id>>, bitmap: set<nat>, tree: set<Id>, held: Id, s: Segment)
    requires Filed(segs, free, bitmap, tree, held)
    ensures Filed(segs[held := s], free, bitmap, tree, held)
  {
    var segs' := segs[held := s];
    forall x: Id
      ensures Placed(segs', free, tree, held, x)
    {
      assert Placed(segs, free, tree, held, x);
    }
  }

  // ---- the address-ordered list ----

  ghost predicate Listed(list: seq<Id>, segs: map<Id, Segment>) {
    NoDup(list) && forall id: Id :: id in list <==> id in segs
  }

  /** The segments named by `ids`, in that order. */
  ghost function Values(ids: seq<Id>, segs: map<Id, Segment>): Parts {
    seq(|ids|, i requires 0 <= i < |ids| => if ids[i] in segs then segs[ids[i]] else Segment(0, 0, false))
  }

  /** Replacing part of a list replaces the same part of its segments. */
  lemma ValuesSplice(ids: seq<Id>, segs: map<Id, Segment>, segs': map<Id, Segment>, i: nat, j: nat, mid: seq<Id>)
    requires i <= j <= |ids| && Kept(ids, segs, segs', i, j)
    ensures Values(ids[..i] + mid + ids[j..], segs') == Splice(Values(ids, segs), i, j, Values(mid, segs'))
  {
    assert Values(ids[..i], segs') == Values(ids, segs)[..i];
    assert Values(ids[j..], segs') == Values(ids, segs)[j..];
    assert Values(ids[..i] + mid + ids[j..], segs')
        == Values(ids[..i], segs') + Values(mid, segs') + Values(ids[j..], segs');
  }

  ghost predicate Kept(ids: seq<Id>, segs: map<Id, Segment>, segs': map<Id, Segment>, i: nat, j: nat) {
    && (forall k | 0 <= k < |ids| :: ids[k] in segs)
    && (forall k | 0 <= k < |ids| && !(i <= k < j) && ids[k] in segs ::
          ids[k] in segs' && segs'[ids[k]] == segs[ids[k]])
  }

  /** Changing only segments listed from `i` to `j` keeps all the others. */
  lemma ElsewhereKept(list: seq<Id>, segs: map<Id, Segment>, segs': map<Id, Segment>, i: nat, j: nat, touched: set<Id>)
    requires Listed(list, segs) && i <= j <= |list|
    requires forall x | x in segs && x !in touched :: x in segs' && segs'[x] == segs[x]
    requires forall x | x in touched && x in segs :: x in list[i..j]
    ensures Kept(list, segs, segs', i, j)
  {
    forall k | 0 <= k < |list|
      ensures list[k] in segs
      ensures !(i <= k < j) ==> list[k] !in list[i..j]
    {
      assert list[k] in list;
    }
  }

  /** The segment at `k` changes. */
  lemma PartsChange(list: seq<Id>, segs: map<Id, Segment>, k: nat, s: Segment)
    requires Listed(list, segs) && k < |list|
    ensures var segs' := segs[list[k] := s];
            Listed(list, segs') && Values(list, segs') == Splice(Values(list, segs), k, k + 1, [s])
  {
    var id := list[k];
    InSegs(list, segs, k);
    var segs' := segs[id := s];
    hide *;
    assert list[k..k + 1] == [id];
    ElsewhereKept(list, segs, segs', k, k + 1, {id});
    ValuesSplice(list, segs, segs', k, k + 1, [id]);
    assert list[..k] + [id] + list[k + 1..] == list;
    Value(id, segs');
    StillListed(list, segs, segs');
  }

  lemma InSegs(list: seq<Id>, segs: map<Id, Segment>, k: nat)
    requires Listed(list, segs) && k < |list|
    ensures list[k] in segs && Values(list, segs)[k] == segs[list[k]]
  {
    assert list[k] in list;
  }

  lemma StillListed(list: seq<Id>, segs: map<Id, Segment>, segs': map<Id, Segment>)
    requires Listed(list, segs) && segs.Keys == segs'.Keys
    ensures Listed(list, segs')
  {
  }

  lemma Value(id: Id, segs: map<Id, Segment>)
    requires id in segs
    ensures Values([id], segs) == [segs[id]]
  {
  }

  lemma TwoValues(a: Id, b: Id, segs: map<Id, Segment>)
    requires a in segs && b in segs
    ensures Values([a, b], segs) == [segs[a], segs[b]]
  {
  }

  lemma NowListed(list: seq<Id>, segs: map<Id, Segment>, k: nat, n: Id, segs': map<Id, Segment>)
    requires Listed(list, segs) && k <= |list| && n !in segs && segs'.Keys == segs.Keys + {n}
    ensures Listed(InsertAt(list, k, n), segs')
  {
    InsertFacts(list, k, n);
  }

  lemma InsertedPair(list: seq<Id>, k: nat, n: Id)
    requires k < |list|
    ensures InsertAt(list, k, n) == list[..k] + [n, list[k]] + list[k + 1..]
    ensures InsertAt(list, k + 1, n) == list[..k] + [list[k], n] + list[k + 1..]
    ensures |InsertAt(list, k, n)| == |InsertAt(list, k + 1, n)| == |list| + 1
    ensures InsertAt(list, k, n)[k + 1] == list[k] == InsertAt(list, k + 1, n)[k]
  {
    assert list[k..] == [list[k]] + list[k + 1..];
    assert list[..k + 1] == list[..k] + [list[k]];
  }

  lemma OthersKept(list: seq<Id>, segs: map<Id, Segment>, k: nat, n: Id, t: Segment, s: Segment)
    requires Listed(list, segs) && k < |list| && n !in segs && list[k] in segs
    ensures var segs' := segs[n := t][list[k] := s];
            && Kept(list, segs, segs', k, k + 1) && segs'.Keys == segs.Keys + {n}
            && segs'[n] == t && segs'[list[k]] == s
  {
    hide Listed, Kept;
    assert list[k..k + 1] == [list[k]];
    ElsewhereKept(list, segs, segs[n := t][list[k] := s], k, k + 1, {n, list[k]});
  }

  /** The segment at `k` becomes `s`, and a new segment `t` is linked in before it. */
  lemma PartsInsertBefore(list: seq<Id>, segs: map<Id, Segment>, k: nat, s: Segment, n: Id, t: Segment)
    requires Listed(list, segs) && k < |list| && n !in segs
    ensures var list', segs' := InsertAt(list, k, n), segs[n := t][list[k] := s];
            && Listed(list', segs') && k + 1 < |list'| && list'[k + 1] == list[k]
            && Values(list', segs') == Splice(Values(list, segs), k, k + 1, [t, s])
  {
    var id := list[k];
    InSegs(list, segs, k);
    var list', segs' := InsertAt(list, k, n), segs[n := t][id := s];
    hide *;
    InsertedPair(list, k, n);
    OthersKept(list, segs, k, n, t, s);
    ValuesSplice(list, segs, segs', k, k + 1, [n, id]);
    TwoValues(n, id, segs');
    NowListed(list, segs, k, n, segs');
  }

  /** The segment at `k` becomes `s`, and a new segment `t` is linked in after it. */
  lemma PartsInsertAfter(list: seq<Id>, segs: map<Id, Segment>, k: nat, s: Segment, n: Id, t: Segment)
    requires Listed(list, segs) && k < |list| && n !in segs
    ensures var list', segs' := InsertAt(list, k + 1, n), segs[n := t][list[k] := s];
            && Listed(list', segs') && k < |list'| && list'[k] == list[k]
            && Values(list', segs') == Splice(Values(list, segs), k, k + 1, [s, t])
  {
    var id := list[k];
    InSegs(list, segs, k);
    var list', segs' := InsertAt(list, k + 1, n), segs[n := t][id := s];
    hide *;
    InsertedPair(list, k, n);
    OthersKept(list, segs, k, n, t, s);
    ValuesSplice(list, segs, segs', k, k + 1, [id, n]);
    TwoValues(id, n, segs');
    NowListed(list, segs, k + 1, n, segs');
  }

  lemma StillListedWithout(list: seq<Id>, segs: map<Id, Segment>, d: nat, segs': map<Id, Segment>)
    requires Listed(list, segs) && d < |list| && segs'.Keys == segs.Keys - {list[d]}
    ensures Listed(RemoveAt(list, d), segs')
  {
    RemoveFacts(list, d);
  }

  lemma Distinct(list: seq<Id>, segs: map<Id, Segment>, k: nat, d: nat)
    requires Listed(list, segs) && k < |list| && d < |list| && k != d
    ensures list[k] != list[d]
  {
  }

  lemma RemoveShape(list: seq<Id>, k: nat, d: nat)
    requires k < |list| && d < |list| && (d == k + 1 || k == d + 1)
    ensures var i := if d < k then d else k;
            && RemoveAt(list, d) == list[..i] + [list[k]] + list[i + 2..]
            && list[k] in list[i..i + 2] && list[d] in list[i..i + 2]
            && |RemoveAt(list, d)| == |list| - 1 && RemoveAt(list, d)[i] == list[k]
  {
    var i := if d < k then d else k;
    assert list[i..i + 2] == [list[i], list[i + 1]];
  }

  /** The neighbour at `d` is dropped and the segment at `k` becomes `s`. */
  lemma PartsDrop(list: seq<Id>, segs: map<Id, Segment>, k: nat, d: nat, s: Segment)
    requires Listed(list, segs) && k < |list| && d < |list| && (d == k + 1 || k == d + 1)
    ensures var list', segs', i := RemoveAt(list, d), (segs - {list[d]})[list[k] := s], if d < k then d else k;
            && Listed(list', segs') && i < |list'| && list'[i] == list[k]
            && Values(list', segs') == Splice(Values(list, segs), i, i + 2, [s])
  {
    var id, i := list[k], if d < k then d else k;
    InSegs(list, segs, k);
    InSegs(list, segs, d);
    Distinct(list, segs, k, d);
    var list', segs' := RemoveAt(list, d), (segs - {list[d]})[id := s];
    hide *;
    RemoveShape(list, k, d);
    ElsewhereKept(list, segs, segs', i, i + 2, {list[d], id});
    ValuesSplice(list, segs, segs', i, i + 2, [id]);
    Value(id, segs');
    StillListedWithout(list, segs, d, segs');
  }
}
