/** Reference counts of page tables, and what a partly done range operation has achieved. */
module PageCount {
  import opened Bits
  import opened PageMath
  import opened PageShape
  import opened PageUpdate

  /** The page-frame database entry of a table: pinned tables (type INVALID) are never counted or freed. */
  datatype Page = Page(pinned: bool, refCount: int)

  function One(e: Pte): nat { if e.Absent? then 0 else 1 }

  /** The number of present entries. */
  function Present(s: seq<Pte>): nat {
    if s == [] then 0 else Present(s[..|s| - 1]) + One(s[|s| - 1])
  }

  lemma {:induction false} PresentUpdate(s: seq<Pte>, i: nat, e: Pte)
    requires i < |s|
    ensures Present(s[i := e]) == Present(s) - One(s[i]) + One(e)
    ensures Present(s) >= One(s[i])
  {
    var n := |s| - 1;
    if i < n {
      PresentUpdate(s[..n], i, e);
      assert s[i := e][..n] == s[..n][i := e];
    } else {
      assert s[i := e][..n] == s[..n];
    }
  }

  lemma {:induction false} PresentZero(s: seq<Pte>)
    ensures Present(s) == 0 <==> AllAbsent(s)
  {
    if s != [] {
      PresentZero(s[..|s| - 1]);
      assert AllAbsent(s) <==> AllAbsent(s[..|s| - 1]) && s[|s| - 1].Absent? by {
        assert forall i | 0 <= i < |s| - 1 :: s[..|s| - 1][i] == s[i];
      }
    }
  }

  lemma PresentSome(s: seq<Pte>, i: nat)
    requires i < |s| && !s[i].Absent?
    ensures Present(s) > 0
  {
    PresentZero(s);
  }

  /** Counts are exact, and no counted table is empty except possibly the one at the cursor. */
  predicate CountOk(m: Mem, pages: map<Frame, Page>, t: Frame, cursor: Frame) {
    && t in m && t in pages
    && (pages[t].pinned || (pages[t].refCount == Present(m[t]) && (t == cursor || Present(m[t]) > 0)))
  }

  predicate RefsOk(m: Mem, g: Regions, pages: map<Frame, Page>, root: Frame, cursor: Frame) {
    root in pages && forall t | t in g && t != root :: CountOk(m, pages, t, cursor)
  }

  /** The tables from `level` up to the root, each the parent of the one below. */
  predicate Path(g: Regions, root: Frame, top: nat, tables: seq<Frame>, level: nat) {
    && |tables| == 6 && 1 <= level <= top <= 5 && tables[top] == root
    && (forall l | level <= l <= top :: tables[l] in g && g[tables[l]].level == l)
    && (forall l | level <= l < top :: tables[l] != root && g[tables[l]].parent == tables[l + 1])
  }

  /** Page `v` is at entry `index` of the table starting at `base`, or just past its last entry. */
  predicate AtCursor(base: nat, level: nat, index: nat, v: nat) {
    if index < ENTRIES then InSlot(v, base, index, level)
    else index == ENTRIES && v == base + ENTRIES * Size(level)
  }

  function Space(top: nat): nat { ENTRIES * Size(top) }

  // ---- progress of the range operations ----

  /** The pages from `v0` up to `v` are unmapped and all others are as in `m0`. */
  predicate Unmapped(m0: Mem, m: Mem, root: Frame, top: nat, v0: nat, v: nat) {
    forall x: nat | x < Space(top) ::
      Walk(m, root, top, x) == if v0 <= x < v then None else Walk(m0, root, top, x)
  }

  /** The pages from `v0` up to `v` map to consecutive frames from `p0` and all others are as in `m0`. */
  predicate Mapped(m0: Mem, m: Mem, root: Frame, top: nat, v0: nat, v: nat, p0: Frame, prot: Prot) {
    forall x: nat | x < Space(top) ::
      Walk(m, root, top, x) == if v0 <= x < v then Some(p0 + (x - v0), prot) else Walk(m0, root, top, x)
  }

  /** Both memories translate every page alike. */
  predicate SameWalks(m: Mem, m': Mem, root: Frame, top: nat) {
    forall x: nat | x < Space(top) :: Walk(m', root, top, x) == Walk(m, root, top, x)
  }

  /** In both memories the walk of every page ends at the same level. */
  predicate SameEnds(m: Mem, m': Mem, root: Frame, top: nat) {
    forall x: nat | x < Space(top) :: WalkEnd(m', root, top, x) == WalkEnd(m, root, top, x)
  }

  /** The walks of the pages in one slot, which ended at its level `l` or below, end below `l`; all others end where
      they ended. */
  predicate Lowered(m: Mem, m': Mem, root: Frame, top: nat, base: nat, i: nat, l: nat) {
    forall x: nat | x < Space(top) ::
      WalkEnd(m', root, top, x) ==
        if InSlot(x, base, i, l) && WalkEnd(m, root, top, x) >= l then l - 1 else WalkEnd(m, root, top, x)
  }

  /** No walk ends elsewhere than before, and the walks of the pages from `v` up to `v'` end in table `t`. */
  predicate Filled(m: Mem, m': Mem, g: Regions, root: Frame, top: nat, t: Frame, v: nat, v': nat) {
    && t in g && SameEnds(m, m', root, top)
    && forall x: nat | v <= x < v' :: EndsIn(m, g, root, top, t, x)
  }

  /** The walk of page `x` ends in table `t`. */
  predicate EndsIn(m: Mem, g: Regions, root: Frame, top: nat, t: Frame, x: nat)
    requires t in g
  {
    x < Space(top) && InTable(g, t, x) && WalkEnd(m, root, top, x) == g[t].level
  }

  // ---- levels that may have leaves ----

  /** Leaves at level 3 need the feature; so do those at level 2, but a split leaf of level 3 leaves some there too. */
  predicate LeafLevel(l: nat, l2Leaf: bool, l3Leaf: bool) {
    l == 1 || (l == 2 && (l2Leaf || l3Leaf)) || (l == 3 && l3Leaf)
  }

  predicate TableLeaves(s: seq<Pte>, l: nat, l2Leaf: bool, l3Leaf: bool) {
    forall i | 0 <= i < |s| :: s[i].Leaf? ==> LeafLevel(l, l2Leaf, l3Leaf)
  }

  predicate AllLeaves(m: Mem, g: Regions, l2Leaf: bool, l3Leaf: bool) {
    forall t | t in g && t in m :: TableLeaves(m[t], g[t].level, l2Leaf, l3Leaf)
  }

  lemma RewriteLeaves(m: Mem, g: Regions, t: Frame, s': seq<Pte>, l2Leaf: bool, l3Leaf: bool)
    requires AllLeaves(m, g, l2Leaf, l3Leaf) && t in g && TableLeaves(s', g[t].level, l2Leaf, l3Leaf)
    ensures AllLeaves(m[t := s'], g, l2Leaf, l3Leaf)
  {
  }

  lemma EntryLeaves(m: Mem, g: Regions, t: Frame, i: nat, e: Pte, l2Leaf: bool, l3Leaf: bool)
    requires AllLeaves(m, g, l2Leaf, l3Leaf) && t in g && t in m && i < |m[t]|
    requires e.Leaf? ==> LeafLevel(g[t].level, l2Leaf, l3Leaf)
    ensures AllLeaves(m[t := m[t][i := e]], g, l2Leaf, l3Leaf)
  {
    assert TableLeaves(m[t], g[t].level, l2Leaf, l3Leaf);
    RewriteLeaves(m, g, t, m[t][i := e], l2Leaf, l3Leaf);
  }

  lemma GraftLeaves(m: Mem, g: Regions, t: Frame, i: nat, c: Frame, s': seq<Pte>, l2Leaf: bool, l3Leaf: bool)
    requires AllLeaves(m, g, l2Leaf, l3Leaf) && t in g && t in m && i < |m[t]| && g[t].level > 1 && c !in g
    requires AllAbsent(s') || m[t][i].Leaf?
    ensures AllLeaves(GraftMem(m, t, i, c, s'), GraftRegions(g, t, i, c), l2Leaf, l3Leaf)
  {
    assert TableLeaves(m[t], g[t].level, l2Leaf, l3Leaf);
    assert TableLeaves(s', g[t].level - 1, l2Leaf, l3Leaf);
  }

  lemma PruneLeaves(m: Mem, g: Regions, c: Frame, l2Leaf: bool, l3Leaf: bool)
    requires AllLeaves(m, g, l2Leaf, l3Leaf) && c in g && g[c].parent in g && g[c].parent in m
    requires |m[g[c].parent]| == ENTRIES
    ensures AllLeaves(PruneMem(m, g, c), g - {c}, l2Leaf, l3Leaf)
  {
    assert TableLeaves(m[g[c].parent], g[g[c].parent].level, l2Leaf, l3Leaf);
  }

  lemma RootCovers(m: Mem, g: Regions, root: Frame, top: nat, x: nat)
    requires Shape(m, g, root, top)
    ensures InTable(g, root, x) <==> x < Space(top)
  {
  }

  /** Skipping over an absent entry. */
  lemma SkipAbsent(m0: Mem, m: Mem, g: Regions, root: Frame, top: nat, t: Frame, index: nat, v0: nat, v: nat, v': nat)
    requires Shape(m, g, root, top) && t in g && index < ENTRIES && t in m && |m[t]| == ENTRIES && m[t][index].Absent?
    requires InSlot(v, g[t].base, index, g[t].level) && v <= v' <= SlotBase(g[t].base, index + 1, g[t].level) && v0 <= v
    requires Unmapped(m0, m, root, top, v0, v)
    ensures Unmapped(m0, m, root, top, v0, v')
  {
    forall x: nat | x < Space(top)
      ensures Walk(m, root, top, x) == if v0 <= x < v' then None else Walk(m0, root, top, x)
    {
      if v <= x < v' {
        assert InSlot(x, g[t].base, index, g[t].level);
        assert TableOk(m, g, root, top, t);
        IndexOfSlot(x, g[t].base, index, g[t].level);
        WalkThrough(m, g, root, top, t, x);
      }
    }
  }

  /** `s'` is `s` except that `run` entries from `index` on, none of them a table, were rewritten. */
  predicate RunRewritten(m: Mem, g: Regions, root: Frame, t: Frame, s': seq<Pte>, index: nat, run: nat)
    requires t in g && t in m
  {
    && |s'| == |m[t]| == ENTRIES && index + run <= ENTRIES
    && (forall k | 0 <= k < ENTRIES && !(index <= k < index + run) :: s'[k] == m[t][k])
    && (forall k | index <= k < index + run :: !m[t][k].Table? && !s'[k].Table? && EntryOk(m, g, root, t, s'[k], k))
  }

  /** A page of a run of entries is in one of its entries. */
  lemma InRun(x: nat, base: nat, index: nat, run: nat, l: nat)
    requires Aligned(base, l) && index + run <= ENTRIES && Covers(base, l, x)
    ensures SlotBase(base, index, l) <= x < SlotBase(base, index + run, l) <==> index <= Index(x, l) < index + run
  {
    var i := Index(x, l);
    SlotOfIndex(x, base, l);
    if i < index { MulMono(i + 1, index, Size(l)); } else { MulMono(index, i, Size(l)); }
    if i < index + run { MulMono(i + 1, index + run, Size(l)); } else { MulMono(index + run, i, Size(l)); }
  }

  lemma RunInside(x: nat, base: nat, index: nat, run: nat, l: nat)
    requires index + run <= ENTRIES && SlotBase(base, index, l) <= x < SlotBase(base, index + run, l)
    ensures Covers(base, l, x)
  {
    MulMono(index + run, ENTRIES, Size(l));
  }

  /** What rewriting a run of entries does to the translation of `x`. */
  lemma RunWalk(m: Mem, g: Regions, root: Frame, top: nat, t: Frame, s': seq<Pte>, index: nat, run: nat, x: nat)
    requires Shape(m, g, root, top) && t in g && t in m && RunRewritten(m, g, root, t, s', index, run) && x < Space(top)
    ensures var b, l := g[t].base, g[t].level;
            if SlotBase(b, index, l) <= x < SlotBase(b, index + run, l) then
              && Aligned(b, l) && Covers(b, l, x) && index <= Index(x, l) < index + run
              && Walk(m[t := s'], root, top, x) == EntryValue(s'[Index(x, l)], l, x)
            else Walk(m[t := s'], root, top, x) == Walk(m, root, top, x)
    ensures WalkEnd(m[t := s'], root, top, x) == WalkEnd(m, root, top, x)
    ensures SlotBase(g[t].base, index, g[t].level) <= x < SlotBase(g[t].base, index + run, g[t].level) ==>
              WalkEnd(m, root, top, x) == g[t].level
  {
    hide Shape, Walk, WalkEnd, InSlot, SlotBase, Aligned, Index, EntryOk, Size;
    var b, l := g[t].base, g[t].level;
    RewriteWalk(m, g, root, top, t, s', x) by {
      assert PlainRewrite(m, g, root, t, s');
      RootCovers(m, g, root, top, x);
    }
    TableFacts(m, g, root, top, t);
    if InTable(g, t, x) {
      InRun(x, b, index, run, l);
      if index <= Index(x, l) < index + run { WalkPlain(m, g, root, top, t, x); }
    } else if SlotBase(b, index, l) <= x < SlotBase(b, index + run, l) {
      RunInside(x, b, index, run, l);
    }
  }

  lemma TableFacts(m: Mem, g: Regions, root: Frame, top: nat, t: Frame)
    requires Shape(m, g, root, top) && t in g
    ensures Aligned(g[t].base, g[t].level) && 1 <= g[t].level <= top && t in m && |m[t]| == ENTRIES && root in g
  {
    assert TableOk(m, g, root, top, t);
  }

  lemma WalkPlain(m: Mem, g: Regions, root: Frame, top: nat, t: Frame, x: nat)
    requires Shape(m, g, root, top) && t in g && InTable(g, t, x) && t in m && |m[t]| == ENTRIES
    requires !m[t][Index(x, g[t].level)].Table?
    ensures Walk(m, root, top, x) == EntryValue(m[t][Index(x, g[t].level)], g[t].level, x)
    ensures WalkEnd(m, root, top, x) == g[t].level
  {
    assert TableOk(m, g, root, top, t);
    WalkThrough(m, g, root, top, t, x);
  }

  /** Clearing a run of entries that are not tables. */
  lemma ClearRun(m0: Mem, m: Mem, g: Regions, root: Frame, top: nat, t: Frame, s': seq<Pte>, index: nat, run: nat,
                 v0: nat)
    requires Shape(m, g, root, top) && t in g && t in m && RunRewritten(m, g, root, t, s', index, run)
    requires forall k | index <= k < index + run :: s'[k].Absent?
    requires v0 <= SlotBase(g[t].base, index, g[t].level)
    requires Unmapped(m0, m, root, top, v0, SlotBase(g[t].base, index, g[t].level))
    ensures Unmapped(m0, m[t := s'], root, top, v0, SlotBase(g[t].base, index + run, g[t].level))
  {
    hide Shape, SlotBase, Size, EntryOk, Index, Space;
    var b, l, m' := g[t].base, g[t].level, m[t := s'];
    var v, v' := SlotBase(b, index, l), SlotBase(b, index + run, l);
    SlotsAscend(b, index, run, l);
    forall x: nat | x < Space(top)
      ensures Walk(m', root, top, x) == if v0 <= x < v' then None else Walk(m0, root, top, x)
    {
      RunWalk(m, g, root, top, t, s', index, run, x);
      assert Walk(m, root, top, x) == if v0 <= x < v then None else Walk(m0, root, top, x);
    }
    assert Unmapped(m0, m', root, top, v0, v');
  }

  lemma SlotsAscend(b: nat, index: nat, run: nat, l: nat)
    ensures SlotBase(b, index, l) <= SlotBase(b, index + run, l)
  {
    MulMono(index, index + run, Size(l));
  }

  /** Pointing a run of entries that are not tables at consecutive frames. */
  lemma FillRun(m0: Mem, m: Mem, g: Regions, root: Frame, top: nat, t: Frame, s': seq<Pte>, index: nat, run: nat,
                v0: nat, p0: Frame, p: Frame, prot: Prot)
    requires Shape(m, g, root, top) && t in g && t in m && RunRewritten(m, g, root, t, s', index, run)
    requires forall k | index <= k < index + run :: s'[k] == Leaf(SlotBase(p, k - index, g[t].level), prot)
    requires v0 <= SlotBase(g[t].base, index, g[t].level) && p == p0 + (SlotBase(g[t].base, index, g[t].level) - v0)
    requires Mapped(m0, m, root, top, v0, SlotBase(g[t].base, index, g[t].level), p0, prot)
    ensures Mapped(m0, m[t := s'], root, top, v0, SlotBase(g[t].base, index + run, g[t].level), p0, prot)
  {
    hide Shape, SlotBase, Size, EntryOk, Index, Aligned, Covers, Space, WalkEnd;
    var b, l, m' := g[t].base, g[t].level, m[t := s'];
    var v, v' := SlotBase(b, index, l), SlotBase(b, index + run, l);
    SlotsAscend(b, index, run, l);
    forall x: nat | x < Space(top)
      ensures Walk(m', root, top, x) == if v0 <= x < v' then Some(p0 + (x - v0), prot) else Walk(m0, root, top, x)
    {
      RunWalk(m, g, root, top, t, s', index, run, x);
      assert Walk(m, root, top, x) == if v0 <= x < v then Some(p0 + (x - v0), prot) else Walk(m0, root, top, x);
      if v <= x < v' { FilledPage(b, l, index, p, x); }
    }
    assert Mapped(m0, m', root, top, v0, v', p0, prot);
  }

  /** Rewriting entries that are not tables moves no end of a walk. */
  lemma RunFilled(m: Mem, g: Regions, root: Frame, top: nat, t: Frame, s': seq<Pte>, index: nat, run: nat)
    requires Shape(m, g, root, top) && t in g && t in m && RunRewritten(m, g, root, t, s', index, run)
    ensures Filled(m, m[t := s'], g, root, top, t, SlotBase(g[t].base, index, g[t].level),
                   SlotBase(g[t].base, index + run, g[t].level))
  {
    hide Shape, SlotBase, Size, EntryOk, Index, Aligned, Covers, Space, WalkEnd, RunRewritten, Walk, InTable;
    var m', v, v' := m[t := s'], SlotBase(g[t].base, index, g[t].level), SlotBase(g[t].base, index + run, g[t].level);
    forall x: nat | x < Space(top)
      ensures WalkEnd(m', root, top, x) == WalkEnd(m, root, top, x)
    {
      RunWalk(m, g, root, top, t, s', index, run, x);
    }
    forall x: nat | v <= x < v'
      ensures EndsIn(m, g, root, top, t, x)
    {
      RunEnds(m, g, root, top, t, s', index, run, x);
    }
  }

  lemma RunEnds(m: Mem, g: Regions, root: Frame, top: nat, t: Frame, s': seq<Pte>, index: nat, run: nat, x: nat)
    requires Shape(m, g, root, top) && t in g && t in m && RunRewritten(m, g, root, t, s', index, run)
    requires SlotBase(g[t].base, index, g[t].level) <= x < SlotBase(g[t].base, index + run, g[t].level)
    ensures x < Space(top) && InTable(g, t, x) && WalkEnd(m, root, top, x) == g[t].level
  {
    hide Shape, SlotBase, Size, EntryOk, Index, Aligned, Walk, WalkEnd;
    RunInside(x, g[t].base, index, run, g[t].level);
    WalkThrough(m, g, root, top, t, x);
    RootCovers(m, g, root, top, x);
    RunWalk(m, g, root, top, t, s', index, run, x);
  }

  lemma FilledPage(b: nat, l: nat, index: nat, p: Frame, x: nat)
    requires Aligned(b, l) && Covers(b, l, x) && index <= Index(x, l)
    ensures SlotBase(p, Index(x, l) - index, l) + x % Size(l) == p + (x - SlotBase(b, index, l))
  {
    var i, s := Index(x, l), Size(l);
    SlotOfIndex(x, b, l);
    var _ := QuotientInSlot(x, b, i, l);
    assert (i - index) * s == i * s - index * s;
  }

  // ---- splitting a leaf ----

  /** The entries that spell out a level-`l` leaf at `frame` one level down. */
  predicate SpellsOut(s: seq<Pte>, frame: Frame, prot: Prot, l: nat)
    requires l > 1
  {
    |s| == ENTRIES && forall k | 0 <= k < ENTRIES :: s[k] == Leaf(SlotBase(frame, k, l - 1), prot)
  }

  lemma {:induction false} PresentFull(s: seq<Pte>)
    requires forall i | 0 <= i < |s| :: !s[i].Absent?
    ensures Present(s) == |s|
  {
    if s != [] { PresentFull(s[..|s| - 1]); }
  }

  lemma SplitAligned(frame: Frame, k: nat, l: nat)
    requires l > 1 && frame % Size(l) == 0
    ensures SlotBase(frame, k, l - 1) % Size(l - 1) == 0
  {
    var s := Size(l - 1);
    var q := frame / Size(l);
    assert frame == q * (ENTRIES * s);
    Assoc(q, ENTRIES, s);
    assert frame + k * s == (q * ENTRIES + k) * s;
    ModMultiple(q * ENTRIES + k, s);
  }

  lemma SplitValue(b: nat, i: nat, l: nat, frame: Frame, x: nat)
    requires l > 1 && Aligned(b, l) && i < ENTRIES && InSlot(x, b, i, l)
    ensures SlotBase(frame, Index(x, l - 1), l - 1) + x % Size(l - 1) == frame + x % Size(l)
  {
    var c := SlotBase(b, i, l);
    ChildAligned(b, i, l);
    var k := Index(x, l - 1);
    SlotOfIndex(x, c, l - 1);
    var _ := QuotientInSlot(x, c, k, l - 1);
    var _ := QuotientInSlot(x, b, i, l);
  }

  /** Splitting a leaf keeps every translation. */
  lemma SplitKeeps(m: Mem, g: Regions, root: Frame, top: nat, t: Frame, i: nat, c: Frame, s: seq<Pte>)
    requires Shape(m, g, root, top) && t in g && t in m && |m[t]| == ENTRIES && i < ENTRIES && g[t].level > 1
    requires m[t][i].Leaf? && c !in m && c !in g && SpellsOut(s, m[t][i].frame, m[t][i].prot, g[t].level)
    ensures Shape(GraftMem(m, t, i, c, s), GraftRegions(g, t, i, c), root, top)
    ensures SameWalks(m, GraftMem(m, t, i, c, s), root, top)
    ensures Lowered(m, GraftMem(m, t, i, c, s), root, top, g[t].base, i, g[t].level)
  {
    hide Walk, WalkEnd, SlotBase, Size, Index, InSlot;
    var l, f := g[t].level, m[t][i].frame;
    assert TableOk(m, g, root, top, t);
    assert EntryOk(m, g, root, t, m[t][i], i);
    forall k | 0 <= k < ENTRIES
      ensures !s[k].Table? && s[k].frame % Size(l - 1) == 0
    {
      SplitAligned(f, k, l);
    }
    assert GraftOk(m, g, root, t, i, c, s);
    GraftShape(m, g, root, top, t, i, c, s);
    forall x: nat | x < Space(top)
      ensures Walk(GraftMem(m, t, i, c, s), root, top, x) == Walk(m, root, top, x)
      ensures WalkEnd(GraftMem(m, t, i, c, s), root, top, x) ==
              if InSlot(x, g[t].base, i, l) && WalkEnd(m, root, top, x) >= l then l - 1 else WalkEnd(m, root, top, x)
    {
      RootCovers(m, g, root, top, x);
      if InSlot(x, g[t].base, i, l) { SplitValue(g[t].base, i, l, f, x); }
      GraftWalk(m, g, root, top, t, i, c, s, x);
    }
  }

  /** Hanging an empty table in an absent entry keeps every translation. */
  lemma EmptyTableKeeps(m: Mem, g: Regions, root: Frame, top: nat, t: Frame, i: nat, c: Frame, s: seq<Pte>)
    requires Shape(m, g, root, top) && t in g && t in m && |m[t]| == ENTRIES && i < ENTRIES && g[t].level > 1
    requires m[t][i].Absent? && c !in m && c !in g && |s| == ENTRIES && AllAbsent(s)
    ensures Shape(GraftMem(m, t, i, c, s), GraftRegions(g, t, i, c), root, top)
    ensures SameWalks(m, GraftMem(m, t, i, c, s), root, top)
    ensures Lowered(m, GraftMem(m, t, i, c, s), root, top, g[t].base, i, g[t].level)
  {
    hide Walk, WalkEnd, SlotBase, Size, InSlot;
    var l := g[t].level;
    assert GraftOk(m, g, root, t, i, c, s);
    GraftShape(m, g, root, top, t, i, c, s);
    forall x: nat | x < Space(top)
      ensures Walk(GraftMem(m, t, i, c, s), root, top, x) == Walk(m, root, top, x)
      ensures WalkEnd(GraftMem(m, t, i, c, s), root, top, x) ==
              if InSlot(x, g[t].base, i, l) && WalkEnd(m, root, top, x) >= l then l - 1 else WalkEnd(m, root, top, x)
    {
      RootCovers(m, g, root, top, x);
      GraftWalk(m, g, root, top, t, i, c, s, x);
    }
  }

  // ---- moving the cursor ----

  lemma CursorEntry(base: nat, level: nat, index: nat, v: nat)
    requires Aligned(base, level) && index < ENTRIES && AtCursor(base, level, index, v)
    ensures Index(v, level) == index && Covers(base, level, v)
    ensures v % Size(level) == v - SlotBase(base, index, level)
    ensures Size(level) - v % Size(level) == SlotBase(base, index + 1, level) - v > 0
  {
    IndexOfSlot(v, base, index, level);
    var _ := QuotientInSlot(v, base, index, level);
    assert (index + 1) * Size(level) == index * Size(level) + Size(level);
  }

  lemma CursorAt(base: nat, level: nat, index: nat)
    requires index <= ENTRIES
    ensures AtCursor(base, level, index, SlotBase(base, index, level))
  {
    assert (index + 1) * Size(level) == index * Size(level) + Size(level);
  }

  /** The cursor after moving `adv` pages within or to the end of its entry. */
  lemma CursorSkip(base: nat, level: nat, index: nat, v: nat, adv: nat)
    requires Aligned(base, level) && index < ENTRIES && AtCursor(base, level, index, v)
    requires v + adv <= SlotBase(base, index + 1, level)
    ensures AtCursor(base, level, if v + adv == SlotBase(base, index + 1, level) then index + 1 else index, v + adv)
  {
    CursorAt(base, level, index + 1);
  }

  /** The cursor on entering the table in its entry. */
  lemma CursorDown(base: nat, level: nat, index: nat, v: nat)
    requires level > 1 && Aligned(base, level) && index < ENTRIES && AtCursor(base, level, index, v)
    ensures Aligned(SlotBase(base, index, level), level - 1)
    ensures AtCursor(SlotBase(base, index, level), level - 1, Index(v, level - 1), v)
  {
    ChildAligned(base, index, level);
    SlotOfIndex(v, SlotBase(base, index, level), level - 1);
  }

  /** The cursor on leaving a table at its end: just past the table's entry in its parent. */
  lemma CursorUp(base: nat, level: nat, index: nat, v: nat)
    requires level > 1 && Aligned(base, level) && index < ENTRIES
    requires v == SlotBase(base, index, level) + ENTRIES * Size(level - 1)
    ensures v >= Size(level) && v - Size(level) == SlotBase(base, index, level)
    ensures Index(v - Size(level), level) == index && AtCursor(base, level, index + 1, v)
  {
    CursorAt(base, level, index);
    CursorEntry(base, level, index, SlotBase(base, index, level));
    CursorAt(base, level, index + 1);
    assert (index + 1) * Size(level) == index * Size(level) + Size(level);
  }

  /** Where a table on the path hangs. */
  lemma PathParent(m: Mem, g: Regions, root: Frame, top: nat, tables: seq<Frame>, level: nat) returns (i: nat)
    requires Shape(m, g, root, top) && Path(g, root, top, tables, level) && level < top
    ensures var c, p := tables[level], tables[level + 1];
            && c in g && p in g && g[c].base == SlotBase(g[p].base, i, level + 1) && i < ENTRIES
            && Aligned(g[p].base, level + 1) && Path(g, root, top, tables, level + 1)
            && InTable(g, c, g[c].base) && i == Index(g[c].base, level + 1)
            && p in m && |m[p]| == ENTRIES && m[p][i] == Table(c)
  {
    var c, p := tables[level], tables[level + 1];
    assert TableOk(m, g, root, top, c) && TableOk(m, g, root, top, p);
    i := Index(g[c].base, level + 1);
    assert EntryOk(m, g, root, p, m[p][i], i);
  }

  lemma PathDown(g: Regions, root: Frame, top: nat, tables: seq<Frame>, level: nat, c: Frame)
    requires Path(g, root, top, tables, level) && level > 1 && c in g && c != root
    requires g[c].level == level - 1 && g[c].parent == tables[level]
    ensures Path(g, root, top, tables[level - 1 := c], level - 1)
  {
  }
}
