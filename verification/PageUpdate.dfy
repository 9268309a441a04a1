/** The four ways the page-table code changes tables, and what each does to every translation. */
module PageUpdate {
  import opened PageMath
  import opened PageShape

  // ---- rewriting entries that are not tables ----

  /** `s'` differs from the entries of `t` only where neither is a table. */
  predicate PlainRewrite(m: Mem, g: Regions, root: Frame, t: Frame, s': seq<Pte>)
    requires t in g && t in m
  {
    && |s'| == |m[t]| == ENTRIES
    && forall i | 0 <= i < ENTRIES ::
         s'[i] == m[t][i] || (!s'[i].Table? && !m[t][i].Table? && EntryOk(m, g, root, t, s'[i], i))
  }

  lemma RewriteShape(m: Mem, g: Regions, root: Frame, top: nat, t: Frame, s': seq<Pte>)
    requires Shape(m, g, root, top) && t in g && t in m && PlainRewrite(m, g, root, t, s')
    ensures Shape(m[t := s'], g, root, top)
  {
    var m' := m[t := s'];
    forall u | u in g
      ensures TableOk(m', g, root, top, u)
    {
      assert TableOk(m, g, root, top, u);
      assert u == root || ParentOk(m', g, u);
      forall i | 0 <= i < ENTRIES
        ensures EntryOk(m', g, root, u, m'[u][i], i)
      {
        assert EntryOk(m, g, root, u, m[u][i], i);
      }
    }
  }

  lemma RewriteWalk(m: Mem, g: Regions, root: Frame, top: nat, t: Frame, s': seq<Pte>, x: nat)
    requires Shape(m, g, root, top) && t in g && t in m && PlainRewrite(m, g, root, t, s') && InTable(g, root, x)
    ensures var l := g[t].level;
            Walk(m[t := s'], root, top, x) ==
            if InTable(g, t, x) && s'[Index(x, l)] != m[t][Index(x, l)] then EntryValue(s'[Index(x, l)], l, x)
            else Walk(m, root, top, x)
    ensures WalkEnd(m[t := s'], root, top, x) == WalkEnd(m, root, top, x)
  {
    var m', l := m[t := s'], g[t].level;
    RewriteShape(m, g, root, top, t, s');
    forall u | u in g
      ensures u in m' && |m'[u]| == ENTRIES && u in m && |m[u]| == ENTRIES
    {
      assert TableOk(m, g, root, top, u);
      assert TableOk(m', g, root, top, u);
    }
    if InTable(g, t, x) && s'[Index(x, l)] != m[t][Index(x, l)] {
      WalkThrough(m, g, root, top, t, x);
      WalkThrough(m', g, root, top, t, x);
    } else {
      WalkFrame(m, m', g, root, top, root, x);
    }
  }

  // ---- hanging a new table where there was none ----

  /** A fresh table `c` with entries `s'` may replace entry `i` of `t`. */
  predicate GraftOk(m: Mem, g: Regions, root: Frame, t: Frame, i: nat, c: Frame, s': seq<Pte>)
  {
    && t in g && t in m && |m[t]| == |s'| == ENTRIES && i < ENTRIES && g[t].level > 1
    && c !in m && c !in g && !m[t][i].Table?
    && forall k | 0 <= k < ENTRIES ::
         !s'[k].Table? && (s'[k].Leaf? ==> g[t].level - 1 <= 3 && s'[k].frame % Size(g[t].level - 1) == 0)
  }

  function GraftMem(m: Mem, t: Frame, i: nat, c: Frame, s': seq<Pte>): Mem
    requires t in m && i < |m[t]|
  {
    m[c := s'][t := m[t][i := Table(c)]]
  }

  function GraftRegions(g: Regions, t: Frame, i: nat, c: Frame): Regions
    requires t in g && g[t].level > 1
  {
    g[c := Region(g[t].level - 1, SlotBase(g[t].base, i, g[t].level), t)]
  }

  lemma GraftShape(m: Mem, g: Regions, root: Frame, top: nat, t: Frame, i: nat, c: Frame, s': seq<Pte>)
    requires Shape(m, g, root, top) && GraftOk(m, g, root, t, i, c, s')
    ensures Shape(GraftMem(m, t, i, c, s'), GraftRegions(g, t, i, c), root, top)
  {
    var m', g' := GraftMem(m, t, i, c, s'), GraftRegions(g, t, i, c);
    assert TableOk(m, g, root, top, t);
    assert TableOk(m, g, root, top, root);
    GraftedChild(m, g, root, top, t, i, c, s');
    forall u | u in g'
      ensures TableOk(m', g', root, top, u)
    {
      if u != c { GraftedOther(m, g, root, top, t, i, c, s', u); }
    }
  }

  lemma GraftedOther(m: Mem, g: Regions, root: Frame, top: nat, t: Frame, i: nat, c: Frame, s': seq<Pte>, u: Frame)
    requires Shape(m, g, root, top) && GraftOk(m, g, root, t, i, c, s') && u in g
    ensures TableOk(GraftMem(m, t, i, c, s'), GraftRegions(g, t, i, c), root, top, u)
  {
    hide SlotBase, Size, Aligned, Covers, Index;
    var m', g' := GraftMem(m, t, i, c, s'), GraftRegions(g, t, i, c);
    assert TableOk(m, g, root, top, t) && TableOk(m, g, root, top, root) && TableOk(m, g, root, top, u);
    GraftedParent(m, g, root, top, t, i, c, s', u);
    hide ParentOk;
    forall k | 0 <= k < ENTRIES
      ensures EntryOk(m', g', root, u, m'[u][k], k)
    {
      assert EntryOk(m, g, root, u, m[u][k], k);
    }
  }

  lemma GraftedParent(m: Mem, g: Regions, root: Frame, top: nat, t: Frame, i: nat, c: Frame, s': seq<Pte>, u: Frame)
    requires Shape(m, g, root, top) && GraftOk(m, g, root, t, i, c, s') && u in g
    ensures u == root || ParentOk(GraftMem(m, t, i, c, s'), GraftRegions(g, t, i, c), u)
  {
    hide SlotBase, Size, Aligned, Covers, Index, EntryOk;
    assert TableOk(m, g, root, top, u);
  }

  lemma GraftedChild(m: Mem, g: Regions, root: Frame, top: nat, t: Frame, i: nat, c: Frame, s': seq<Pte>)
    requires Shape(m, g, root, top) && GraftOk(m, g, root, t, i, c, s')
    ensures TableOk(GraftMem(m, t, i, c, s'), GraftRegions(g, t, i, c), root, top, c)
  {
    var m', g' := GraftMem(m, t, i, c, s'), GraftRegions(g, t, i, c);
    var l, b := g[t].level, SlotBase(g[t].base, i, g[t].level);
    assert TableOk(m, g, root, top, t);
    ChildAligned(g[t].base, i, l);
    assert InSlot(b, g[t].base, i, l) by { assert Covers(b, l - 1, b); }
    IndexOfSlot(b, g[t].base, i, l);
    assert ParentOk(m', g', c);
    assert forall k | 0 <= k < ENTRIES :: EntryOk(m', g', root, c, m'[c][k], k);
  }

  /** Grafting a table that spells out the old entry changes no translation. */
  lemma GraftWalk(m: Mem, g: Regions, root: Frame, top: nat, t: Frame, i: nat, c: Frame, s': seq<Pte>, x: nat)
    requires Shape(m, g, root, top) && GraftOk(m, g, root, t, i, c, s') && InTable(g, root, x)
    requires var l := g[t].level;
             InSlot(x, g[t].base, i, l) ==> EntryValue(s'[Index(x, l - 1)], l - 1, x) == EntryValue(m[t][i], l, x)
    ensures Walk(GraftMem(m, t, i, c, s'), root, top, x) == Walk(m, root, top, x)
    ensures WalkEnd(GraftMem(m, t, i, c, s'), root, top, x) ==
            if InSlot(x, g[t].base, i, g[t].level) then g[t].level - 1 else WalkEnd(m, root, top, x)
    ensures InSlot(x, g[t].base, i, g[t].level) ==> WalkEnd(m, root, top, x) == g[t].level
  {
    hide Size, Index, Aligned, InSlot, Covers, ParentOk, EntryOk;
    var m', g' := GraftMem(m, t, i, c, s'), GraftRegions(g, t, i, c);
    var l := g[t].level;
    assert TableOk(m, g, root, top, t);
    GraftShape(m, g, root, top, t, i, c, s');
    forall u | u in g
      ensures u in m' && |m'[u]| == ENTRIES && u in m && |m[u]| == ENTRIES
    {
      assert TableOk(m, g, root, top, u);
    }
    if InSlot(x, g[t].base, i, l) {
      IndexOfSlot(x, g[t].base, i, l);
      ChildAligned(g[t].base, i, l);
      WalkThrough(m, g, root, top, t, x);
      WalkThrough(m', g', root, top, c, x);
    } else {
      if InTable(g, t, x) { SlotOfIndex(x, g[t].base, l); }
      WalkFrame(m, m', g, root, top, root, x);
    }
  }

  // ---- unlinking an empty table ----

  predicate AllAbsent(s: seq<Pte>) { forall i | 0 <= i < |s| :: s[i].Absent? }

  predicate PruneOk(m: Mem, g: Regions, root: Frame, c: Frame) {
    && c in g && c != root && c in m && AllAbsent(m[c])
    && g[c].parent in g && g[c].parent in m && |m[g[c].parent]| == ENTRIES && g[g[c].parent].level == g[c].level + 1
  }

  function PruneMem(m: Mem, g: Regions, c: Frame): Mem
    requires c in g && g[c].parent in m && |m[g[c].parent]| == ENTRIES
  {
    var p := g[c].parent;
    m[p := m[p][Index(g[c].base, g[c].level + 1) := Absent]] - {c}
  }

  lemma PruneShape(m: Mem, g: Regions, root: Frame, top: nat, c: Frame)
    requires Shape(m, g, root, top) && PruneOk(m, g, root, c)
    ensures Shape(PruneMem(m, g, c), g - {c}, root, top)
  {
    var m', g' := PruneMem(m, g, c), g - {c};
    forall u | u in g'
      ensures TableOk(m', g', root, top, u)
    {
      PrunedOther(m, g, root, top, c, u);
    }
  }

  lemma PrunedOther(m: Mem, g: Regions, root: Frame, top: nat, c: Frame, u: Frame)
    requires Shape(m, g, root, top) && PruneOk(m, g, root, c) && u in g && u != c
    ensures TableOk(PruneMem(m, g, c), g - {c}, root, top, u)
  {
    hide SlotBase, Size, Aligned, Covers, Index;
    var m', g' := PruneMem(m, g, c), g - {c};
    var p := g[c].parent;
    var i := Index(g[c].base, g[c].level + 1);
    assert TableOk(m, g, root, top, c) && TableOk(m, g, root, top, p) && TableOk(m, g, root, top, u);
    if u != root {
      assert g[u].parent != c;
      assert g[u].parent == p ==> Index(g[u].base, g[p].level) != i;
      assert ParentOk(m', g', u);
    }
    forall k | 0 <= k < ENTRIES
      ensures EntryOk(m', g', root, u, m'[u][k], k)
    {
      assert EntryOk(m, g, root, u, m[u][k], k);
      if m[u][k] == Table(c) { OnlyEntry(m, g, root, top, u, k, c); }
    }
  }

  /** Only one entry points to a table. */
  lemma OnlyEntry(m: Mem, g: Regions, root: Frame, top: nat, u: Frame, k: nat, c: Frame)
    requires Shape(m, g, root, top) && u in g && c in g && k < ENTRIES
    requires TableOk(m, g, root, top, u) && m[u][k] == Table(c)
    ensures u == g[c].parent && k == Index(g[c].base, g[c].level + 1)
  {
    assert EntryOk(m, g, root, u, m[u][k], k);
    var l := g[u].level;
    ChildAligned(g[u].base, k, l);
    assert InSlot(g[c].base, g[u].base, k, l) by { assert Covers(g[c].base, l - 1, g[c].base); }
    IndexOfSlot(g[c].base, g[u].base, k, l);
  }

  lemma PruneWalk(m: Mem, g: Regions, root: Frame, top: nat, c: Frame, x: nat)
    requires Shape(m, g, root, top) && PruneOk(m, g, root, c) && InTable(g, root, x)
    ensures Walk(PruneMem(m, g, c), root, top, x) == Walk(m, root, top, x)
  {
    var m', g' := PruneMem(m, g, c), g - {c};
    var p := g[c].parent;
    PruneShape(m, g, root, top, c);
    forall u | u in g'
      ensures u in m' && |m'[u]| == ENTRIES && u in m && |m[u]| == ENTRIES
    {
      assert TableOk(m, g, root, top, u);
      assert TableOk(m', g', root, top, u);
    }
    if InTable(g, c, x) {
      assert TableOk(m, g, root, top, c);
      WalkThrough(m, g, root, top, c, x);
      ParentCovers(m, g, root, top, c, x);
      OnlyEntry(m, g, root, top, p, Index(x, g[p].level), c);
      WalkThrough(m', g', root, top, p, x);
    } else {
      forall u | u in g' && InTable(g', u, x)
        ensures SameEntry(m', m, g', u, x)
      {
        if u == p && Index(x, g[p].level) == Index(g[c].base, g[c].level + 1) {
          EntryOutside(m, g, root, top, c, x);
        }
      }
      WalkFrame(m', m, g', root, top, root, x);
    }
  }

  /** A page in the parent's entry for `c` is covered by `c`. */
  lemma EntryOutside(m: Mem, g: Regions, root: Frame, top: nat, c: Frame, x: nat)
    requires Shape(m, g, root, top) && c in g && c != root && g[c].parent in g && InTable(g, g[c].parent, x)
    requires g[g[c].parent].level == g[c].level + 1 && Index(x, g[c].level + 1) == Index(g[c].base, g[c].level + 1)
    ensures InTable(g, c, x)
  {
    var p := g[c].parent;
    var l := g[p].level;
    assert TableOk(m, g, root, top, c) && TableOk(m, g, root, top, p);
    var i := Index(g[c].base, l);
    assert EntryOk(m, g, root, p, m[p][i], i);
    SlotOfIndex(x, g[p].base, l);
    ChildAligned(g[p].base, i, l);
  }
}
