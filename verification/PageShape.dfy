/** Page tables in memory: which tables exist, how they hang together, and what a page translates to. */
module PageShape {
  import opened PageMath

  type Frame = nat
  type Prot = nat

  datatype Pte = Absent | Leaf(frame: Frame, prot: Prot) | Table(child: Frame)

  datatype Mapping = None | Some(frame: Frame, prot: Prot)

  /** Where a table sits: its level, the first page it covers and the table that points to it. */
  datatype Region = Region(level: nat, base: nat, parent: Frame)

  type Mem = map<Frame, seq<Pte>>
  type Regions = map<Frame, Region>

  // ---- translation ----

  /** What a page in entry `e` of a level-`l` table translates to, `e` not being a table. */
  function EntryValue(e: Pte, l: nat, x: nat): Mapping {
    match e
    case Leaf(f, p) => Some(f + x % Size(l), p)
    case _ => None
  }

  /** The table walk from table `t` at level `l`. */
  function Walk(m: Mem, t: Frame, l: nat, x: nat): Mapping
    decreases l
  {
    if t !in m || |m[t]| != ENTRIES || l == 0 then None
    else
      var e := m[t][Index(x, l)];
      if e.Table? then Walk(m, e.child, l - 1, x) else EntryValue(e, l, x)
  }

  /** The level at which that walk ends, at a leaf or an absent entry. */
  function WalkEnd(m: Mem, t: Frame, l: nat, x: nat): (e: nat)
    ensures e <= l
    decreases l
  {
    if t !in m || |m[t]| != ENTRIES || l == 0 then l
    else
      var e := m[t][Index(x, l)];
      if e.Table? then WalkEnd(m, e.child, l - 1, x) else l
  }

  // ---- well-formed tables ----

  predicate EntryOk(m: Mem, g: Regions, root: Frame, t: Frame, e: Pte, i: nat)
    requires t in g
  {
    match e
    case Absent => true
    case Leaf(f, _) => g[t].level <= 3 && f % Size(g[t].level) == 0
    case Table(c) =>
      g[t].level > 1 && c in g && c != root && g[c] == Region(g[t].level - 1, SlotBase(g[t].base, i, g[t].level), t)
  }

  /** The parent of `t` covers it and its entry for that place points to `t`. */
  predicate ParentOk(m: Mem, g: Regions, t: Frame)
    requires t in g
  {
    var p := g[t].parent;
    && p in g && g[p].level == g[t].level + 1 && p in m && |m[p]| == ENTRIES
    && Covers(g[p].base, g[p].level, g[t].base)
    && m[p][Index(g[t].base, g[p].level)] == Table(t)
  }

  predicate TableOk(m: Mem, g: Regions, root: Frame, top: nat, t: Frame)
    requires t in g
  {
    && t in m && |m[t]| == ENTRIES && 1 <= g[t].level <= top && Aligned(g[t].base, g[t].level)
    && (t == root || ParentOk(m, g, t))
    && forall i | 0 <= i < ENTRIES :: EntryOk(m, g, root, t, m[t][i], i)
  }

  /** The tables in `g` form one radix tree with `root` at level `top`. */
  predicate Shape(m: Mem, g: Regions, root: Frame, top: nat) {
    && root in g && g[root].level == top && g[root].base == 0
    && forall t | t in g :: TableOk(m, g, root, top, t)
  }

  predicate InTable(g: Regions, t: Frame, x: nat)
    requires t in g
  {
    Covers(g[t].base, g[t].level, x)
  }

  lemma ChildCovers(m: Mem, g: Regions, root: Frame, top: nat, t: Frame, x: nat)
    requires Shape(m, g, root, top) && t in g && InTable(g, t, x) && m[t][Index(x, g[t].level)].Table?
    ensures var c := m[t][Index(x, g[t].level)].child;
            c in g && InTable(g, c, x) && g[c].level == g[t].level - 1
  {
    var l, i := g[t].level, Index(x, g[t].level);
    assert TableOk(m, g, root, top, t);
    assert EntryOk(m, g, root, t, m[t][i], i);
    SlotOfIndex(x, g[t].base, l);
    ChildAligned(g[t].base, i, l);
  }

  /** Both memories hold the table `u`, with the same entry for page `x`. */
  predicate SameEntry(m: Mem, m': Mem, g: Regions, u: Frame, x: nat)
    requires u in g
  {
    && u in m && |m[u]| == ENTRIES && u in m' && |m'[u]| == ENTRIES
    && m'[u][Index(x, g[u].level)] == m[u][Index(x, g[u].level)]
  }

  /** A walk only depends on the entries for `x` in the tables covering `x`. */
  lemma {:induction false} WalkFrame(m: Mem, m': Mem, g: Regions, root: Frame, top: nat, t: Frame, x: nat)
    requires Shape(m, g, root, top) && t in g && InTable(g, t, x)
    requires forall u | u in g && InTable(g, u, x) :: SameEntry(m, m', g, u, x)
    ensures Walk(m', t, g[t].level, x) == Walk(m, t, g[t].level, x)
    ensures WalkEnd(m', t, g[t].level, x) == WalkEnd(m, t, g[t].level, x)
    decreases g[t].level
  {
    hide Size, Index, Aligned, Covers, SlotBase, ParentOk, EntryOk, InTable;
    assert TableOk(m, g, root, top, t);
    assert SameEntry(m, m', g, t, x);
    var e := m[t][Index(x, g[t].level)];
    if e.Table? {
      ChildCovers(m, g, root, top, t, x);
      WalkFrame(m, m', g, root, top, e.child, x);
    }
  }

  lemma ParentCovers(m: Mem, g: Regions, root: Frame, top: nat, t: Frame, x: nat)
    requires Shape(m, g, root, top) && t in g && t != root && InTable(g, t, x)
    ensures var p := g[t].parent;
            p in g && InTable(g, p, x) && g[p].level == g[t].level + 1 && p in m && |m[p]| == ENTRIES
            && m[p][Index(x, g[p].level)] == Table(t)
  {
    assert TableOk(m, g, root, top, t);
    var p := g[t].parent;
    assert TableOk(m, g, root, top, p);
    var l := g[p].level;
    var i := Index(g[t].base, l);
    assert EntryOk(m, g, root, p, m[p][i], i);
    ChildAligned(g[p].base, i, l);
    assert Covers(SlotBase(g[p].base, i, l), l - 1, x);
    IndexOfSlot(x, g[p].base, i, l);
  }

  /** Every table is on the walk of the pages it covers. */
  lemma {:induction false} WalkThrough(m: Mem, g: Regions, root: Frame, top: nat, t: Frame, x: nat)
    requires Shape(m, g, root, top) && t in g && InTable(g, t, x)
    ensures Walk(m, root, top, x) == Walk(m, t, g[t].level, x)
    ensures WalkEnd(m, root, top, x) == WalkEnd(m, t, g[t].level, x)
    ensures InTable(g, root, x)
    decreases top - g[t].level
  {
    assert TableOk(m, g, root, top, t);
    hide Size, Index, Aligned, Covers, SlotBase, EntryOk, InTable;
    if t != root {
      ParentCovers(m, g, root, top, t, x);
      var p := g[t].parent;
      assert TableOk(m, g, root, top, p);
      WalkThrough(m, g, root, top, p, x);
    }
  }
}
