/** At which level the walk of each page ends once a range is mapped: leaves are as large as they can be, and what is
    outside the range is split no further than it must be. */
module PageLevels {
  import opened Bits
  import opened PageMath
  import opened PageShape
  import opened PageCount

  datatype Request = Request(vaddr: nat, paddr: Frame, length: nat, l2Leaf: bool, l3Leaf: bool)

  /** The first page of the level-`l` slot of page `x`. */
  function Start(x: nat, l: nat): (s: nat)
    ensures s <= x
  {
    x - x % Size(l)
  }

  predicate InRange(r: Request, x: nat) { r.vaddr <= x < r.vaddr + r.length }

  /** The machine has large leaves at level `l`. */
  predicate HasLeaf(r: Request, l: nat) { (l == 2 && r.l2Leaf) || (l == 3 && r.l3Leaf) }

  /** A large leaf fits around page `x` at level `l`: there are leaves of that size, all its pages are in the range and
      its frames are aligned, and no table stood in its place. */
  predicate Fits(r: Request, m0: Mem, root: Frame, top: nat, x: nat, l: nat) {
    && HasLeaf(r, l)
    && r.vaddr <= Start(x, l) && Start(x, l) + Size(l) <= r.vaddr + r.length
    && (r.paddr + (Start(x, l) - r.vaddr)) % Size(l) == 0
    && WalkEnd(m0, root, top, x) >= l
  }

  function Largest(r: Request, m0: Mem, root: Frame, top: nat, x: nat): nat {
    if Fits(r, m0, root, top, x, 3) then 3 else if Fits(r, m0, root, top, x, 2) then 2 else 1
  }

  /** The level-`l` slot of `x` has no page of the range. */
  predicate Apart(r: Request, x: nat, l: nat) {
    r.length == 0 || Start(x, l) + Size(l) <= r.vaddr || r.vaddr + r.length <= Start(x, l)
  }

  /** The highest level, `l` at most, at which the slot of `x` has no page of the range. */
  function Whole(r: Request, x: nat, l: nat): nat { if l <= 1 || Apart(r, x, l) then l else Whole(r, x, l - 1) }

  /** Where the walk of `x` ends after the range has been mapped. */
  function LevelAfter(r: Request, m0: Mem, root: Frame, top: nat, x: nat): nat {
    if InRange(r, x) then Largest(r, m0, root, top, x) else Min(WalkEnd(m0, root, top, x), Whole(r, x, top))
  }

  // ---- slots ----

  lemma StartInSlot(x: nat, base: nat, i: nat, l: nat)
    requires Aligned(base, l) && InSlot(x, base, i, l)
    ensures Start(x, l) == SlotBase(base, i, l)
  {
    var _ := QuotientInSlot(x, base, i, l);
  }

  /** Pages of the same slot have the same start, and others do not. */
  lemma SameStart(x: nat, y: nat, l: nat)
    ensures Start(x, l) == Start(y, l) <==> Start(y, l) <= x < Start(y, l) + Size(l)
    ensures Start(x, l) <= x < Start(x, l) + Size(l) && Start(x, l) % Size(l) == 0
    ensures x < y && Start(x, l) != Start(y, l) ==> Start(x, l) + Size(l) <= Start(y, l)
  {
    Multiples(x, y, Size(l));
  }

  lemma Multiples(x: nat, y: nat, s: nat)
    requires s > 0
    ensures var a, b := x - x % s, y - y % s;
            && (a == b <==> b <= x < b + s) && a <= x < a + s && a % s == 0
            && (x < y && a != b ==> a + s <= b)
  {
    var i, j := x / s, y / s;
    assert x - x % s == i * s && y - y % s == j * s;
    ModMultiple(i, s);
    if i < j { NextMultiple(i, j, s); }
    if j < i { NextMultiple(j, i, s); }
  }

  lemma NextMultiple(i: nat, j: nat, s: nat)
    requires i < j
    ensures i * s + s <= j * s
  {
    MulMono(i + 1, j, s);
  }

  /** The pages of a table are those of one slot, a level up. */
  lemma TableStart(g: Regions, t: Frame, x: nat)
    requires t in g && 1 <= g[t].level && Aligned(g[t].base, g[t].level)
    ensures InTable(g, t, x) <==> Start(x, g[t].level + 1) == g[t].base
  {
    var l, b := g[t].level + 1, g[t].base;
    assert Size(l) == ENTRIES * Size(g[t].level);
    var k := b / Size(l);
    assert b == k * Size(l);
    DivUnique(b, Size(l), k);
    SameStart(x, b, l);
  }

  // ---- the lowest table on the path ----

  predicate OnPath(g: Regions, tables: seq<Frame>, level: nat, top: nat) {
    |tables| == 6 && level <= top <= 5 && forall l | level <= l <= top :: tables[l] in g
  }

  /** The level of the lowest table on the path that covers `x`. */
  function Lowest(g: Regions, tables: seq<Frame>, level: nat, top: nat, x: nat): (l: nat)
    requires OnPath(g, tables, level, top)
    ensures level <= l <= top && (l == top || InTable(g, tables[l], x))
    ensures forall k | level <= k < l :: !InTable(g, tables[k], x)
    decreases top - level
  {
    if level == top || InTable(g, tables[level], x) then level else Lowest(g, tables, level + 1, top, x)
  }

  lemma {:induction false} SameLowest(g: Regions, g': Regions, tables: seq<Frame>, tables': seq<Frame>, level: nat,
                                      top: nat, x: nat)
    requires OnPath(g, tables, level, top) && OnPath(g', tables', level, top)
    requires forall l | level <= l <= top :: tables'[l] == tables[l] && g'[tables[l]] == g[tables[l]]
    ensures Lowest(g', tables', level, top, x) == Lowest(g, tables, level, top, x)
    decreases top - level
  {
    if level < top { SameLowest(g, g', tables, tables', level + 1, top, x); }
  }

  /** Tables further up the path cover what those further down cover. */
  lemma {:induction false} AboveCovers(m: Mem, g: Regions, root: Frame, top: nat, tables: seq<Frame>, level: nat,
                                       l: nat, x: nat)
    requires Shape(m, g, root, top) && Path(g, root, top, tables, level) && level <= l <= top
    requires InTable(g, tables[level], x)
    ensures InTable(g, tables[l], x)
    decreases l
  {
    hide Shape, Index, Size, Covers;
    if l > level {
      AboveCovers(m, g, root, top, tables, level, l - 1, x);
      ParentCovers(m, g, root, top, tables[l - 1], x);
    }
  }

  lemma {:induction false} WholeIs(r: Request, x: nat, l: nat, k: nat)
    requires 1 <= k <= l && (k == 1 || Apart(r, x, k)) && forall j | k < j <= l :: !Apart(r, x, j)
    ensures Whole(r, x, l) == k
    decreases l
  {
    if k < l { WholeIs(r, x, l - 1, k); }
  }

  /** `y` is the page of the range next to `x`. */
  predicate NextTo(r: Request, x: nat, y: nat) {
    InRange(r, y) && ((x < y && y == r.vaddr) || (x > y && y + 1 == r.vaddr + r.length))
  }

  lemma ApartIff(r: Request, x: nat, y: nat, l: nat)
    requires NextTo(r, x, y)
    ensures Apart(r, x, l) <==> Start(x, l) != Start(y, l)
  {
    SameStart(x, y, l);
    SameStart(y, x, l);
  }

  /** If the path leads to the page of the range next to `x`, the lowest table on it that covers `x` is as low as the
      slots that have no page of the range are high. */
  lemma LowestIsWhole(r: Request, m: Mem, g: Regions, root: Frame, top: nat, tables: seq<Frame>, level: nat, x: nat,
                      y: nat)
    requires Shape(m, g, root, top) && Path(g, root, top, tables, level) && OnPath(g, tables, level, top)
    requires x < Space(top) && NextTo(r, x, y) && InTable(g, tables[level], y) && Start(x, level) != Start(y, level)
    ensures Lowest(g, tables, level, top, x) == Whole(r, x, top)
  {
    hide Shape, Start, Apart, InTable, Size;
    var k := Lowest(g, tables, level, top, x);
    RootCovers(m, g, root, top, x);
    assert Apart(r, x, k) by {
      ApartIff(r, x, y, k);
      if k > level { Splits(m, g, root, top, tables, level, k, x, y); }
    }
    forall j | k < j <= top
      ensures !Apart(r, x, j)
    {
      ApartIff(r, x, y, j);
      PathFrom(g, root, top, tables, level, k);
      AboveCovers(m, g, root, top, tables, k, j - 1, x);
      Splits(m, g, root, top, tables, level, j, x, y);
    }
    WholeIs(r, x, top, k);
  }

  lemma PathFrom(g: Regions, root: Frame, top: nat, tables: seq<Frame>, level: nat, k: nat)
    requires Path(g, root, top, tables, level) && level <= k <= top
    ensures Path(g, root, top, tables, k)
  {
  }

  /** The table below level `j` of the path is the slot of `y`. */
  lemma Splits(m: Mem, g: Regions, root: Frame, top: nat, tables: seq<Frame>, level: nat, j: nat, x: nat, y: nat)
    requires Shape(m, g, root, top) && Path(g, root, top, tables, level) && level < j <= top
    requires InTable(g, tables[level], y)
    ensures InTable(g, tables[j - 1], x) <==> Start(x, j) == Start(y, j)
  {
    hide Shape, Start, InTable, Aligned, Size;
    AboveCovers(m, g, root, top, tables, level, j - 1, y);
    TableFacts(m, g, root, top, tables[j - 1]);
    TableStart(g, tables[j - 1], x);
    TableStart(g, tables[j - 1], y);
  }

  // ---- while the range is being mapped ----

  /** Where the walk of `x` ends when the pages up to `v` have been mapped. */
  function LevelNow(r: Request, m0: Mem, g: Regions, root: Frame, top: nat, tables: seq<Frame>, level: nat, v: nat,
                    x: nat): nat
    requires OnPath(g, tables, level, top)
  {
    if v == r.vaddr || x >= v then Min(WalkEnd(m0, root, top, x), Lowest(g, tables, level, top, x))
    else LevelAfter(r, m0, root, top, x)
  }

  predicate LevelAt(r: Request, m0: Mem, m: Mem, g: Regions, root: Frame, top: nat, tables: seq<Frame>, level: nat,
                    v: nat, x: nat)
    requires OnPath(g, tables, level, top)
  {
    WalkEnd(m, root, top, x) == LevelNow(r, m0, g, root, top, tables, level, v, x)
  }

  /** No leaf fits at level `l` where the path goes further down. */
  ghost predicate NoneFits(r: Request, m0: Mem, g: Regions, root: Frame, top: nat, tables: seq<Frame>, l: nat)
    requires 1 <= l <= |tables| && tables[l - 1] in g
  {
    forall x: nat | InTable(g, tables[l - 1], x) :: !Fits(r, m0, root, top, x, l)
  }

  ghost predicate Levels(r: Request, m0: Mem, m: Mem, g: Regions, root: Frame, top: nat, tables: seq<Frame>, level: nat,
                         v: nat)
  {
    && OnPath(g, tables, level, top) && r.vaddr <= v <= r.vaddr + r.length
    && (v == r.vaddr || v % Size(level) == 0)
    && (forall x: nat | x < Space(top) :: LevelAt(r, m0, m, g, root, top, tables, level, v, x))
    && (forall l | level < l <= 3 && l <= top :: NoneFits(r, m0, g, root, top, tables, l))
  }

  lemma LevelsStart(r: Request, m: Mem, g: Regions, root: Frame, top: nat, tables: seq<Frame>)
    requires Path(g, root, top, tables, top) && top >= 3
    ensures Levels(r, m, m, g, root, top, tables, top, r.vaddr)
  {
  }

  /** At the end of a table. */
  lemma LevelsUp(r: Request, m0: Mem, m: Mem, g: Regions, root: Frame, top: nat, tables: seq<Frame>, level: nat, v: nat)
    requires Shape(m, g, root, top) && Path(g, root, top, tables, level) && level < top
    requires Levels(r, m0, m, g, root, top, tables, level, v) && v > r.vaddr
    requires v == g[tables[level]].base + ENTRIES * Size(level)
    ensures Levels(r, m0, m, g, root, top, tables, level + 1, v)
  {
    hide Shape, Size, WalkEnd, Fits, LevelAfter, NoneFits, LevelAt, Lowest, Aligned, InTable, Space;
    var t := tables[level];
    TableFacts(m, g, root, top, t);
    TableEnd(g[t].base, level);
    var up := level + 1;
    forall x: nat | x < Space(top)
      ensures LevelAt(r, m0, m, g, root, top, tables, up, v, x)
    {
      PastTable(g, t, v, x);
      LevelUp(r, m0, m, g, root, top, tables, level, v, x);
    }
  }

  lemma PastTable(g: Regions, t: Frame, v: nat, x: nat)
    requires t in g && v == g[t].base + ENTRIES * Size(g[t].level)
    ensures x >= v ==> !InTable(g, t, x)
  {
  }

  lemma TableEnd(base: nat, level: nat)
    requires Aligned(base, level) && level >= 1
    ensures (base + ENTRIES * Size(level)) % Size(level + 1) == 0
  {
    var s := Size(level + 1);
    assert s == ENTRIES * Size(level);
    hide Size;
    var k := base / s;
    assert base == k * s;
    assert base + s == (k + 1) * s;
    ModMultiple(k + 1, s);
  }

  lemma LevelUp(r: Request, m0: Mem, m: Mem, g: Regions, root: Frame, top: nat, tables: seq<Frame>, level: nat, v: nat,
                x: nat)
    requires OnPath(g, tables, level, top) && level < top && LevelAt(r, m0, m, g, root, top, tables, level, v, x)
    requires v > r.vaddr && (x >= v ==> !InTable(g, tables[level], x))
    ensures LevelAt(r, m0, m, g, root, top, tables, level + 1, v, x)
  {
    hide WalkEnd, LevelAfter, InTable;
  }

  /** Down into the slot of `v`, where no leaf fits. */
  lemma LevelsDown(r: Request, m0: Mem, m: Mem, m': Mem, g: Regions, g': Regions, root: Frame, top: nat,
                   tables: seq<Frame>, level: nat, v: nat, index: nat, c: Frame)
    requires Shape(m, g, root, top) && Path(g, root, top, tables, level) && 1 < level
    requires Levels(r, m0, m, g, root, top, tables, level, v)
    requires index < ENTRIES && InSlot(v, g[tables[level]].base, index, level)
    requires Lowered(m, m', root, top, g[tables[level]].base, index, level)
    requires c in g' && g'[c].base == SlotBase(g[tables[level]].base, index, level) && g'[c].level == level - 1
    requires forall u | u in g :: u in g' && g'[u] == g[u]
    requires Leafless(r, m, tables[level], index, level, v)
    ensures Levels(r, m0, m', g', root, top, tables[level - 1 := c], level - 1, v)
  {
    hide Shape, Size, WalkEnd, Fits, LevelAfter, NoneFits, InTable, Lowered, LevelAt, Leafless, Index;
    var tables' := tables[level - 1 := c];
    var t := tables[level];
    TableFacts(m, g, root, top, t);
    var down := level - 1;
    assert OnPath(g', tables', down, top);
    LowerAligned(v, level);
    forall x: nat | x < Space(top)
      ensures LevelAt(r, m0, m', g', root, top, tables', down, v, x)
    {
      LevelDown(r, m0, m, m', g, g', root, top, tables, level, v, index, c, x);
    }
    forall l | level - 1 < l <= 3 && l <= top
      ensures NoneFits(r, m0, g', root, top, tables', l)
    {
      if l == level {
        NoneFitsHere(r, m0, m, g, g', root, top, tables, level, v, index, c);
      } else {
        SameNoneFits(r, m0, g, g', root, top, tables, tables', l);
      }
    }
  }

  lemma LowerAligned(v: nat, l: nat)
    requires l > 1
    ensures v % Size(l) == 0 ==> v % Size(l - 1) == 0
  {
    var s := Size(l - 1);
    assert Size(l) == ENTRIES * s;
    if v % Size(l) == 0 {
      var k := v / Size(l);
      Assoc(k, ENTRIES, s);
      assert v == (k * ENTRIES) * s;
      ModMultiple(k * ENTRIES, s);
    }
  }

  lemma SameNoneFits(r: Request, m0: Mem, g: Regions, g': Regions, root: Frame, top: nat, tables: seq<Frame>,
                     tables': seq<Frame>, l: nat)
    requires 1 <= l <= |tables| == |tables'| && tables[l - 1] == tables'[l - 1]
    requires tables[l - 1] in g && tables[l - 1] in g' && g'[tables[l - 1]] == g[tables[l - 1]]
    requires NoneFits(r, m0, g, root, top, tables, l)
    ensures NoneFits(r, m0, g', root, top, tables', l)
  {
    hide Fits;
  }

  /** A leaf for the slot of `v` is not possible. */
  predicate Leafless(r: Request, m: Mem, t: Frame, index: nat, level: nat, v: nat)
  {
    && t in m && |m[t]| == ENTRIES && index < ENTRIES
    && !(&& HasLeaf(r, level) && !m[t][index].Table?
         && r.vaddr <= v && v % Size(level) == 0 && (r.paddr + (v - r.vaddr)) % Size(level) == 0
         && v + Size(level) <= r.vaddr + r.length)
  }

  lemma LevelDown(r: Request, m0: Mem, m: Mem, m': Mem, g: Regions, g': Regions, root: Frame, top: nat,
                  tables: seq<Frame>, level: nat, v: nat, index: nat, c: Frame, x: nat)
    requires Shape(m, g, root, top) && Path(g, root, top, tables, level) && 1 < level
    requires Levels(r, m0, m, g, root, top, tables, level, v)
    requires index < ENTRIES && InSlot(v, g[tables[level]].base, index, level)
    requires Lowered(m, m', root, top, g[tables[level]].base, index, level)
    requires c in g' && g'[c].base == SlotBase(g[tables[level]].base, index, level) && g'[c].level == level - 1
    requires forall u | u in g :: u in g' && g'[u] == g[u]
    requires x < Space(top) && OnPath(g', tables[level - 1 := c], level - 1, top)
    ensures LevelAt(r, m0, m', g', root, top, tables[level - 1 := c], level - 1, v, x)
  {
    hide Shape, Size, WalkEnd, Fits, LevelAfter, NoneFits;
    var tables' := tables[level - 1 := c];
    var t, b := tables[level], g[tables[level]].base;
    TableFacts(m, g, root, top, t);
    assert LevelAt(r, m0, m, g, root, top, tables, level, v, x);
    ChildAligned(b, index, level);
    assert InTable(g', c, x) <==> InSlot(x, b, index, level);
    SameLowest(g, g', tables, tables', level, top, x);
    if InSlot(x, b, index, level) {
      IndexOfSlot(x, b, index, level);
      StartInSlot(x, b, index, level);
      StartInSlot(v, b, index, level);
      assert Start(v, level) <= x;
    }
  }

  lemma NoneFitsHere(r: Request, m0: Mem, m: Mem, g: Regions, g': Regions, root: Frame, top: nat, tables: seq<Frame>,
                     level: nat, v: nat, index: nat, c: Frame)
    requires Shape(m, g, root, top) && Path(g, root, top, tables, level) && 1 < level
    requires Levels(r, m0, m, g, root, top, tables, level, v)
    requires index < ENTRIES && InSlot(v, g[tables[level]].base, index, level)
    requires c in g' && g'[c].base == SlotBase(g[tables[level]].base, index, level) && g'[c].level == level - 1
    requires Leafless(r, m, tables[level], index, level, v)
    ensures NoneFits(r, m0, g', root, top, tables[level - 1 := c], level)
  {
    var tables' := tables[level - 1 := c];
    var t, b := tables[level], g[tables[level]].base;
    TableFacts(m, g, root, top, t);
    ChildAligned(b, index, level);
    forall x: nat | InTable(g', tables'[level - 1], x)
      ensures !Fits(r, m0, root, top, x, level)
    {
      NotHere(r, m0, m, g, root, top, tables, level, v, index, x);
    }
  }

  lemma NotHere(r: Request, m0: Mem, m: Mem, g: Regions, root: Frame, top: nat, tables: seq<Frame>, level: nat, v: nat,
                index: nat, x: nat)
    requires Shape(m, g, root, top) && Path(g, root, top, tables, level)
    requires Levels(r, m0, m, g, root, top, tables, level, v) && Leafless(r, m, tables[level], index, level, v)
    requires index < ENTRIES && InSlot(v, g[tables[level]].base, index, level)
    requires InSlot(x, g[tables[level]].base, index, level)
    ensures !Fits(r, m0, root, top, x, level)
  {
    hide Shape, WalkEnd, Size, Index, NoneFits, Start, Leafless, Fits, LevelAt, InTable, InSlot;
    var t := tables[level];
    TableFacts(m, g, root, top, t);
    StartInSlot(x, g[t].base, index, level);
    StartInSlot(v, g[t].base, index, level);
    InsideSpace(m, g, root, top, t, index, level, x);
    if Fits(r, m0, root, top, x, level) {
      OnlyTable(r, m0, m, root, top, t, index, level, v, x);
      EndsHere(r, m0, m, g, root, top, tables, level, v, x);
      EndsBelow(m, g, root, top, t, index, x);
      assert false;
    }
  }

  /** Where a leaf fits, only a table can be in its way. */
  lemma OnlyTable(r: Request, m0: Mem, m: Mem, root: Frame, top: nat, t: Frame, index: nat, level: nat, v: nat, x: nat)
    requires Leafless(r, m, t, index, level, v) && Fits(r, m0, root, top, x, level)
    requires Start(x, level) == Start(v, level) && r.vaddr <= v && (v == r.vaddr || v % Size(level) == 0)
    ensures m[t][index].Table? && v <= x && WalkEnd(m0, root, top, x) >= level
  {
    hide WalkEnd, Size;
  }

  lemma EndsHere(r: Request, m0: Mem, m: Mem, g: Regions, root: Frame, top: nat, tables: seq<Frame>, level: nat,
                 v: nat, x: nat)
    requires Levels(r, m0, m, g, root, top, tables, level, v) && v <= x < Space(top) && InTable(g, tables[level], x)
    requires WalkEnd(m0, root, top, x) >= level
    ensures WalkEnd(m, root, top, x) == level
  {
    hide WalkEnd, NoneFits, InTable, Space;
    assert LevelAt(r, m0, m, g, root, top, tables, level, v, x);
  }

  lemma InsideSpace(m: Mem, g: Regions, root: Frame, top: nat, t: Frame, index: nat, level: nat, x: nat)
    requires Shape(m, g, root, top) && t in g && g[t].level == level && index < ENTRIES
    requires InSlot(x, g[t].base, index, level)
    ensures x < Space(top) && InTable(g, t, x)
  {
    TableFacts(m, g, root, top, t);
    IndexOfSlot(x, g[t].base, index, level);
    WalkThrough(m, g, root, top, t, x);
    RootCovers(m, g, root, top, x);
  }

  /** The walks through a table's entry that is itself a table end below it. */
  lemma EndsBelow(m: Mem, g: Regions, root: Frame, top: nat, t: Frame, index: nat, x: nat)
    requires Shape(m, g, root, top) && t in g && t in m && |m[t]| == ENTRIES && index < ENTRIES
    requires m[t][index].Table? && InSlot(x, g[t].base, index, g[t].level)
    ensures WalkEnd(m, root, top, x) < g[t].level
  {
    TableFacts(m, g, root, top, t);
    IndexOfSlot(x, g[t].base, index, g[t].level);
    WalkThrough(m, g, root, top, t, x);
  }

  /** Entries of the table at the cursor were pointed at frames, up to page `v'`. */
  lemma LevelsFilled(r: Request, m0: Mem, m: Mem, m': Mem, g: Regions, root: Frame, top: nat, tables: seq<Frame>,
                     level: nat, v: nat, v': nat)
    requires Shape(m, g, root, top) && Path(g, root, top, tables, level)
    requires Levels(r, m0, m, g, root, top, tables, level, v) && SameEnds(m, m', root, top)
    requires v < v' <= r.vaddr + r.length && v' <= Space(top) && v % Size(level) == 0 && v' % Size(level) == 0
    requires forall x: nat | v <= x < v' ::
               && InTable(g, tables[level], x) && WalkEnd(m, root, top, x) == level
               && Largest(r, m0, root, top, x) == level
    ensures Levels(r, m0, m', g, root, top, tables, level, v')
  {
    hide Shape, Size, WalkEnd, Fits, NoneFits, InTable, LevelAt, Largest, Whole, Lowest, Space, LevelAfter;
    forall x: nat | x < Space(top)
      ensures LevelAt(r, m0, m', g, root, top, tables, level, v', x)
    {
      if x < r.vaddr && v == r.vaddr {
        LevelBefore(r, m0, m, m', g, root, top, tables, level, v, v', x);
      } else {
        LevelFilled(r, m0, m, m', g, root, top, tables, level, v, v', x);
      }
    }
  }

  lemma LevelBefore(r: Request, m0: Mem, m: Mem, m': Mem, g: Regions, root: Frame, top: nat, tables: seq<Frame>,
                    level: nat, v: nat, v': nat, x: nat)
    requires Shape(m, g, root, top) && Path(g, root, top, tables, level)
    requires Levels(r, m0, m, g, root, top, tables, level, v) && SameEnds(m, m', root, top)
    requires v < v' <= r.vaddr + r.length && v % Size(level) == 0 && x < v == r.vaddr && x < Space(top)
    requires InTable(g, tables[level], v)
    ensures LevelAt(r, m0, m', g, root, top, tables, level, v', x)
  {
    assert LevelAt(r, m0, m, g, root, top, tables, level, v, x);
    hide Shape, Size, WalkEnd, Fits, NoneFits, InTable, Whole, Lowest;
    LowestIsWhole(r, m, g, root, top, tables, level, x, v);
  }

  lemma LevelFilled(r: Request, m0: Mem, m: Mem, m': Mem, g: Regions, root: Frame, top: nat, tables: seq<Frame>,
                    level: nat, v: nat, v': nat, x: nat)
    requires Levels(r, m0, m, g, root, top, tables, level, v) && SameEnds(m, m', root, top)
    requires v < v' <= r.vaddr + r.length && x < Space(top) && (x < r.vaddr ==> v > r.vaddr)
    requires v <= x < v' ==> WalkEnd(m, root, top, x) == level && Largest(r, m0, root, top, x) == level
    ensures LevelAt(r, m0, m', g, root, top, tables, level, v', x)
  {
    assert LevelAt(r, m0, m, g, root, top, tables, level, v, x);
    hide Size, WalkEnd, Fits, NoneFits, InTable, Whole, Lowest, Largest;
  }

  /** The largest leaf that fits around a page of the table at the cursor is at the cursor's level if one fits there. */
  lemma LargestHere(r: Request, m0: Mem, m: Mem, g: Regions, root: Frame, top: nat, tables: seq<Frame>, level: nat,
                    v: nat, x: nat)
    requires Shape(m, g, root, top) && Path(g, root, top, tables, level) && level <= 3 <= top
    requires Levels(r, m0, m, g, root, top, tables, level, v) && InTable(g, tables[level], x)
    requires level == 1 || Fits(r, m0, root, top, x, level)
    ensures Largest(r, m0, root, top, x) == level
  {
    hide Shape, Size, WalkEnd, Fits, InTable, LevelAt;
    forall l | level < l <= 3
      ensures !Fits(r, m0, root, top, x, l)
    {
      AboveCovers(m, g, root, top, tables, level, l - 1, x);
      assert NoneFits(r, m0, g, root, top, tables, l);
    }
  }

  /** Where the range operation may stop. */
  predicate Settled(g: Regions, top: nat, tables: seq<Frame>, level: nat, v0: nat, v: nat, len: nat) {
    len == 0 ==>
      if v == v0 then level == top
      else v == Space(top) || (level < |tables| && tables[level] in g && 0 < v && InTable(g, tables[level], v - 1))
  }

  /** Pages were mapped at level 1. */
  lemma PagesFilled(r: Request, m0: Mem, m: Mem, m': Mem, g: Regions, root: Frame, top: nat, tables: seq<Frame>,
                    v: nat, v': nat)
    requires Shape(m, g, root, top) && Path(g, root, top, tables, 1) && top >= 3
    requires Levels(r, m0, m, g, root, top, tables, 1, v) && v < v' <= r.vaddr + r.length
    requires Filled(m, m', g, root, top, tables[1], v, v')
    ensures Levels(r, m0, m', g, root, top, tables, 1, v')
    ensures Settled(g, top, tables, 1, r.vaddr, v', r.vaddr + r.length - v')
  {
    hide Shape, Levels, Fits, Largest, WalkEnd, InTable, Filled;
    assert v % Size(1) == 0 && v' % Size(1) == 0;
    forall x: nat | v <= x < v'
      ensures InTable(g, tables[1], x) && WalkEnd(m, root, top, x) == 1 && Largest(r, m0, root, top, x) == 1
    {
      FilledAt(m, m', g, root, top, tables[1], v, v', x);
      LargestHere(r, m0, m, g, root, top, tables, 1, v, x);
    }
    FilledAt(m, m', g, root, top, tables[1], v, v', v' - 1);
    StaysInside(r, m0, m, g, root, top, tables, 1, v);
    LevelsFilled(r, m0, m, m', g, root, top, tables, 1, v, v');
  }

  lemma FilledAt(m: Mem, m': Mem, g: Regions, root: Frame, top: nat, t: Frame, v: nat, v': nat, x: nat)
    requires Filled(m, m', g, root, top, t, v, v') && v <= x < v'
    ensures SameEnds(m, m', root, top) && x < Space(top) && InTable(g, t, x) && WalkEnd(m, root, top, x) == g[t].level
  {
    assert EndsIn(m, g, root, top, t, x);
  }

  lemma StaysInside(r: Request, m0: Mem, m: Mem, g: Regions, root: Frame, top: nat, tables: seq<Frame>, level: nat,
                    v: nat)
    requires Levels(r, m0, m, g, root, top, tables, level, v)
    ensures r.vaddr <= v && (v == r.vaddr || v % Size(level) == 0)
  {
  }

  /** A large leaf was put at `v`. */
  lemma LeafFilled(r: Request, m0: Mem, m: Mem, m': Mem, g: Regions, root: Frame, top: nat, tables: seq<Frame>,
                   level: nat, v: nat)
    requires Shape(m, g, root, top) && Path(g, root, top, tables, level) && top >= 3 && HasLeaf(r, level)
    requires Levels(r, m0, m, g, root, top, tables, level, v) && v + Size(level) <= r.vaddr + r.length
    requires r.vaddr <= v && v % Size(level) == 0 && (r.paddr + (v - r.vaddr)) % Size(level) == 0
    requires Filled(m, m', g, root, top, tables[level], v, v + Size(level))
    ensures Levels(r, m0, m', g, root, top, tables, level, v + Size(level))
    ensures Settled(g, top, tables, level, r.vaddr, v + Size(level), r.vaddr + r.length - (v + Size(level)))
  {
    hide Shape, Levels, Fits, Largest, WalkEnd, InTable, Filled, Size;
    var v' := v + Size(level);
    NextAligned(v, Size(level));
    forall x: nat | v <= x < v'
      ensures InTable(g, tables[level], x) && WalkEnd(m, root, top, x) == level && Largest(r, m0, root, top, x) == level
    {
      FilledAt(m, m', g, root, top, tables[level], v, v', x);
      FitsHere(r, m0, m, g, root, top, tables, level, v, x);
      LargestHere(r, m0, m, g, root, top, tables, level, v, x);
    }
    FilledAt(m, m', g, root, top, tables[level], v, v', v' - 1);
    LevelsFilled(r, m0, m, m', g, root, top, tables, level, v, v');
  }

  lemma NextAligned(v: nat, s: nat)
    requires s > 0 && v % s == 0
    ensures (v + s) % s == 0
  {
    var k := v / s;
    assert v + s == (k + 1) * s;
    ModMultiple(k + 1, s);
  }

  lemma FitsHere(r: Request, m0: Mem, m: Mem, g: Regions, root: Frame, top: nat, tables: seq<Frame>, level: nat,
                 v: nat, x: nat)
    requires Levels(r, m0, m, g, root, top, tables, level, v) && HasLeaf(r, level)
    requires v + Size(level) <= r.vaddr + r.length && v <= x < v + Size(level)
    requires r.vaddr <= v && v % Size(level) == 0 && (r.paddr + (v - r.vaddr)) % Size(level) == 0
    requires x < Space(top) && InTable(g, tables[level], x) && WalkEnd(m, root, top, x) == level
    ensures Fits(r, m0, root, top, x, level)
  {
    hide WalkEnd, NoneFits, InTable, Space, Size;
    assert LevelAt(r, m0, m, g, root, top, tables, level, v, x);
    SameStart(x, v, level);
    assert Start(v, level) == v;
  }

  lemma LeaflessIf(r: Request, m: Mem, t: Frame, index: nat, level: nat, v: nat, p: Frame, len: nat)
    requires r.vaddr <= v && p == r.paddr + (v - r.vaddr) && v + len == r.vaddr + r.length
    requires t in m && |m[t]| == ENTRIES && index < ENTRIES
    requires !(HasLeaf(r, level) && !m[t][index].Table? && v % Size(level) == 0 && p % Size(level) == 0
               && len >= Size(level))
    ensures Leafless(r, m, t, index, level, v)
  {
  }

  /** When the range is mapped, every walk ends where it should. */
  lemma LevelsDone(r: Request, m0: Mem, m: Mem, g: Regions, root: Frame, top: nat, tables: seq<Frame>, level: nat,
                   x: nat)
    requires Shape(m, g, root, top) && Path(g, root, top, tables, level) && x < Space(top)
    requires Levels(r, m0, m, g, root, top, tables, level, r.vaddr + r.length)
    requires Settled(g, top, tables, level, r.vaddr, r.vaddr + r.length, 0)
    ensures WalkEnd(m, root, top, x) == LevelAfter(r, m0, root, top, x)
  {
    hide Shape, Size, WalkEnd, Fits, InTable, Lowest, Whole, Levels, Path, Space;
    var v := r.vaddr + r.length;
    LevelIs(r, m0, m, g, root, top, tables, level, v, x);
    StaysInside(r, m0, m, g, root, top, tables, level, v);
    if r.length == 0 {
      NothingToMap(r, x, top);
      TopIsLowest(g, tables, top, x);
    } else if x >= v {
      BeyondEnd(x, v, level);
      LowestIsWhole(r, m, g, root, top, tables, level, x, v - 1);
    }
  }

  lemma LevelIs(r: Request, m0: Mem, m: Mem, g: Regions, root: Frame, top: nat, tables: seq<Frame>, level: nat, v: nat,
                x: nat)
    requires Levels(r, m0, m, g, root, top, tables, level, v) && x < Space(top)
    ensures OnPath(g, tables, level, top)
    ensures WalkEnd(m, root, top, x) == LevelNow(r, m0, g, root, top, tables, level, v, x)
  {
    hide WalkEnd, NoneFits, LevelNow, Size;
    assert LevelAt(r, m0, m, g, root, top, tables, level, v, x);
  }

  lemma NothingToMap(r: Request, x: nat, l: nat)
    requires r.length == 0
    ensures Whole(r, x, l) == l
  {
  }

  lemma TopIsLowest(g: Regions, tables: seq<Frame>, top: nat, x: nat)
    requires OnPath(g, tables, top, top)
    ensures Lowest(g, tables, top, top, x) == top
  {
  }

  lemma BeyondEnd(x: nat, v: nat, l: nat)
    requires x >= v > 0 && v % Size(l) == 0
    ensures Start(x, l) != Start(v - 1, l)
  {
    SameStart(x, v, l);
    SameStart(v, x, l);
    assert Start(v, l) == v;
  }
}
