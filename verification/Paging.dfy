/** Mapping, unmapping, splitting and walking page tables in place. */
module Paging {
  import opened Bits
  import opened PageMath
  import opened PageShape
  import opened PageUpdate
  import opened PageCount
  import opened PageLevels

  const UINT32_MAX: int := 0xffff_ffff

  class PageTable {
    var mem: Mem
    var pages: map<Frame, Page>
    ghost var reg: Regions
    const root: Frame
    const top: nat
    const l2Leaf: bool
    const l3Leaf: bool

    /** The tables are well formed and counted; only the table `cursor` may be empty. Large leaves are only where the
        machine has them. */
    ghost predicate Ok(cursor: Frame)
      reads this
    {
      && Shape(mem, reg, root, top) && 3 <= top <= 5 && mem.Keys == reg.Keys
      && RefsOk(mem, reg, pages, root, cursor) && AllLeaves(mem, reg, l2Leaf, l3Leaf)
    }

    ghost predicate Valid()
      reads this
    {
      Ok(root)
    }

    /** What page `x` maps to. */
    ghost function Translate(x: nat): Mapping
      reads this
    {
      Walk(mem, root, top, x)
    }

    // ---- reference counts ----

    method UpdateRefcnt(f: Frame, amount: int)
      requires f in pages
      requires f == root || pages[f].pinned || pages[f].refCount + amount >= 0
      modifies this`pages
      ensures pages == old(pages)[f := Counted(old(pages)[f], amount)]
    {
      if !pages[f].pinned {
        pages := pages[f := pages[f].(refCount := pages[f].refCount + amount)];
      }
    }

    method GetRefcnt(f: Frame) returns (n: int)
      requires f in pages
      ensures n == if pages[f].pinned then UINT32_MAX else pages[f].refCount
    {
      n := if pages[f].pinned then UINT32_MAX else pages[f].refCount;
    }

    /** Unlinks and frees the table at `level` if it is counted and empty. */
    method TryFreeTable(tables: seq<Frame>, level: nat, v: nat) returns (freed: bool)
      requires Path(reg, root, top, tables, level) && Ok(tables[level]) && InTable(reg, tables[level], v)
      modifies this`mem, this`pages, this`reg
      ensures SameWalks(old(mem), mem, root, top)
      ensures freed ==> Path(reg, root, top, tables, level + 1) && Ok(tables[level + 1])
                        && reg == old(reg) - {tables[level]}
      ensures !freed ==> mem == old(mem) && pages == old(pages) && reg == old(reg) && Valid()
    {
      hide Shape, RefsOk, Walk, Path, SameWalks, InTable, Present, Size, PruneOk, AllLeaves;
      PathTop(reg, root, top, tables, level);
      freed := level < top;
      if freed {
        PathFacts(mem, reg, pages, root, top, tables, level);
        var n := GetRefcnt(tables[level]);
        freed := n == 0;
      }
      if !freed {
        KeptTable(mem, reg, pages, root, top, tables, level);
        SameWalksRefl(mem, root, top);
        return;
      }
      var c, p := tables[level], tables[level + 1];
      PruneFacts(mem, reg, pages, root, top, tables, level, v);
      mem := mem[p := mem[p][Index(v, level + 1) := Absent]];
      UpdateRefcnt(p, -1);
      mem := mem - {c};
      pages := pages - {c};
      reg := reg - {c};
      PruneAll(old(mem), old(reg), root, top, c);
      PruneLeaves(old(mem), old(reg), c, l2Leaf, l3Leaf);
    }

    // ---- new tables ----

    /** A zeroed frame that is no live table, tagged as a page table. */
    method AllocTable() returns (c: Frame)
      modifies this`mem, this`pages
      ensures c !in old(mem)
      ensures mem == old(mem)[c := seq(ENTRIES, k => Absent)] && pages == old(pages)[c := Page(false, 0)]
    {
      FreshAddress(mem.Keys);
      c :| c !in mem && c != 0;
      mem := mem[c := seq(ENTRIES, k => Absent)];
      pages := pages[c := Page(false, 0)];
    }

    /** Replaces the leaf in entry `i` of `t` by a table of smaller leaves. */
    method SplitLeaf(t: Frame, i: nat, level: nat, ghost cursor: Frame) returns (c: Frame)
      requires Ok(cursor) && t in reg && reg[t].level == level && level > 1 && i < ENTRIES && mem[t][i].Leaf?
      modifies this`mem, this`pages, this`reg
      ensures Ok(cursor) && SameWalks(old(mem), mem, root, top)
      ensures c !in old(reg) && reg == GraftRegions(old(reg), t, i, c)
      ensures mem[t] == old(mem)[t][i := Table(c)]
      ensures Lowered(old(mem), mem, root, top, reg[t].base, i, level)
    {
      hide Shape, RefsOk, Walk, Size, SlotBase, AllLeaves, Lowered;
      TableFacts(mem, reg, root, top, t);
      var entry := mem[t][i];
      c := AllocTable();
      var k := 0;
      while k < ENTRIES
        invariant 0 <= k <= ENTRIES && c in mem && |mem[c]| == ENTRIES
        invariant forall j | 0 <= j < k :: mem[c][j] == Leaf(SlotBase(entry.frame, j, level - 1), entry.prot)
        invariant mem == old(mem)[c := mem[c]] && pages == old(pages)[c := Page(false, 0)] && reg == old(reg)
      {
        mem := mem[c := mem[c][k := Leaf(SlotBase(entry.frame, k, level - 1), entry.prot)]];
        k := k + 1;
      }
      PresentFull(mem[c]);
      SplitKeeps(old(mem), reg, root, top, t, i, c, mem[c]);
      GraftRefs(old(mem), reg, old(pages), root, t, i, c, mem[c], cursor, cursor);
      GraftLeaves(old(mem), reg, t, i, c, mem[c], l2Leaf, l3Leaf);
      ghost var s := mem[c];
      UpdateRefcnt(c, ENTRIES);
      mem := mem[t := mem[t][i := Table(c)]];
      reg := GraftRegions(reg, t, i, c);
      assert mem == GraftMem(old(mem), t, i, c, s);
      assert pages == old(pages)[c := Page(false, Present(s))];
    }

    /** Hangs a new empty table in the absent entry `i` of the table `t` at the cursor. */
    method LinkTable(t: Frame, i: nat, level: nat) returns (c: Frame)
      requires Ok(t) && t in reg && reg[t].level == level && level > 1 && i < ENTRIES && mem[t][i].Absent?
      modifies this`mem, this`pages, this`reg
      ensures Ok(c) && SameWalks(old(mem), mem, root, top)
      ensures c !in old(reg) && reg == GraftRegions(old(reg), t, i, c)
      ensures mem[t] == old(mem)[t][i := Table(c)]
      ensures Lowered(old(mem), mem, root, top, reg[t].base, i, level)
    {
      hide Shape, RefsOk, Walk, Size, SlotBase, AllLeaves, Lowered;
      TableFacts(mem, reg, root, top, t);
      c := AllocTable();
      PresentZero(mem[c]);
      EmptyTableKeeps(old(mem), reg, root, top, t, i, c, mem[c]);
      GraftRefs(old(mem), reg, old(pages), root, t, i, c, mem[c], t, c);
      GraftLeaves(old(mem), reg, t, i, c, mem[c], l2Leaf, l3Leaf);
      mem := mem[t := mem[t][i := Table(c)]];
      UpdateRefcnt(t, 1);
      reg := GraftRegions(reg, t, i, c);
    }

    // ---- unmapping ----

    /** The loop of `UnmapRange`: the cursor is at page `v` and the pages from `v0` up to it are unmapped. */
    ghost predicate Unmapping(m0: Mem, tables: seq<Frame>, level: nat, index: nat, v0: nat, v: nat)
      reads this
    {
      && Path(reg, root, top, tables, level) && Ok(tables[level])
      && index <= ENTRIES && AtCursor(reg[tables[level]].base, level, index, v)
      && v0 <= v && Unmapped(m0, mem, root, top, v0, v)
    }

    /** At the end of a table: free it if it is empty and go up. */
    method UnmapUp(tables: seq<Frame>, level: nat, v: nat, ghost m0: Mem, ghost v0: nat) returns (index: nat)
      requires level < top && Unmapping(m0, tables, level, ENTRIES, v0, v)
      modifies this`mem, this`pages, this`reg
      ensures Unmapping(m0, tables, level + 1, index, v0, v)
    {
      hide Shape, RefsOk, Walk, Size, SlotBase, Path, Unmapped, InSlot, Covers, Index, SameWalks, AllLeaves;
      PathTop(reg, root, top, tables, level);
      ghost var i := PathParent(mem, reg, root, top, tables, level);
      ghost var pb := reg[tables[level + 1]].base;
      EndOfTable(reg[tables[level]].base, level, v);
      CursorUp(pb, level + 1, i, v);
      ghost var m := mem;
      var _ := TryFreeTable(tables, level, v - Size(level + 1));
      SameUnmapped(m0, m, mem, root, top, v0, v);
      OkAnywhere(mem, reg, pages, root, tables[level + 1]);
      index := Index(v - Size(level + 1), level + 1) + 1;
    }

    /** Nothing left to unmap: free the tables that became empty, bottom up. */
    method FreeUpwards(tables: seq<Frame>, level0: nat, v: nat)
      requires Path(reg, root, top, tables, level0) && Ok(tables[level0]) && InTable(reg, tables[level0], v)
      modifies this`mem, this`pages, this`reg
      ensures Valid() && SameWalks(old(mem), mem, root, top)
    {
      hide Shape, RefsOk, Walk, Size, SlotBase, Path, Index, Covers, AllLeaves;
      var level := level0;
      PathTop(reg, root, top, tables, level);
      var freed := true;
      SameWalksRefl(mem, root, top);
      while freed
        invariant SameWalks(old(mem), mem, root, top)
        invariant freed ==> level <= top < |tables| && tables[level] in reg
        invariant freed ==> Path(reg, root, top, tables, level) && Ok(tables[level]) && InTable(reg, tables[level], v)
        invariant !freed ==> Valid()
        decreases freed, top - level
      {
        ghost var m := mem;
        ParentInside(mem, reg, root, top, tables, level, v);
        freed := TryFreeTable(tables, level, v);
        SameWalksTrans(old(mem), m, mem, root, top);
        level := level + 1;
        if freed { PathTop(reg, root, top, tables, level); }
      }
    }

    /** Removes the present entries of `run` entries of a level-1 table, counting them. */
    method ClearEntries(t: Frame, index: nat, run: nat) returns (removed: int)
      requires t in mem && |mem[t]| == ENTRIES && index + run <= ENTRIES
      modifies this`mem
      ensures t in mem && mem == old(mem)[t := mem[t]] && |mem[t]| == ENTRIES
      ensures forall k | 0 <= k < ENTRIES :: mem[t][k] == if index <= k < index + run then Absent else old(mem)[t][k]
      ensures Present(mem[t]) == Present(old(mem)[t]) - removed && 0 <= removed
    {
      hide Present;
      removed := 0;
      var i := 0;
      while i < run
        invariant 0 <= i <= run && t in mem && mem == old(mem)[t := mem[t]] && |mem[t]| == ENTRIES
        invariant forall k | 0 <= k < ENTRIES :: mem[t][k] == if index <= k < index + i then Absent else old(mem)[t][k]
        invariant Present(mem[t]) == Present(old(mem)[t]) - removed && 0 <= removed
      {
        PresentUpdate(mem[t], index + i, Absent);
        if !mem[t][index + i].Absent? {
          removed := removed + 1;
        }
        mem := mem[t := mem[t][index + i := Absent]];
        i := i + 1;
      }
    }

    /** At level 1: unmap as many pages as the table and the range still hold. */
    method UnmapPages(tables: seq<Frame>, index: nat, v: nat, run: nat, ghost m0: Mem, ghost v0: nat)
      requires index < ENTRIES && index + run <= ENTRIES && Unmapping(m0, tables, 1, index, v0, v)
      modifies this`mem, this`pages
      ensures Unmapping(m0, tables, 1, index + run, v0, v + run)
    {
      hide Shape, RefsOk, Walk, Path, Unmapped, Covers, Index, Present, EntryOk, AllLeaves;
      PathTop(reg, root, top, tables, 1);
      var t := tables[1];
      ghost var b := reg[t].base;
      TableFacts(mem, reg, root, top, t);
      CursorEntry(b, 1, index, v);
      NoTablesAtOne(mem, reg, root, top, t);
      ghost var m := mem;
      var removed := ClearEntries(t, index, run);
      CursorAt(b, 1, index + run);
      RunShape(m, reg, root, top, t, mem[t], index, run);
      ClearRun(m0, m, reg, root, top, t, mem[t], index, run, v0);
      RewriteRefs(m, reg, pages, root, t, mem[t], -removed);
      RewriteLeaves(m, reg, t, mem[t], l2Leaf, l3Leaf);
      UpdateRefcnt(t, -removed);
    }

    /** A large leaf inside the range: clear its entry. */
    method UnmapLeaf(tables: seq<Frame>, level: nat, index: nat, v: nat, ghost m0: Mem, ghost v0: nat)
      requires index < ENTRIES && Unmapping(m0, tables, level, index, v0, v)
      requires mem[tables[level]][index].Leaf? && v % Size(level) == 0
      modifies this`mem, this`pages
      ensures Unmapping(m0, tables, level, index + 1, v0, v + Size(level))
    {
      hide Shape, RefsOk, Walk, Path, Unmapped, Covers, Index, Present, EntryOk, Size, SlotBase, AllLeaves;
      PathTop(reg, root, top, tables, level);
      var t := tables[level];
      ghost var b := reg[t].base;
      TableFacts(mem, reg, root, top, t);
      CursorEntry(b, level, index, v);
      ghost var m := mem;
      PresentUpdate(mem[t], index, Absent);
      mem := mem[t := mem[t][index := Absent]];
      CursorAt(b, level, index + 1);
      AbsentOk(m, reg, root, t, index);
      RunShape(m, reg, root, top, t, mem[t], index, 1);
      ClearRun(m0, m, reg, root, top, t, mem[t], index, 1, v0);
      RewriteRefs(m, reg, pages, root, t, mem[t], -1);
      EntryLeaves(m, reg, t, index, Absent, l2Leaf, l3Leaf);
      UpdateRefcnt(t, -1);
    }

    /** Into the table in entry `index`, splitting a leaf first. */
    method UnmapDown(tables: seq<Frame>, level: nat, index: nat, v: nat, ghost m0: Mem, ghost v0: nat)
        returns (tables': seq<Frame>, index': nat)
      requires index < ENTRIES && level > 1 && Unmapping(m0, tables, level, index, v0, v)
      requires !mem[tables[level]][index].Absent?
      modifies this`mem, this`pages, this`reg
      ensures Unmapping(m0, tables', level - 1, index', v0, v) && index' < ENTRIES
    {
      hide Shape, RefsOk, Walk, Path, Unmapped, Covers, Index, Present, EntryOk, Size, SlotBase, SameWalks, AllLeaves;
      hide Lowered;
      PathTop(reg, root, top, tables, level);
      var t := tables[level];
      ghost var b := reg[t].base;
      TableFacts(mem, reg, root, top, t);
      var entry := mem[t][index];
      var child;
      ghost var m, g := mem, reg;
      if entry.Leaf? {
        child := SplitLeaf(t, index, level, t);
        SameUnmapped(m0, m, mem, root, top, v0, v);
        PathKept(g, reg, root, top, tables, level, t, index, child);
      } else {
        child := entry.child;
        TableEntry(mem, reg, root, top, t, index);
      }
      NonEmpty(mem, reg, pages, root, t, index);
      OkAnywhere(mem, reg, pages, root, child);
      PathDown(reg, root, top, tables, level, child);
      CursorDown(b, level, index, v);
      tables' := tables[level - 1 := child];
      index' := Index(v, level - 1);
    }

    /** An absent entry: nothing to do up to its end or the end of the range. */
    method UnmapSkip(tables: seq<Frame>, level: nat, index: nat, v: nat, len: nat, ghost m0: Mem, ghost v0: nat)
        returns (index': nat, advance: nat)
      requires index < ENTRIES && len > 0 && Unmapping(m0, tables, level, index, v0, v)
      requires mem[tables[level]][index].Absent?
      ensures 0 < advance <= len && Unmapping(m0, tables, level, index', v0, v + advance)
    {
      hide Shape, RefsOk, Walk, Path, Unmapped, Covers, Index, Size, SlotBase, InSlot, AllLeaves;
      PathTop(reg, root, top, tables, level);
      var t := tables[level];
      ghost var b := reg[t].base;
      TableFacts(mem, reg, root, top, t);
      CursorEntry(b, level, index, v);
      var remaining := Size(level) - v % Size(level);
      advance := if len < remaining then len else remaining;
      index' := if advance == remaining then index + 1 else index;
      CursorSkip(b, level, index, v, advance);
      SkipAbsent(m0, mem, reg, root, top, t, index, v0, v, v + advance);
    }

    /** Unmaps `length` pages from `vaddr` on, splits what straddles the ends, and frees every emptied table. */
    method UnmapRange(vaddr: nat, length: nat)
      requires Valid() && vaddr < Space(top) && vaddr + length <= Space(top)
      modifies this`mem, this`pages, this`reg
      ensures Valid()
      ensures forall x: nat | x < Space(top) ::
                Translate(x) == if vaddr <= x < vaddr + length then None else old(Translate(x))
    {
      hide Shape, RefsOk, Walk, Path, Covers, Size, SlotBase, InSlot, AtCursor, Index, SameWalks, InTable, AllLeaves;
      var tables: seq<Frame> := seq(6, _ => 0)[top := root];
      var level: nat, index: nat, v: nat, len: nat := top, Index(vaddr, top), vaddr, length;
      RootCursor(mem, reg, root, top, tables, vaddr);
      while true
        invariant Unmapping(old(mem), tables, level, index, vaddr, v)
        invariant v + len == vaddr + length
        decreases len, index == ENTRIES, if index == ENTRIES then top - level else level
      {
        PathTop(reg, root, top, tables, level);
        TableFacts(mem, reg, root, top, tables[level]);
        if index == ENTRIES {
          if level == top {
            WholeSpace(mem, reg, root, top, v);
            break;
          }
          index := UnmapUp(tables, level, v, old(mem), vaddr);
          level := level + 1;
          continue;
        }
        CursorInTable(reg, tables[level], index, v);
        if len == 0 {
          ghost var m := mem;
          FreeUpwards(tables, level, v);
          SameUnmapped(old(mem), m, mem, root, top, vaddr, v);
          break;
        }
        var entry := mem[tables[level]][Index(v, level)];
        if entry.Absent? {
          var advance;
          index, advance := UnmapSkip(tables, level, index, v, len, old(mem), vaddr);
          v, len := v + advance, len - advance;
        } else if level == 1 {
          var run := if ENTRIES - index < len then ENTRIES - index else len;
          UnmapPages(tables, Index(v, level), v, run, old(mem), vaddr);
          v, len, index := v + run, len - run, index + run;
        } else if entry.Leaf? && v % Size(level) == 0 && len >= Size(level) {
          UnmapLeaf(tables, level, Index(v, level), v, old(mem), vaddr);
          v, len, index := v + Size(level), len - Size(level), index + 1;
        } else {
          tables, index := UnmapDown(tables, level, Index(v, level), v, old(mem), vaddr);
          level := level - 1;
        }
      }
      assert Unmapped(old(mem), mem, root, top, vaddr, v);
    }

    // ---- mapping ----

    /** The loop of `MapRange`: the cursor is at page `v`, and the pages of the request up to it are mapped. */
    ghost predicate Mapping(r: Request, m0: Mem, tables: seq<Frame>, level: nat, index: nat, v: nat, prot: Prot)
      reads this
    {
      && Path(reg, root, top, tables, level) && Ok(tables[level]) && r.l2Leaf == l2Leaf && r.l3Leaf == l3Leaf
      && index <= ENTRIES && AtCursor(reg[tables[level]].base, level, index, v)
      && r.vaddr <= v && Mapped(m0, mem, root, top, r.vaddr, v, r.paddr, prot)
      && Levels(r, m0, mem, reg, root, top, tables, level, v) && (index == ENTRIES ==> v > r.vaddr)
    }

    /** Points `run` entries of a level-1 table at consecutive frames, counting those that were absent. */
    method FillEntries(t: Frame, index: nat, run: nat, p: Frame, prot: Prot) returns (added: int)
      requires t in mem && |mem[t]| == ENTRIES && index + run <= ENTRIES
      modifies this`mem
      ensures t in mem && mem == old(mem)[t := mem[t]] && |mem[t]| == ENTRIES
      ensures forall k | 0 <= k < ENTRIES ::
                mem[t][k] == if index <= k < index + run then Leaf(SlotBase(p, k - index, 1), prot) else old(mem)[t][k]
      ensures Present(mem[t]) == Present(old(mem)[t]) + added && 0 <= added
    {
      hide Present;
      added := 0;
      var i := 0;
      while i < run
        invariant 0 <= i <= run && t in mem && mem == old(mem)[t := mem[t]] && |mem[t]| == ENTRIES
        invariant forall k | 0 <= k < ENTRIES ::
                    mem[t][k] == if index <= k < index + i then Leaf(p + (k - index), prot) else old(mem)[t][k]
        invariant Present(mem[t]) == Present(old(mem)[t]) + added && 0 <= added
      {
        PresentUpdate(mem[t], index + i, Leaf(p + i, prot));
        if mem[t][index + i].Absent? {
          added := added + 1;
        }
        mem := mem[t := mem[t][index + i := Leaf(p + i, prot)]];
        i := i + 1;
      }
    }

    /** At level 1: map as many pages as the table and the range still hold. */
    method MapPages(tables: seq<Frame>, index: nat, v: nat, run: nat, p: Frame, prot: Prot,
                    ghost r: Request, ghost m0: Mem)
      requires index < ENTRIES && 0 < run && index + run <= ENTRIES && v + run <= r.vaddr + r.length
      requires Mapping(r, m0, tables, 1, index, v, prot) && p == r.paddr + (v - r.vaddr)
      modifies this`mem, this`pages
      ensures Mapping(r, m0, tables, 1, index + run, v + run, prot) && Valid()
      ensures Settled(reg, top, tables, 1, r.vaddr, v + run, r.vaddr + r.length - (v + run))
    {
      hide Shape, RefsOk, Walk, WalkEnd, Path, Mapped, Covers, Index, Present, EntryOk, AllLeaves, Levels, Filled;
      PathTop(reg, root, top, tables, 1);
      var t := tables[1];
      ghost var b := reg[t].base;
      TableFacts(mem, reg, root, top, t);
      CursorEntry(b, 1, index, v);
      NoTablesAtOne(mem, reg, root, top, t);
      LeavesAtOneOk(mem, reg, root, t);
      ghost var m := mem;
      var added := FillEntries(t, index, run, p, prot);
      CursorAt(b, 1, index + run);
      RunShape(m, reg, root, top, t, mem[t], index, run);
      FillRun(m0, m, reg, root, top, t, mem[t], index, run, r.vaddr, r.paddr, p, prot);
      RunFilled(m, reg, root, top, t, mem[t], index, run);
      PagesFilled(r, m0, m, mem, reg, root, top, tables, v, v + run);
      RewriteRefs(m, reg, pages, root, t, mem[t], added);
      RewriteLeaves(m, reg, t, mem[t], l2Leaf, l3Leaf);
      UpdateRefcnt(t, added);
      NonEmpty(mem, reg, pages, root, t, index);
    }

    predicate SupportsLeaf(level: nat) {
      level == 1 || (level == 2 && l2Leaf) || (level == 3 && l3Leaf)
    }

    /** One large leaf. */
    method MapLeaf(tables: seq<Frame>, level: nat, index: nat, v: nat, p: Frame, prot: Prot,
                   ghost r: Request, ghost m0: Mem)
      requires index < ENTRIES && Mapping(r, m0, tables, level, index, v, prot) && p == r.paddr + (v - r.vaddr)
      requires !mem[tables[level]][index].Table? && level > 1 && SupportsLeaf(level)
      requires v % Size(level) == 0 && p % Size(level) == 0 && v + Size(level) <= r.vaddr + r.length
      modifies this`mem, this`pages
      ensures Mapping(r, m0, tables, level, index + 1, v + Size(level), prot) && Valid()
      ensures Settled(reg, top, tables, level, r.vaddr, v + Size(level), r.vaddr + r.length - (v + Size(level)))
    {
      hide Shape, RefsOk, Walk, WalkEnd, Path, Mapped, Covers, Index, Present, EntryOk, Size, SlotBase, InSlot;
      hide AllLeaves, Filled, Levels, Settled;
      PathTop(reg, root, top, tables, level);
      var t := tables[level];
      ghost var b := reg[t].base;
      TableFacts(mem, reg, root, top, t);
      CursorEntry(b, level, index, v);
      ghost var m := mem;
      var added := if mem[t][index].Absent? then 1 else 0;
      PresentUpdate(mem[t], index, Leaf(p, prot));
      EntryLeaves(mem, reg, t, index, Leaf(p, prot), l2Leaf, l3Leaf);
      RewriteRefs(m, reg, pages, root, t, mem[t][index := Leaf(p, prot)], added);
      ghost var counted := pages[t := Counted(pages[t], added)];
      if mem[t][index].Absent? {
        UpdateRefcnt(t, 1);
      }
      assert pages == counted;
      mem := mem[t := mem[t][index := Leaf(p, prot)]];
      CursorAt(b, level, index + 1);
      LeafPut(m0, m, reg, root, top, t, index, r.vaddr, v, r.paddr, p, prot);
      LeafFilled(r, m0, m, mem, reg, root, top, tables, level, v);
      NonEmpty(mem, reg, pages, root, t, index);
    }

    /** Into the table in entry `index`, making one or splitting a leaf first. */
    method MapDown(tables: seq<Frame>, level: nat, index: nat, v: nat, ghost r: Request, ghost m0: Mem,
                   ghost prot: Prot)
        returns (tables': seq<Frame>, index': nat)
      requires index < ENTRIES && level > 1 && Mapping(r, m0, tables, level, index, v, prot)
      requires Leafless(r, mem, tables[level], index, level, v)
      modifies this`mem, this`pages, this`reg
      ensures Mapping(r, m0, tables', level - 1, index', v, prot) && index' < ENTRIES
    {
      hide Shape, RefsOk, Walk, Path, Mapped, Covers, Present, EntryOk, Size, SlotBase, SameWalks, AllLeaves, Lowered;
      hide Levels, Leafless, Index;
      PathTop(reg, root, top, tables, level);
      var t := tables[level];
      ghost var b := reg[t].base;
      TableFacts(mem, reg, root, top, t);
      var entry := mem[t][index];
      var child;
      ghost var m, g := mem, reg;
      if entry.Absent? {
        child := LinkTable(t, index, level);
        SameMapped(m0, m, mem, root, top, r.vaddr, v, r.paddr, prot);
        PathKept(g, reg, root, top, tables, level, t, index, child);
      } else if entry.Leaf? {
        child := SplitLeaf(t, index, level, t);
        SameMapped(m0, m, mem, root, top, r.vaddr, v, r.paddr, prot);
        PathKept(g, reg, root, top, tables, level, t, index, child);
        NonEmpty(mem, reg, pages, root, t, index);
        OkAnywhere(mem, reg, pages, root, child);
      } else {
        child := entry.child;
        TableEntry(mem, reg, root, top, t, index);
        LowAlready(mem, reg, root, top, t, index);
        NonEmpty(mem, reg, pages, root, t, index);
        OkAnywhere(mem, reg, pages, root, child);
      }
      PathDown(reg, root, top, tables, level, child);
      CursorDown(b, level, index, v);
      LevelsDown(r, m0, m, mem, g, reg, root, top, tables, level, v, index, child);
      tables' := tables[level - 1 := child];
      index' := Index(v, level - 1);
    }

    /** At the end of a table: go up. */
    method MapUp(tables: seq<Frame>, level: nat, v: nat, ghost r: Request, ghost m0: Mem, ghost prot: Prot)
        returns (index: nat)
      requires level < top && Valid() && Mapping(r, m0, tables, level, ENTRIES, v, prot)
      ensures Mapping(r, m0, tables, level + 1, index, v, prot)
    {
      hide Shape, RefsOk, Walk, Size, SlotBase, Path, Mapped, InSlot, Covers, Index, AllLeaves, Levels;
      PathTop(reg, root, top, tables, level);
      ghost var i := PathParent(mem, reg, root, top, tables, level);
      EndOfTable(reg[tables[level]].base, level, v);
      LevelsUp(r, m0, mem, reg, root, top, tables, level, v);
      CursorUp(reg[tables[level + 1]].base, level + 1, i, v);
      OkAnywhere(mem, reg, pages, root, tables[level + 1]);
      index := Index(v - Size(level + 1), level + 1) + 1;
    }

    /** Maps `length` pages from `vaddr` on to the frames from `paddr` on, with large leaves where they fit. */
    method MapRange(vaddr: nat, paddr: Frame, length: nat, prot: Prot)
      requires Valid() && vaddr < Space(top) && vaddr + length <= Space(top)
      modifies this`mem, this`pages, this`reg
      ensures Valid()
      ensures forall x: nat | x < Space(top) ::
                Translate(x) == if vaddr <= x < vaddr + length then Some(paddr + (x - vaddr), prot)
                  else old(Translate(x))
      ensures var r := Request(vaddr, paddr, length, l2Leaf, l3Leaf);
              forall x: nat | x < Space(top) ::
                WalkEnd(mem, root, top, x) == LevelAfter(r, old(mem), root, top, x)
    {
      hide Shape, RefsOk, Walk, Path, Covers, Size, SlotBase, InSlot, AtCursor, Index, SameWalks, InTable;
      hide WalkEnd, Levels, Leafless, AllLeaves, LevelAfter;
      ghost var r := Request(vaddr, paddr, length, l2Leaf, l3Leaf);
      var tables: seq<Frame> := seq(6, _ => 0)[top := root];
      var level: nat, index: nat, v: nat, p: Frame, len: nat := top, Index(vaddr, top), vaddr, paddr, length;
      RootCursor(mem, reg, root, top, tables, vaddr);
      LevelsStart(r, mem, reg, root, top, tables);
      while len > 0
        invariant Mapping(r, old(mem), tables, level, index, v, prot)
        invariant index == ENTRIES || len == 0 ==> Valid()
        invariant Settled(reg, top, tables, level, vaddr, v, len)
        invariant v + len == vaddr + length && p == paddr + (v - vaddr)
        decreases len, index == ENTRIES, if index == ENTRIES then top - level else level
      {
        PathTop(reg, root, top, tables, level);
        TableFacts(mem, reg, root, top, tables[level]);
        if index == ENTRIES {
          if level == top {
            WholeSpace(mem, reg, root, top, v);
            break;
          }
          index := MapUp(tables, level, v, r, old(mem), prot);
          level := level + 1;
          continue;
        }
        CursorInTable(reg, tables[level], index, v);
        var entry := mem[tables[level]][Index(v, level)];
        if level == 1 {
          var run := if ENTRIES - index < len then ENTRIES - index else len;
          MapPages(tables, Index(v, level), v, run, p, prot, r, old(mem));
          v, p, len, index := v + run, p + run, len - run, index + run;
        } else if SupportsLeaf(level) && !entry.Table? && v % Size(level) == 0 && p % Size(level) == 0
                  && len >= Size(level) {
          MapLeaf(tables, level, Index(v, level), v, p, prot, r, old(mem));
          v, p, len, index := v + Size(level), p + Size(level), len - Size(level), index + 1;
        } else {
          LeaflessIf(r, mem, tables[level], index, level, v, p, len);
          tables, index := MapDown(tables, level, Index(v, level), v, r, old(mem), prot);
          level := level - 1;
        }
      }
      assert Mapped(old(mem), mem, root, top, vaddr, v, paddr, prot);
      forall x: nat | x < Space(top)
        ensures WalkEnd(mem, root, top, x) == LevelAfter(r, old(mem), root, top, x)
      {
        LevelsDone(r, old(mem), mem, reg, root, top, tables, level, x);
      }
    }

    // ---- lookups ----

    /** Descends to the leaf that maps page `v`, if there is one. */
    method FindLeaf(v: nat) returns (found: bool, leaf: Pte, level: nat)
      requires Valid() && v < Space(top)
      ensures found <==> Translate(v).Some?
      ensures found ==> leaf.Leaf? && 1 <= level <= 3 && leaf.frame % Size(level) == 0
      ensures found ==> Translate(v) == Some(leaf.frame + v % Size(level), leaf.prot)
      ensures found ==> level == WalkEnd(mem, root, top, v) && LeafLevel(level, l2Leaf, l3Leaf)
    {
      hide Shape, RefsOk, InTable, Index, Size;
      var table := root;
      level := top;
      leaf := Absent;
      RootCovers(mem, reg, root, top, v) by { RootInside(mem, reg, root, top); }
      RootInside(mem, reg, root, top);
      while level >= 1
        invariant level <= top && table in reg && reg[table].level == level && InTable(reg, table, v)
        invariant Walk(mem, root, top, v) == Walk(mem, table, level, v)
        invariant WalkEnd(mem, root, top, v) == WalkEnd(mem, table, level, v)
      {
        LookupFacts(mem, reg, root, top, table, v);
        var entry := mem[table][Index(v, level)];
        if entry.Absent? {
          return false, leaf, level;
        }
        if entry.Leaf? {
          return true, entry, level;
        }
        table := entry.child;
        level := level - 1;
      }
      return false, leaf, level;
    }

    /** The frame of the leaf that maps page `v`, 0 if there is none: the translation of `v` itself exactly when
        `v` is the first page of a leaf at the level where its walk ends. */
    method GetPaddr(v: nat) returns (paddr: Frame, level: nat)
      requires Valid() && v < Space(top)
      ensures Translate(v).None? ==> paddr == 0
      ensures Translate(v).Some? ==> level == WalkEnd(mem, root, top, v) && 1 <= level <= 3
      ensures Translate(v).Some? ==> paddr == Translate(v).frame - v % Size(WalkEnd(mem, root, top, v))
      ensures Translate(v).Some? ==>
                (paddr == Translate(v).frame <==> v % Size(WalkEnd(mem, root, top, v)) == 0)
    {
      var found, leaf;
      found, leaf, level := FindLeaf(v);
      paddr := if found then leaf.frame else 0;
    }

    method GetProt(v: nat) returns (prot: Prot)
      requires Valid() && v < Space(top)
      ensures prot == match Translate(v) case None => 0 case Some(_, p) => p
    {
      var found, leaf, _ := FindLeaf(v);
      prot := if found then leaf.prot else 0;
    }

    // ---- life cycle ----

    /** A new address space maps nothing. */
    constructor (root: Frame, top: nat, l2Leaf: bool, l3Leaf: bool)
      requires 3 <= top <= 5
      ensures Valid() && this.root == root && this.top == top && this.l2Leaf == l2Leaf && this.l3Leaf == l3Leaf
      ensures forall x: nat | x < Space(top) :: Translate(x) == None && WalkEnd(mem, root, top, x) == top
    {
      this.root := root;
      this.top := top;
      this.l2Leaf := l2Leaf;
      this.l3Leaf := l3Leaf;
      mem := map[root := seq(ENTRIES, _ => Absent)];
      pages := map[root := Page(false, 0)];
      reg := map[root := Region(top, 0, root)];
      new;
      EmptyRoot(mem, reg, root, top);
    }

    /** Every page is mapped at a level where the machine has leaves, provided that it has leaves at level 2 if it has
        them at level 3. */
    lemma LeavesSupported(x: nat)
      requires Valid() && x < Space(top) && Translate(x).Some? && (l3Leaf ==> l2Leaf)
      ensures SupportsLeaf(WalkEnd(mem, root, top, x))
    {
      RootInside(mem, reg, root, top);
      EndIsLeaf(mem, reg, root, top, root, x, l2Leaf, l3Leaf);
    }

    /** Once nothing is mapped, an address space without pinned tables is back to its root alone. */
    lemma NothingMappedNothingKept()
      requires Valid() && forall x: nat | x < Space(top) :: Translate(x) == None
      requires forall t | t in reg && t != root :: t in pages && !pages[t].pinned
      ensures mem.Keys == {root}
    {
      forall t | t in reg
        ensures t == root
      {
        if t != root {
          var x := MappedPage(mem, reg, pages, root, top, t);
          var mapped := Translate(x);
          assert false;
        }
      }
      RootInside(mem, reg, root, top);
    }
  }

  function Counted(p: Page, amount: int): Page {
    if p.pinned then p else p.(refCount := p.refCount + amount)
  }

  /** Where there is a table already, the walks end below. */
  lemma LowAlready(m: Mem, g: Regions, root: Frame, top: nat, t: Frame, i: nat)
    requires Shape(m, g, root, top) && t in g && t in m && |m[t]| == ENTRIES && i < ENTRIES && m[t][i].Table?
    ensures Lowered(m, m, root, top, g[t].base, i, g[t].level)
  {
    hide WalkEnd, InSlot, Shape;
    forall x: nat | x < Space(top) && InSlot(x, g[t].base, i, g[t].level)
      ensures WalkEnd(m, root, top, x) < g[t].level
    {
      EndsBelow(m, g, root, top, t, i, x);
    }
  }

  lemma PathFacts(m: Mem, g: Regions, pages: map<Frame, Page>, root: Frame, top: nat, tables: seq<Frame>, level: nat)
    requires Path(g, root, top, tables, level) && level < top
    requires Shape(m, g, root, top) && RefsOk(m, g, pages, root, tables[level])
    ensures var c, p := tables[level], tables[level + 1];
            && c in g && p in g && c in m && p in m && |m[c]| == |m[p]| == ENTRIES && c in pages && p in pages
            && c != root && g[c].parent == p && g[p].level == level + 1 && g[c].level == level
            && (pages[c].pinned || pages[c].refCount == Present(m[c]))
            && (p == root || pages[p].pinned || pages[p].refCount == Present(m[p]))
  {
    var c, p := tables[level], tables[level + 1];
    assert TableOk(m, g, root, top, c) && TableOk(m, g, root, top, p);
    assert CountOk(m, pages, c, c);
    assert p == root || CountOk(m, pages, p, c);
  }

  /** A table that is not freed is pinned, the root, or not empty. */
  lemma KeptTable(m: Mem, g: Regions, pages: map<Frame, Page>, root: Frame, top: nat, tables: seq<Frame>, level: nat)
    requires Path(g, root, top, tables, level) && Shape(m, g, root, top) && RefsOk(m, g, pages, root, tables[level])
    requires level < top ==>
               tables[level] in pages && (pages[tables[level]].pinned || pages[tables[level]].refCount != 0)
    ensures RefsOk(m, g, pages, root, root)
  {
    forall t | t in g && t != root
      ensures CountOk(m, pages, t, root)
    {
      assert CountOk(m, pages, t, tables[level]);
    }
  }

  lemma PruneFacts(m: Mem, g: Regions, pages: map<Frame, Page>, root: Frame, top: nat, tables: seq<Frame>, level: nat,
                   v: nat)
    requires Path(g, root, top, tables, level) && level < top && InTable(g, tables[level], v)
    requires Shape(m, g, root, top) && RefsOk(m, g, pages, root, tables[level])
    requires !pages[tables[level]].pinned && pages[tables[level]].refCount == 0
    ensures var c, p := tables[level], tables[level + 1];
            && PruneOk(m, g, root, c) && Index(v, level + 1) == Index(g[c].base, level + 1)
            && p in m && |m[p]| == ENTRIES && c != p
            && m[p][Index(v, level + 1)] == Table(c) && p in pages
            && (p == root || pages[p].pinned || pages[p].refCount >= 1)
            && Path(g - {c}, root, top, tables, level + 1)
            && RefsOk(PruneMem(m, g, c), g - {c}, pages[p := Counted(pages[p], -1)] - {c}, root, p)
  {
    var c, p := tables[level], tables[level + 1];
    PathFacts(m, g, pages, root, top, tables, level);
    PresentZero(m[c]);
    ParentCovers(m, g, root, top, c, v);
    OnlyEntry(m, g, root, top, p, Index(v, level + 1), c) by { assert TableOk(m, g, root, top, p); }
    PruneRefs(m, g, pages, root, c, p, Index(v, level + 1));
  }

  lemma PruneRefs(m: Mem, g: Regions, pages: map<Frame, Page>, root: Frame, c: Frame, p: Frame, i: nat)
    requires RefsOk(m, g, pages, root, c) && c in g && c != root && g[c].parent == p && p in g && p in m && p != c
    requires |m[p]| == ENTRIES && i == Index(g[c].base, g[c].level + 1) && m[p][i] == Table(c) && p in pages
    ensures p == root || pages[p].pinned || pages[p].refCount >= 1
    ensures RefsOk(PruneMem(m, g, c), g - {c}, pages[p := Counted(pages[p], -1)] - {c}, root, p)
  {
    PresentUpdate(m[p], i, Absent);
    assert p == root || CountOk(m, pages, p, c);
    hide Index;
    forall t | t in g - {c} && t != root
      ensures CountOk(PruneMem(m, g, c), pages[p := Counted(pages[p], -1)] - {c}, t, p)
    {
      assert CountOk(m, pages, t, c);
    }
  }

  lemma PruneAll(m: Mem, g: Regions, root: Frame, top: nat, c: Frame)
    requires Shape(m, g, root, top) && PruneOk(m, g, root, c)
    ensures Shape(PruneMem(m, g, c), g - {c}, root, top) && SameWalks(m, PruneMem(m, g, c), root, top)
  {
    PruneShape(m, g, root, top, c);
    forall x: nat | x < Space(top)
      ensures Walk(PruneMem(m, g, c), root, top, x) == Walk(m, root, top, x)
    {
      RootCovers(m, g, root, top, x);
      PruneWalk(m, g, root, top, c, x);
    }
  }

  /** Counts after a table `c` replaced entry `i` of `t`: a split leaf leaves the count of `t` alone, and an
      absent entry adds one. */
  lemma GraftRefs(m: Mem, g: Regions, pages: map<Frame, Page>, root: Frame, t: Frame, i: nat, c: Frame, s: seq<Pte>,
                  cursor: Frame, cursor': Frame)
    requires RefsOk(m, g, pages, root, cursor) && t in g && t in m && i < |m[t]| && g[t].level > 1 && c !in g
             && c != root
    requires !m[t][i].Table? && (m[t][i].Leaf? ==> cursor' == cursor && Present(s) > 0)
    requires m[t][i].Absent? ==> cursor == t && cursor' == c
    requires root in g
    ensures t in pages && (t == root || pages[t].pinned || pages[t].refCount >= 0)
    ensures var pages' := pages[c := Page(false, Present(s))];
            var pages'' := if m[t][i].Absent? then pages'[t := Counted(pages[t], 1)] else pages';
            RefsOk(GraftMem(m, t, i, c, s), GraftRegions(g, t, i, c), pages'', root, cursor')
  {
    PresentUpdate(m[t], i, Table(c));
    PresentSome(m[t][i := Table(c)], i);
    assert t == root || CountOk(m, pages, t, cursor);
    var pages' := pages[c := Page(false, Present(s))];
    var pages'' := if m[t][i].Absent? then pages'[t := Counted(pages[t], 1)] else pages';
    forall u | u in GraftRegions(g, t, i, c) && u != root
      ensures CountOk(GraftMem(m, t, i, c, s), pages'', u, cursor')
    {
      assert u == c || CountOk(m, pages, u, cursor);
    }
  }

  lemma PathTop(g: Regions, root: Frame, top: nat, tables: seq<Frame>, level: nat)
    requires Path(g, root, top, tables, level)
    ensures |tables| == 6 && 1 <= level <= top <= 5 && tables[top] == root && tables[level] in g
            && g[tables[level]].level == level
    ensures level < top ==> tables[level] != root && tables[level + 1] in g && g[tables[level + 1]].level == level + 1
    ensures level < top ==> g[tables[level]].parent == tables[level + 1]
  {
  }

  lemma EndOfTable(base: nat, level: nat, v: nat)
    requires AtCursor(base, level, ENTRIES, v)
    ensures v == base + ENTRIES * Size(level)
  {
  }

  lemma SameUnmapped(m0: Mem, m: Mem, m': Mem, root: Frame, top: nat, v0: nat, v: nat)
    requires Unmapped(m0, m, root, top, v0, v) && SameWalks(m, m', root, top)
    ensures Unmapped(m0, m', root, top, v0, v)
  {
    hide Walk;
  }

  lemma SameWalksRefl(m: Mem, root: Frame, top: nat)
    ensures SameWalks(m, m, root, top)
  {
  }

  lemma SameWalksTrans(m: Mem, m': Mem, m'': Mem, root: Frame, top: nat)
    requires SameWalks(m, m', root, top) && SameWalks(m', m'', root, top)
    ensures SameWalks(m, m'', root, top)
  {
    hide Walk;
  }

  lemma OkAnywhere(m: Mem, g: Regions, pages: map<Frame, Page>, root: Frame, cursor: Frame)
    ensures RefsOk(m, g, pages, root, root) ==> RefsOk(m, g, pages, root, cursor)
  {
    if RefsOk(m, g, pages, root, root) {
      forall t | t in g && t != root
        ensures CountOk(m, pages, t, cursor)
      {
        assert CountOk(m, pages, t, root);
      }
    }
  }

  /** A page of a table on the path is a page of its parent, and stays so when the table is dropped. */
  lemma ParentInside(m: Mem, g: Regions, root: Frame, top: nat, tables: seq<Frame>, level: nat, v: nat)
    requires Shape(m, g, root, top) && Path(g, root, top, tables, level) && InTable(g, tables[level], v)
    ensures level < top ==>
              var c, p := tables[level], tables[level + 1];
              p in g && p in g - {c} && InTable(g, p, v) && InTable(g - {c}, p, v)
  {
    if level < top { ParentCovers(m, g, root, top, tables[level], v); }
  }

  lemma NoTablesAtOne(m: Mem, g: Regions, root: Frame, top: nat, t: Frame)
    requires Shape(m, g, root, top) && t in g && t in m && |m[t]| == ENTRIES && g[t].level == 1
    ensures forall k | 0 <= k < ENTRIES :: !m[t][k].Table?
    ensures forall k | 0 <= k < ENTRIES :: EntryOk(m, g, root, t, Absent, k)
  {
    assert TableOk(m, g, root, top, t);
    forall k | 0 <= k < ENTRIES
      ensures !m[t][k].Table?
    {
      assert EntryOk(m, g, root, t, m[t][k], k);
    }
  }

  lemma AbsentOk(m: Mem, g: Regions, root: Frame, t: Frame, k: nat)
    requires t in g
    ensures EntryOk(m, g, root, t, Absent, k)
  {
  }

  lemma RunShape(m: Mem, g: Regions, root: Frame, top: nat, t: Frame, s': seq<Pte>, index: nat, run: nat)
    requires Shape(m, g, root, top) && t in g && t in m && RunRewritten(m, g, root, t, s', index, run)
    ensures Shape(m[t := s'], g, root, top)
  {
    assert PlainRewrite(m, g, root, t, s');
    RewriteShape(m, g, root, top, t, s');
  }

  /** Rewriting the cursor's table and adjusting its count by the change in present entries. */
  lemma RewriteRefs(m: Mem, g: Regions, pages: map<Frame, Page>, root: Frame, t: Frame, s': seq<Pte>, amount: int)
    requires RefsOk(m, g, pages, root, t) && t in g && t in m && Present(s') == Present(m[t]) + amount
    ensures t in pages && (t == root || pages[t].pinned || pages[t].refCount + amount >= 0)
    ensures RefsOk(m[t := s'], g, pages[t := Counted(pages[t], amount)], root, t)
  {
    assert t == root || CountOk(m, pages, t, t);
    forall u | u in g && u != root
      ensures CountOk(m[t := s'], pages[t := Counted(pages[t], amount)], u, t)
    {
      assert CountOk(m, pages, u, t);
    }
  }

  lemma TableEntry(m: Mem, g: Regions, root: Frame, top: nat, t: Frame, i: nat)
    requires Shape(m, g, root, top) && t in g && t in m && |m[t]| == ENTRIES && i < ENTRIES && m[t][i].Table?
    ensures var c := m[t][i].child;
            c in g && c != root && g[c] == Region(g[t].level - 1, SlotBase(g[t].base, i, g[t].level), t)
  {
    assert TableOk(m, g, root, top, t);
    assert EntryOk(m, g, root, t, m[t][i], i);
  }

  lemma PathKept(g: Regions, g': Regions, root: Frame, top: nat, tables: seq<Frame>, level: nat, t: Frame, i: nat,
                 c: Frame)
    requires Path(g, root, top, tables, level) && t in g && g[t].level > 1 && c !in g && g' == GraftRegions(g, t, i, c)
    requires root in g
    ensures Path(g', root, top, tables, level) && c in g' && c != root && t != c
    ensures g'[c] == Region(g[t].level - 1, SlotBase(g[t].base, i, g[t].level), t)
  {
  }

  /** A table with a present entry is not empty. */
  lemma NonEmpty(m: Mem, g: Regions, pages: map<Frame, Page>, root: Frame, t: Frame, i: nat)
    requires RefsOk(m, g, pages, root, t) && t in g && t in m && i < |m[t]| && !m[t][i].Absent?
    ensures RefsOk(m, g, pages, root, root)
  {
    PresentSome(m[t], i);
    forall u | u in g && u != root
      ensures CountOk(m, pages, u, root)
    {
      assert CountOk(m, pages, u, t);
    }
  }

  /** Both loops start at the root. */
  lemma RootCursor(m: Mem, g: Regions, root: Frame, top: nat, tables: seq<Frame>, v: nat)
    requires Shape(m, g, root, top) && v < Space(top) && 1 <= top <= 5 && |tables| == 6 && tables[top] == root
    ensures Path(g, root, top, tables, top) && AtCursor(g[root].base, top, Index(v, top), v)
  {
    assert TableOk(m, g, root, top, root);
    SlotOfIndex(v, 0, top);
  }

  lemma WholeSpace(m: Mem, g: Regions, root: Frame, top: nat, v: nat)
    requires Shape(m, g, root, top) && AtCursor(g[root].base, top, ENTRIES, v)
    ensures v == Space(top)
  {
  }

  lemma CursorInTable(g: Regions, t: Frame, index: nat, v: nat)
    requires t in g && Aligned(g[t].base, g[t].level) && index < ENTRIES && AtCursor(g[t].base, g[t].level, index, v)
    ensures InTable(g, t, v) && Index(v, g[t].level) == index && InSlot(v, g[t].base, index, g[t].level)
  {
    CursorEntry(g[t].base, g[t].level, index, v);
  }

  lemma SameMapped(m0: Mem, m: Mem, m': Mem, root: Frame, top: nat, v0: nat, v: nat, p0: Frame, prot: Prot)
    requires Mapped(m0, m, root, top, v0, v, p0, prot) && SameWalks(m, m', root, top)
    ensures Mapped(m0, m', root, top, v0, v, p0, prot)
  {
    hide Walk;
  }

  /** What one large leaf at `v` does. */
  lemma LeafPut(m0: Mem, m: Mem, g: Regions, root: Frame, top: nat, t: Frame, index: nat, v0: nat, v: nat, p0: Frame,
                p: Frame, prot: Prot)
    requires Shape(m, g, root, top) && t in g && t in m && |m[t]| == ENTRIES && index < ENTRIES
    requires !m[t][index].Table? && g[t].level <= 3 && p % Size(g[t].level) == 0
    requires v0 <= v == SlotBase(g[t].base, index, g[t].level) && p == p0 + (v - v0)
    requires Mapped(m0, m, root, top, v0, v, p0, prot)
    ensures var m', v' := m[t := m[t][index := Leaf(p, prot)]], SlotBase(g[t].base, index + 1, g[t].level);
            && Shape(m', g, root, top) && Mapped(m0, m', root, top, v0, v', p0, prot)
            && Filled(m, m', g, root, top, t, v, v')
  {
    hide Shape, Walk, WalkEnd, Mapped, EntryOk, Size, SlotBase, Filled;
    var s' := m[t][index := Leaf(p, prot)];
    LeafOk(m, g, root, t, p, prot, index);
    BaseSlot(p, g[t].level);
    RunShape(m, g, root, top, t, s', index, 1);
    FillRun(m0, m, g, root, top, t, s', index, 1, v0, p0, p, prot);
    RunFilled(m, g, root, top, t, s', index, 1);
  }

  lemma LeafOk(m: Mem, g: Regions, root: Frame, t: Frame, p: Frame, prot: Prot, k: nat)
    requires t in g && g[t].level <= 3 && p % Size(g[t].level) == 0
    ensures EntryOk(m, g, root, t, Leaf(p, prot), k)
  {
  }

  lemma LeavesAtOneOk(m: Mem, g: Regions, root: Frame, t: Frame)
    requires t in g && g[t].level == 1
    ensures forall p: Frame, prot: Prot, k: nat :: EntryOk(m, g, root, t, Leaf(p, prot), k)
  {
    forall p: Frame, prot: Prot, k: nat
      ensures EntryOk(m, g, root, t, Leaf(p, prot), k)
    {
      LeafOk(m, g, root, t, p, prot, k);
    }
  }

  lemma BaseSlot(p: Frame, l: nat)
    ensures SlotBase(p, 0, l) == p
  {
  }

  lemma RootInside(m: Mem, g: Regions, root: Frame, top: nat)
    requires Shape(m, g, root, top)
    ensures root in g && g[root].level == top
    ensures forall x: nat | x < Space(top) :: InTable(g, root, x)
  {
  }

  lemma LookupFacts(m: Mem, g: Regions, root: Frame, top: nat, t: Frame, v: nat)
    requires Shape(m, g, root, top) && t in g && InTable(g, t, v)
    ensures var e, l := if t in m && |m[t]| == ENTRIES then m[t][Index(v, g[t].level)] else Absent, g[t].level;
            && t in m && |m[t]| == ENTRIES && 1 <= l <= top
            && (e.Leaf? ==> l <= 3 && e.frame % Size(l) == 0)
            && (e.Table? ==> e.child in g && InTable(g, e.child, v) && g[e.child].level == l - 1)
  {
    assert TableOk(m, g, root, top, t);
    var i := Index(v, g[t].level);
    assert EntryOk(m, g, root, t, m[t][i], i);
    if m[t][i].Table? { ChildCovers(m, g, root, top, t, v); }
  }

  /** A table whose only present entry is the first. */
  function OneEntry(e: Pte): seq<Pte> { seq(ENTRIES, i => if i == 0 then e else Absent) }

  /** An address space with one large leaf, at level 2, that maps pages 0 to 511 to the frames from 512 on. */
  function OneLargeLeaf(prot: Prot): Mem { map[1 := OneEntry(Table(2)), 2 := OneEntry(Leaf(512, prot))] }

  function OneLargeRegions(): Regions { map[1 := Region(3, 0, 1), 2 := Region(2, 0, 1)] }

  lemma SmallSizes()
    ensures Size(1) == 1 && Size(2) == 512 && Size(3) == 512 * 512
    ensures Index(0, 3) == Index(1, 3) == Index(1, 2) == 0
  {
  }

  lemma OneLargeShape(prot: Prot)
    ensures Shape(OneLargeLeaf(prot), OneLargeRegions(), 1, 3)
  {
    SmallSizes();
    hide Size, Index;
    var m, g := OneLargeLeaf(prot), OneLargeRegions();
    forall t | t in g
      ensures TableOk(m, g, 1, 3, t)
    {
      assert g[t].base == 0 && Aligned(0, g[t].level);
      assert forall i | 0 < i < ENTRIES :: m[t][i].Absent?;
    }
  }

  /** Where they differ: page 1 of a large leaf translates to frame 513 while the leaf has frame 512. */
  lemma LargeLeafDiffers(prot: Prot)
    ensures var m := OneLargeLeaf(prot);
            && Shape(m, OneLargeRegions(), 1, 3) && 1 % Size(2) != 0
            && WalkEnd(m, 1, 3, 1) == 2 && Walk(m, 1, 3, 1) == Some(513, prot)
            && Walk(m, 1, 3, 1).frame - 1 % Size(2) == 512
  {
    OneLargeShape(prot);
    SmallSizes();
    hide Size, Index, Shape;
    var m := OneLargeLeaf(prot);
    assert m[2][Index(1, 2)] == Leaf(512, prot);
    assert Walk(m, 2, 2, 1) == EntryValue(Leaf(512, prot), 2, 1) && WalkEnd(m, 2, 2, 1) == 2;
    assert m[1][Index(1, 3)] == Table(2);
  }

  lemma {:induction false} EndIsLeaf(m: Mem, g: Regions, root: Frame, top: nat, t: Frame, x: nat, l2Leaf: bool,
                                     l3Leaf: bool)
    requires Shape(m, g, root, top) && AllLeaves(m, g, l2Leaf, l3Leaf) && t in g && InTable(g, t, x)
    requires Walk(m, t, g[t].level, x).Some?
    ensures LeafLevel(WalkEnd(m, t, g[t].level, x), l2Leaf, l3Leaf)
    decreases g[t].level
  {
    hide Shape, Size, Index, InTable;
    LookupFacts(m, g, root, top, t, x);
    var e := m[t][Index(x, g[t].level)];
    if e.Table? {
      EndIsLeaf(m, g, root, top, e.child, x, l2Leaf, l3Leaf);
    } else {
      assert TableLeaves(m[t], g[t].level, l2Leaf, l3Leaf);
    }
  }

  /** On a machine with leaves at level 3 but not at level 2, splitting one leaves pages mapped where the machine has no
      leaves. */
  method SplitUnsupported(prot: Prot) returns (t: PageTable)
    ensures fresh(t) && t.Valid() && t.top == 3 && t.l3Leaf && !t.l2Leaf && t.Translate(512) == Some(512, prot)
    ensures !t.SupportsLeaf(WalkEnd(t.mem, t.root, t.top, 512))
  {
    SmallSizes();
    hide Size, Walk, WalkEnd, Shape, RefsOk, AllLeaves, LevelAfter;
    t := new PageTable(1, 3, false, true);
    ghost var m := t.mem;
    t.MapRange(0, 0, 512 * 512, prot);
    WholeLeaf(m);
    m := t.mem;
    t.MapRange(0, 7, 1, prot);
    SplitOnce(m);
  }

  lemma WholeLeaf(m: Mem)
    requires WalkEnd(m, 1, 3, 512) == 3
    ensures LevelAfter(Request(0, 0, 512 * 512, false, true), m, 1, 3, 512) == 3
  {
    SmallSizes();
    hide Size, WalkEnd;
    assert Start(512, 3) == 0;
    assert Fits(Request(0, 0, 512 * 512, false, true), m, 1, 3, 512, 3);
  }

  lemma SplitOnce(m: Mem)
    requires WalkEnd(m, 1, 3, 512) == 3
    ensures LevelAfter(Request(0, 7, 1, false, true), m, 1, 3, 512) == 2
  {
    SmallSizes();
    hide Size, WalkEnd;
    var r := Request(0, 7, 1, false, true);
    assert Start(512, 3) == 0 && Start(512, 2) == 512;
    assert Whole(r, 512, 2) == 2;
  }

  lemma EmptyRoot(m: Mem, g: Regions, root: Frame, top: nat)
    requires m == map[root := seq(ENTRIES, _ => Absent)] && g == map[root := Region(top, 0, root)] && 1 <= top
    ensures Shape(m, g, root, top) && forall x: nat :: Walk(m, root, top, x) == None && WalkEnd(m, root, top, x) == top
  {
    hide Size, Index;
    assert Aligned(0, top);
    assert TableOk(m, g, root, top, root);
    forall x: nat
      ensures Walk(m, root, top, x) == None && WalkEnd(m, root, top, x) == top
    {
      assert m[root][Index(x, top)] == Absent;
    }
  }

  /** Below every counted table there is a mapped page. */
  lemma {:induction false} MappedPage(m: Mem, g: Regions, pages: map<Frame, Page>, root: Frame, top: nat, t: Frame)
      returns (x: nat)
    requires Shape(m, g, root, top) && RefsOk(m, g, pages, root, root) && t in g && t != root
    requires forall u | u in g && u != root :: u in pages && !pages[u].pinned
    ensures x < Space(top) && Walk(m, root, top, x).Some?
    decreases g[t].level
  {
    var l, b := g[t].level, g[t].base;
    assert CountOk(m, pages, t, root);
    TableFacts(m, g, root, top, t);
    PresentZero(m[t]);
    var i: nat :| i < |m[t]| && !m[t][i].Absent?;
    if m[t][i].Table? {
      TableEntry(m, g, root, top, t, i);
      x := MappedPage(m, g, pages, root, top, m[t][i].child);
    } else {
      x := SlotBase(b, i, l);
      CursorAt(b, l, i);
      CursorEntry(b, l, i, x);
      WalkPlain(m, g, root, top, t, x);
      InsideRoot(m, g, root, top, t, x);
    }
  }

  lemma {:induction false} InsideRoot(m: Mem, g: Regions, root: Frame, top: nat, t: Frame, x: nat)
    requires Shape(m, g, root, top) && t in g && InTable(g, t, x)
    ensures x < Space(top)
    decreases top - g[t].level
  {
    if t != root {
      assert TableOk(m, g, root, top, t);
      ParentCovers(m, g, root, top, t, x);
      TableFacts(m, g, root, top, g[t].parent);
      InsideRoot(m, g, root, top, g[t].parent, x);
    }
  }
}
