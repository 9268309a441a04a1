/** Splitting a block down for an allocation, joining upwards on a free, and that the second undoes the first. */
module BuddyRuns {
  import opened Bits
  import opened BuddyBlocks

  /** Block `s` halved again and again, the upper halves left free, down to order `o`. */
  function SplitTo(b: Blocks, s: nat, o: nat): (r: Blocks)
    requires s in b && o <= b[s].order
    ensures s in r && r[s] == b[s].(order := o)
    decreases b[s].order
  {
    if b[s].order == o then b else SplitTo(Halve(b, s), s, o)
  }

  /** Block `s` joined with its buddy as long as that is free and whole, then marked free. */
  function Released(b: Blocks, s: nat): Blocks
    requires s in b
    decreases if b[s].order < b[s].rootOrder then b[s].rootOrder - b[s].order else 0
  {
    if Joinable(b, s) then Released(Join(b, s), Lower(b, s)) else b[s := b[s].(free := true)]
  }

  function Lower(b: Blocks, s: nat): nat
    requires s in b && Joinable(b, s)
  {
    var x: nat := Buddy(s, b[s].order);
    if x < s then x else s
  }

  // ---- they keep the blocks well formed ----

  lemma HalveCoalesced(b: Blocks, donated: set<nat>, s: nat)
    requires BlocksOk(b, donated) && Coalesced(b) && s in b && b[s].order > 0 && !b[s].free
    ensures Coalesced(Halve(b, s))
  {
    var b' := Halve(b, s);
    HalfBlocks(b, donated, s);
    hide BlocksOk, Halve, Joinable, Buddy, Pow2;
    forall t: nat | t in b' && b'[t].free
      ensures !Joinable(b', t)
    {
      HalvePresent(b, s, t);
      if t in b { BuddyBack(b, donated, t); }
      HalveApart(b, s, t);
    }
  }

  lemma HalvePresent(b: Blocks, s: nat, t: nat)
    requires s in b && b[s].order > 0 && t in Halve(b, s)
    ensures t in b || t == s + Pow2(b[s].order - 1)
  {
  }

  lemma HalveApart(b: Blocks, s: nat, t: nat)
    requires s in b && b[s].order > 0 && !b[s].free && t in Halve(b, s) && Halve(b, s)[t].free
    requires var o := b[s].order - 1; s + Pow2(o) !in b && Buddy(s + Pow2(o), o) == s
    requires t in b ==> Buddy(t, b[t].order) >= 0 && Buddy(Buddy(t, b[t].order), b[t].order) == t
    requires t in b && b[t].free ==> !Joinable(b, t)
    ensures !Joinable(Halve(b, s), t)
  {
    hide Buddy, Pow2;
  }

  /** The buddy relation goes both ways. */
  lemma BuddyBack(b: Blocks, donated: set<nat>, t: nat)
    requires BlocksOk(b, donated) && t in b
    ensures Buddy(t, b[t].order) >= 0 && Buddy(Buddy(t, b[t].order), b[t].order) == t && Buddy(t, b[t].order) != t
  {
    assert BlockOk(b, t);
    BuddyFacts(t, b[t].order);
  }

  lemma {:induction false} SplitToOk(b: Blocks, donated: set<nat>, s: nat, o: nat)
    requires BlocksOk(b, donated) && s in b && o <= b[s].order
    ensures BlocksOk(SplitTo(b, s, o), donated)
    ensures Coalesced(b) && !b[s].free ==> Coalesced(SplitTo(b, s, o))
    decreases b[s].order
  {
    hide BlocksOk, Coalesced;
    if o < b[s].order {
      HalveOk(b, donated, s);
      if Coalesced(b) && !b[s].free { HalveCoalesced(b, donated, s); }
      SplitToOk(Halve(b, s), donated, s, o);
    }
  }

  lemma JoinCoalesced(b: Blocks, donated: set<nat>, s: nat)
    requires BlocksOk(b, donated) && Coalesced(b) && s in b && !b[s].free && Joinable(b, s)
    ensures Coalesced(Join(b, s)) && Lower(b, s) in Join(b, s) && !Join(b, s)[Lower(b, s)].free
  {
    var b' := Join(b, s);
    forall t: nat | t in b' && b'[t].free
      ensures !Joinable(b', t)
    {
      assert !Joinable(b, t);
    }
  }

  lemma FreeingCoalesced(b: Blocks, donated: set<nat>, s: nat)
    requires BlocksOk(b, donated) && Coalesced(b) && s in b && !b[s].free && !Joinable(b, s)
    ensures Coalesced(b[s := b[s].(free := true)]) && BlocksOk(b[s := b[s].(free := true)], donated)
  {
    var b' := b[s := b[s].(free := true)];
    FreeingOk(b, donated, s);
    BuddyBack(b, donated, s);
    hide Pow2, Aligned;
    forall t: nat | t in b' && b'[t].free
      ensures !Joinable(b', t)
    {
      if t != s {
        assert !Joinable(b, t);
        if Joinable(b', t) {
          BuddyBack(b, donated, t);
          assert Buddy(t, b[t].order) == s;
          BuddySameRoot(b, donated, t);
          assert false;
        }
      }
    }
  }

  lemma BuddySameRoot(b: Blocks, donated: set<nat>, t: nat)
    requires BlocksOk(b, donated) && t in b && b[t].order < b[t].rootOrder && Buddy(t, b[t].order) in b
    ensures SameRoot(b[t], b[Buddy(t, b[t].order)])
  {
    var x := Buddy(t, b[t].order);
    assert BlockOk(b, t) && BlockOk(b, x);
    BuddyInside(t, b[t].order, b[t].root, b[t].rootOrder);
    assert PairOk(b, t, x);
  }

  lemma FreeingOk(b: Blocks, donated: set<nat>, s: nat)
    requires BlocksOk(b, donated) && s in b
    ensures BlocksOk(b[s := b[s].(free := true)], donated) && BlocksOk(b[s := b[s].(free := false)], donated)
  {
    forall f: bool
      ensures BlocksOk(b[s := b[s].(free := f)], donated)
    {
      FlagOk(b, donated, s, f);
    }
  }

  lemma FlagOk(b: Blocks, donated: set<nat>, s: nat, f: bool)
    requires BlocksOk(b, donated) && s in b
    ensures BlocksOk(b[s := b[s].(free := f)], donated)
  {
    var b' := b[s := b[s].(free := f)];
    hide Pow2, Aligned;
    forall t: nat | t in b'
      ensures BlockOk(b', t)
    {
      assert BlockOk(b, t);
    }
    forall t: nat, u: nat | t in b' && u in b'
      ensures PairOk(b', t, u)
    {
      assert PairOk(b, t, u);
    }
    forall p: nat
      ensures Covered(b', p) <==> Covered(b, p)
    {
      if Covered(b, p) {
        var t: nat :| t in b && InBlock(t, b[t].order, p);
        assert t in b' && InBlock(t, b'[t].order, p);
      }
    }
    forall t: nat, p: nat | t in b' && InBlock(b'[t].root, b'[t].rootOrder, p)
      ensures p in donated
    {
      assert InBlock(b[t].root, b[t].rootOrder, p);
    }
  }

  lemma {:induction false} ReleasedOk(b: Blocks, donated: set<nat>, s: nat)
    requires BlocksOk(b, donated) && Coalesced(b) && s in b && !b[s].free
    ensures BlocksOk(Released(b, s), donated) && Coalesced(Released(b, s))
    decreases if b[s].order < b[s].rootOrder then b[s].rootOrder - b[s].order else 0
  {
    hide BlocksOk, Coalesced;
    if Joinable(b, s) {
      JoinOk(b, donated, s);
      JoinCoalesced(b, donated, s);
      ReleasedOk(Join(b, s), donated, Lower(b, s));
    } else {
      FreeingCoalesced(b, donated, s);
    }
  }

  // ---- freeing undoes allocating ----

  /** Joining undoes halving. */
  lemma JoinUndoesHalve(b: Blocks, donated: set<nat>, s: nat)
    requires BlocksOk(b, donated) && s in b && b[s].order > 0
    ensures var b' := Halve(b, s); s in b' && Joinable(b', s) && Join(b', s) == b && Lower(b', s) == s
  {
    HalfBlocks(b, donated, s);
    assert BlockOk(b, s);
    hide *;
    HalvedJoins(b, s);
  }

  lemma HalvedJoins(b: Blocks, s: nat)
    requires s in b && 0 < b[s].order <= b[s].rootOrder
    requires var h := s + Pow2(b[s].order - 1); h !in b && Buddy(s, b[s].order - 1) == h
    ensures var b' := Halve(b, s); s in b' && Joinable(b', s) && Join(b', s) == b && Lower(b', s) == s
  {
    var b' := Halve(b, s);
    hide Buddy, Pow2;
    assert Join(b', s) == b;
  }

  lemma {:induction false} ReleaseUndoesSplit(b: Blocks, donated: set<nat>, s: nat, o: nat)
    requires BlocksOk(b, donated) && s in b && o <= b[s].order
    ensures Released(SplitTo(b, s, o), s) == Released(b, s)
    decreases b[s].order
  {
    hide BlocksOk, Halve, Join, Joinable, Lower;
    if o < b[s].order {
      HalveOk(b, donated, s);
      HalveShape(b, s);
      JoinUndoesHalve(b, donated, s);
      ReleaseUndoesSplit(Halve(b, s), donated, s, o);
    }
  }

  lemma HalveShape(b: Blocks, s: nat)
    requires s in b && b[s].order > 0
    ensures s in Halve(b, s) && Halve(b, s)[s] == b[s].(order := b[s].order - 1)
  {
  }

  /** Allocating a block of order `o` out of the free block `s` and freeing it again gives back the same blocks,
      whatever splitting took place. */
  lemma FreeAfterAllocate(b: Blocks, donated: set<nat>, s: nat, o: nat)
    requires BlocksOk(b, donated) && Coalesced(b) && s in b && b[s].free && o <= b[s].order
    ensures Released(SplitTo(b[s := b[s].(free := false)], s, o), s) == b
  {
    var used := b[s := b[s].(free := false)];
    FlagOk(b, donated, s, false);
    ReleaseUndoesSplit(used, donated, s, o);
    BuddyBack(b, donated, s);
    assert !Joinable(b, s);
    assert !Joinable(used, s);
    assert Released(used, s) == used[s := used[s].(free := true)];
    assert used[s := used[s].(free := true)] == b;
  }
}
