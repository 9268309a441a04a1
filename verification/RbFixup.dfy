/** What each case of the insert and remove fixups does to the shape, and why it restores balance. */
module RbFixup {
  import opened RbShape

  // ---- insertion: `t` is a red node under a red parent ----

  /** The focus of the insert loop: a red node whose only possible fault is a red parent. */
  predicate InsertFocus(c: Ctx, t: Tree, h: nat) {
    t.N? && !t.black && NoRedRed(t) && CNoRedRed(c) && Bal(t, h) && CBal(c, h)
  }

  /** Case 2: parent and uncle turn black, the grandparent red. */
  function Recoloured(c: Ctx, t: Tree): Tree
    requires c.Step? && c.up.Step? && c.up.sib.N?
  {
    Mk(c.up.dir, false, Mk(c.dir, true, t, c.node, c.sib), c.up.node, c.up.sib.(black := true))
  }

  lemma RecolouredFocus(c: Ctx, t: Tree, h: nat)
    requires InsertFocus(c, t, h) && c.Step? && !c.black && !IsBlack(c.up.sib)
    ensures InsertFocus(c.up.up, Recoloured(c, t), h + 1)
    ensures Order(c.up.up, Recoloured(c, t)) == Order(c, t)
  {
    assert CBal(c.up, h) && CNoRedRed(c.up);
    MkBalanced(c.dir, true, t, c.node, c.sib, h);
    Recolour(c.up.sib, true, h);
    MkBalanced(c.up.dir, false, Mk(c.dir, true, t, c.node, c.sib), c.up.node, c.up.sib.(black := true), h + 1);
    OrderStep(c, t);
    OrderStep(c.up, Mk(c.dir, c.black, t, c.node, c.sib));
    var gp := Mk(c.up.dir, c.up.black, Mk(c.dir, c.black, t, c.node, c.sib), c.up.node, c.up.sib);
    assert InOrder(Mk(c.dir, true, t, c.node, c.sib)) == InOrder(Mk(c.dir, c.black, t, c.node, c.sib));
    assert InOrder(Recoloured(c, t)) == InOrder(gp);
  }

  /** Case 5: the parent's subtree, rotated if needed so that its red child is the outer one. */
  function Straightened(c: Ctx, t: Tree): Tree
    requires t.N? && c.Step? && c.up.Step?
  {
    var p := Mk(c.dir, c.black, t, c.node, c.sib);
    if c.dir == c.up.dir then p else Rot(p, c.up.dir)
  }

  lemma StraightenedFocus(c: Ctx, t: Tree, h: nat)
    requires InsertFocus(c, t, h) && c.Step? && !c.black
    ensures t.N? && c.up.Step? && c.up.black && CNoRedRed(c.up) && CBal(c.up, h)
    ensures var p := Straightened(c, t);
            && p.N? && !p.black && Bal(p, h)
            && !IsBlack(Sub(p, c.up.dir)) && NoRedRed(Sub(p, c.up.dir))
            && IsBlack(Sub(p, !c.up.dir)) && NoRedRed(Sub(p, !c.up.dir))
  {
    if c.dir != c.up.dir {
      SubBalanced(t, h, c.dir);
      SubBalanced(t, h, !c.dir);
    }
  }

  lemma StraightenedOrder(c: Ctx, t: Tree)
    requires t.N? && c.Step? && c.up.Step?
    ensures Order(c.up, Straightened(c, t)) == Order(c, t)
  {
    var p := Mk(c.dir, c.black, t, c.node, c.sib);
    OrderStep(c, t);
    if c.dir != c.up.dir { RotKeepsOrder(p, c.up.dir); }
  }

  /** Case 6: the grandparent rotated down, the parent black on top, the grandparent red. */
  function Lifted(g: Ctx, p: Tree): Tree
    requires g.Step? && p.N?
  {
    var d := g.dir;
    Mk(!d, true, Mk(!d, false, g.sib, g.node, Sub(p, !d)), p.node, Sub(p, d))
  }

  lemma LiftedBalanced(g: Ctx, p: Tree, h: nat)
    requires g.Step? && g.black && IsBlack(g.sib) && CNoRedRed(g) && CBal(g, h)
    requires p.N? && !p.black && Bal(p, h)
    requires NoRedRed(Sub(p, g.dir)) && NoRedRed(Sub(p, !g.dir)) && IsBlack(Sub(p, !g.dir))
    ensures Balanced(g.up, Lifted(g, p), h + 1)
  {
    MkBalanced(!g.dir, false, g.sib, g.node, Sub(p, !g.dir), h);
    MkBalanced(!g.dir, true, Mk(!g.dir, false, g.sib, g.node, Sub(p, !g.dir)), p.node, Sub(p, g.dir), h);
  }

  lemma LiftedOrder(g: Ctx, p: Tree)
    requires g.Step? && p.N?
    ensures Order(g.up, Lifted(g, p)) == Order(g, p)
  {
    var d := g.dir;
    var gp := Mk(d, g.black, p, g.node, g.sib);
    OrderStep(g, p);
    RotKeepsOrder(gp, !d);
    assert InOrder(Mk(!d, false, g.sib, g.node, Sub(p, !d))) == InOrder(Mk(!d, g.black, g.sib, g.node, Sub(p, !d)));
    assert InOrder(Lifted(g, p)) == InOrder(Rot(gp, !d));
  }

  // ---- removal: `t` is one black node short ----

  /** The focus of the remove loop: balanced in itself, but one black node short for its context. */
  predicate RemoveFocus(c: Ctx, t: Tree, h: nat) {
    IsBlack(t) && NoRedRed(t) && CNoRedRed(c) && Bal(t, h) && CBal(c, h + 1)
  }

  lemma SiblingPresent(c: Ctx, t: Tree, h: nat)
    requires RemoveFocus(c, t, h) && c.Step?
    ensures c.sib.N?
    ensures !c.sib.black ==> c.black && c.sib.left.N? && c.sib.right.N? && c.sib.left.black && c.sib.right.black
  {
    if !c.sib.black {
      SubBalanced(c.sib, h + 1, RB_LEFT);
      SubBalanced(c.sib, h + 1, RB_RIGHT);
    }
  }

  /** Case 3: a red sibling rotated above the parent; the new sibling is black and the parent red. */
  function SiblingLifted(c: Ctx): Ctx
    requires c.Step? && c.sib.N?
  {
    Step(c.dir, false, c.node, Sub(c.sib, c.dir), Step(c.dir, true, c.sib.node, Sub(c.sib, !c.dir), c.up))
  }

  lemma SiblingLiftedFocus(c: Ctx, t: Tree, h: nat)
    requires RemoveFocus(c, t, h) && c.Step? && c.sib.N? && !c.sib.black
    ensures RemoveFocus(SiblingLifted(c), t, h)
    ensures IsBlack(SiblingLifted(c).sib)
    ensures Order(SiblingLifted(c), t) == Order(c, t)
  {
    SubBalanced(c.sib, h + 1, c.dir);
    SubBalanced(c.sib, h + 1, !c.dir);
    SiblingPresent(c, t, h);
    SiblingLiftedOrder(c, t);
  }

  lemma SiblingLiftedOrder(c: Ctx, t: Tree)
    requires c.Step? && c.sib.N?
    ensures Before(SiblingLifted(c)) == Before(c) && After(SiblingLifted(c)) == After(c)
  {
    var u, v := Sub(c.sib, c.dir), Sub(c.sib, !c.dir);
    Regroup(Before(c.up), InOrder(v), c.sib.node, InOrder(u), c.node);
    Regroup'(c.node, InOrder(u), c.sib.node, InOrder(v), After(c.up));
  }

  lemma Regroup(p: seq<Ptr>, d: seq<Ptr>, x: Ptr, b: seq<Ptr>, n: Ptr)
    ensures p + (d + [x] + b) + [n] == (p + d + [x]) + b + [n]
  {
  }

  lemma Regroup'(n: Ptr, b: seq<Ptr>, x: Ptr, d: seq<Ptr>, a: seq<Ptr>)
    ensures [n] + (b + [x] + d) + a == [n] + b + ([x] + d + a)
  {
  }

  /** Case 6: the distant nephew is red. */
  function DistantLifted(c: Ctx, t: Tree): Tree
    requires c.Step? && c.sib.N? && Sub(c.sib, !c.dir).N?
  {
    Mk(c.dir, c.black, Mk(c.dir, true, t, c.node, Sub(c.sib, c.dir)), c.sib.node,
       Sub(c.sib, !c.dir).(black := true))
  }

  lemma DistantLiftedBalanced(c: Ctx, t: Tree, h: nat)
    requires RemoveFocus(c, t, h) && c.Step? && c.sib.N? && c.sib.black && !IsBlack(Sub(c.sib, !c.dir))
    ensures Balanced(c.up, DistantLifted(c, t), h + 1 + Weight(c.black))
  {
    NephewsBalanced(c, t, h);
    var close, far := Sub(c.sib, c.dir), Sub(c.sib, !c.dir);
    Recolour(far, true, h);
    var low := Mk(c.dir, true, t, c.node, close);
    MkBalanced(c.dir, true, t, c.node, close, h);
    MkBalanced(c.dir, c.black, low, c.sib.node, far.(black := true), h + 1);
  }

  lemma NephewsBalanced(c: Ctx, t: Tree, h: nat)
    requires RemoveFocus(c, t, h) && c.Step? && c.sib.N? && c.sib.black
    ensures Bal(Sub(c.sib, c.dir), h) && NoRedRed(Sub(c.sib, c.dir))
    ensures Bal(Sub(c.sib, !c.dir), h) && NoRedRed(Sub(c.sib, !c.dir))
    ensures CBal(c.up, h + 1 + Weight(c.black)) && CNoRedRed(c.up) && (c.black || (c.up.Step? && c.up.black))
  {
    SubBalanced(c.sib, h + 1, c.dir);
    SubBalanced(c.sib, h + 1, !c.dir);
  }

  lemma DistantLiftedOrder(c: Ctx, t: Tree)
    requires c.Step? && c.sib.N? && Sub(c.sib, !c.dir).N?
    ensures Order(c.up, DistantLifted(c, t)) == Order(c, t)
  {
    var p := Mk(c.dir, c.black, t, c.node, c.sib);
    var far := Sub(c.sib, !c.dir);
    OrderStep(c, t);
    RotKeepsOrder(p, c.dir);
    assert InOrder(far.(black := true)) == InOrder(far);
    assert InOrder(Mk(c.dir, true, t, c.node, Sub(c.sib, c.dir)))
           == InOrder(Mk(c.dir, c.black, t, c.node, Sub(c.sib, c.dir)));
    assert InOrder(DistantLifted(c, t)) == InOrder(Rot(p, c.dir));
  }

  /** Case 5: the close nephew is red and the distant one is not. */
  function CloseLifted(c: Ctx, t: Tree): Tree
    requires c.Step? && c.sib.N? && Sub(c.sib, c.dir).N?
  {
    var close := Sub(c.sib, c.dir);
    Mk(c.dir, c.black, Mk(c.dir, true, t, c.node, Sub(close, c.dir)), close.node,
       Mk(c.dir, true, Sub(close, !c.dir), c.sib.node, Sub(c.sib, !c.dir)))
  }

  lemma CloseLiftedOrder(c: Ctx, t: Tree)
    requires c.Step? && c.sib.N? && Sub(c.sib, c.dir).N?
    ensures Order(c.up, CloseLifted(c, t)) == Order(c, t)
  {
    var close := Sub(c.sib, c.dir);
    var p := Mk(c.dir, c.black, t, c.node, c.sib);
    var p' := Mk(c.dir, c.black, t, c.node, Rot(c.sib, !c.dir));
    OrderStep(c, t);
    RotKeepsOrder(c.sib, !c.dir);
    assert InOrder(p') == InOrder(p);
    RotKeepsOrder(p', c.dir);
    assert InOrder(Mk(c.dir, true, t, c.node, Sub(close, c.dir)))
           == InOrder(Mk(c.dir, c.black, t, c.node, Sub(close, c.dir)));
    assert InOrder(Mk(c.dir, true, Sub(close, !c.dir), c.sib.node, Sub(c.sib, !c.dir)))
        == InOrder(Mk(c.dir, c.sib.black, Sub(close, !c.dir), c.sib.node, Sub(c.sib, !c.dir)));
    assert InOrder(CloseLifted(c, t)) == InOrder(Rot(p', c.dir));
  }

  lemma CloseLiftedBalanced(c: Ctx, t: Tree, h: nat)
    requires RemoveFocus(c, t, h) && c.Step? && c.sib.N? && c.sib.black
    requires !IsBlack(Sub(c.sib, c.dir)) && IsBlack(Sub(c.sib, !c.dir))
    ensures Balanced(c.up, CloseLifted(c, t), h + 1 + Weight(c.black))
  {
    NephewsBalanced(c, t, h);
    var close, far := Sub(c.sib, c.dir), Sub(c.sib, !c.dir);
    SubBalanced(close, h, c.dir);
    SubBalanced(close, h, !c.dir);
    MkBalanced(c.dir, true, t, c.node, Sub(close, c.dir), h);
    MkBalanced(c.dir, true, Sub(close, !c.dir), c.sib.node, far, h);
    MkBalanced(c.dir, c.black, Mk(c.dir, true, t, c.node, Sub(close, c.dir)), close.node,
               Mk(c.dir, true, Sub(close, !c.dir), c.sib.node, far), h + 1);
  }

  /** Case 4: the sibling turns red and the parent black. */
  function SiblingReddened(c: Ctx, t: Tree): Tree
    requires c.Step? && c.sib.N?
  {
    Mk(c.dir, true, t, c.node, c.sib.(black := false))
  }

  lemma SiblingReddenedBalanced(c: Ctx, t: Tree, h: nat)
    requires RemoveFocus(c, t, h) && c.Step? && c.sib.N? && c.sib.black
    requires IsBlack(c.sib.left) && IsBlack(c.sib.right)
    ensures var r := SiblingReddened(c, t);
            && Bal(r, h + 1) && NoRedRed(r) && IsBlack(r)
            && CBal(c.up, h + 1 + Weight(c.black)) && CNoRedRed(c.up)
            && Order(c.up, r) == Order(c, t)
  {
    OrderStep(c, t);
    assert InOrder(c.sib.(black := false)) == InOrder(c.sib);
    assert InOrder(SiblingReddened(c, t)) == InOrder(Mk(c.dir, c.black, t, c.node, c.sib));
  }
}
