/** The shape of a red-black tree as a value: trees of node addresses, one-hole contexts for the
    fixup loops, the in-order sequence of addresses and the balance invariants. */
module RbShape {
  import opened Bits

  /** A node address; 0 is the null pointer. */
  type Ptr = nat
  const NULL: Ptr := 0

  /** A child direction; `children[dir]` is the left child for RB_LEFT. */
  type Dir = bool
  const RB_LEFT: Dir := false
  const RB_RIGHT: Dir := true

  datatype Tree = Nil | N(black: bool, left: Tree, node: Ptr, right: Tree)

  /** A tree with one subtree missing: `Step(dir, ...)` says the hole is the `dir` child of `node`. */
  datatype Ctx = Root | Step(dir: Dir, black: bool, node: Ptr, sib: Tree, up: Ctx)

  function Top(t: Tree): Ptr { if t.Nil? then NULL else t.node }

  function CTop(c: Ctx): Ptr { if c.Root? then NULL else c.node }

  function Sub(t: Tree, dir: Dir): Tree
    requires t.N?
  {
    if dir then t.right else t.left
  }

  /** A node whose `dir` child is `near` and whose other child is `far`. */
  function Mk(dir: Dir, black: bool, near: Tree, node: Ptr, far: Tree): Tree {
    if dir then N(black, far, node, near) else N(black, near, node, far)
  }

  function Nodes(t: Tree): set<Ptr> {
    if t.Nil? then {} else Nodes(t.left) + {t.node} + Nodes(t.right)
  }

  function CNodes(c: Ctx): set<Ptr> {
    if c.Root? then {} else CNodes(c.up) + {c.node} + Nodes(c.sib)
  }

  function InOrder(t: Tree): seq<Ptr> {
    if t.Nil? then [] else InOrder(t.left) + [t.node] + InOrder(t.right)
  }

  /** The nodes in order before, and after, the hole of a context. */
  function Before(c: Ctx): seq<Ptr> {
    if c.Root? then [] else if c.dir then Before(c.up) + InOrder(c.sib) + [c.node] else Before(c.up)
  }

  function After(c: Ctx): seq<Ptr> {
    if c.Root? then [] else if c.dir then After(c.up) else [c.node] + InOrder(c.sib) + After(c.up)
  }

  function Order(c: Ctx, t: Tree): seq<Ptr> { Before(c) + InOrder(t) + After(c) }

  function Plug(c: Ctx, t: Tree): Tree {
    if c.Root? then t else Plug(c.up, Mk(c.dir, c.black, t, c.node, c.sib))
  }

  function All(c: Ctx, t: Tree): set<Ptr> { Nodes(t) + CNodes(c) }

  function Elems(s: seq<Ptr>): set<Ptr> { set x | x in s }

  lemma {:induction false} InOrderElems(t: Tree)
    ensures Elems(InOrder(t)) == Nodes(t)
  {
    if t.N? {
      InOrderElems(t.left);
      InOrderElems(t.right);
      assert forall x :: x in InOrder(t) <==> x in InOrder(t.left) || x == t.node || x in InOrder(t.right);
      assert forall x :: x in InOrder(t.left) <==> x in Elems(InOrder(t.left));
      assert forall x :: x in InOrder(t.right) <==> x in Elems(InOrder(t.right));
    }
  }

  lemma {:induction false} ContextElems(c: Ctx)
    ensures Elems(Before(c)) + Elems(After(c)) == CNodes(c)
  {
    if c.Step? {
      ContextElems(c.up);
      InOrderElems(c.sib);
      if c.dir {
        assert forall x :: x in Before(c) <==> x in Before(c.up) || x in InOrder(c.sib) || x == c.node;
        assert Elems(Before(c)) == Elems(Before(c.up)) + Elems(InOrder(c.sib)) + {c.node};
      } else {
        assert forall x :: x in After(c) <==> x == c.node || x in InOrder(c.sib) || x in After(c.up);
        assert Elems(After(c)) == Elems(After(c.up)) + Elems(InOrder(c.sib)) + {c.node};
      }
    }
  }

  /** The members of the tree are the elements of its in-order sequence. */
  lemma OrderElems(c: Ctx, t: Tree)
    ensures Elems(Order(c, t)) == All(c, t)
  {
    InOrderElems(t);
    ContextElems(c);
    assert forall x :: x in Order(c, t) <==> x in Before(c) || x in InOrder(t) || x in After(c);
    assert Elems(Order(c, t)) == Elems(Before(c)) + Elems(InOrder(t)) + Elems(After(c));
  }

  /** No address occurs twice. */
  predicate Proper(t: Tree) {
    t.N? ==>
      && Proper(t.left) && Proper(t.right)
      && t.node !in Nodes(t.left) && t.node !in Nodes(t.right) && Nodes(t.left) !! Nodes(t.right)
  }

  predicate CProper(c: Ctx) {
    c.Step? ==>
      && Proper(c.sib) && CProper(c.up)
      && c.node !in Nodes(c.sib) && c.node !in CNodes(c.up) && Nodes(c.sib) !! CNodes(c.up)
  }

  predicate Whole(c: Ctx, t: Tree) { Proper(t) && CProper(c) && Nodes(t) !! CNodes(c) }

  // ---- balance ----

  predicate IsBlack(t: Tree) { t.Nil? || t.black }

  function Weight(black: bool): nat { if black then 1 else 0 }

  /** Every path from the top of `t` to a null child passes `h` black nodes. */
  predicate Bal(t: Tree, h: nat) {
    if t.Nil? then h == 0
    else h >= Weight(t.black) && Bal(t.left, h - Weight(t.black)) && Bal(t.right, h - Weight(t.black))
  }

  predicate NoRedRed(t: Tree) {
    t.N? ==> NoRedRed(t.left) && NoRedRed(t.right) && (t.black || (IsBlack(t.left) && IsBlack(t.right)))
  }

  /** Plugging a subtree of black height `h` gives a balanced tree. */
  predicate CBal(c: Ctx, h: nat) {
    c.Step? ==> Bal(c.sib, h) && CBal(c.up, h + Weight(c.black))
  }

  /** No red node of the context has a red child other than, possibly, the hole; the root is black. */
  predicate CNoRedRed(c: Ctx) {
    c.Step? ==>
      && NoRedRed(c.sib) && CNoRedRed(c.up)
      && (c.black || (IsBlack(c.sib) && c.up.Step? && c.up.black))
  }

  /** `Plug(c, t)` is balanced, seen from the hole. */
  predicate Balanced(c: Ctx, t: Tree, h: nat) {
    && Bal(t, h) && CBal(c, h) && NoRedRed(t) && CNoRedRed(c)
    && (IsBlack(t) || (c.Step? && c.black))
  }

  ghost predicate RedBlack(t: Tree) { IsBlack(t) && NoRedRed(t) && exists h: nat :: Bal(t, h) }

  lemma MkBalanced(dir: Dir, black: bool, near: Tree, n: Ptr, far: Tree, h: nat)
    requires Bal(near, h) && Bal(far, h) && NoRedRed(near) && NoRedRed(far)
    requires black || (IsBlack(near) && IsBlack(far))
    ensures Bal(Mk(dir, black, near, n, far), h + Weight(black)) && NoRedRed(Mk(dir, black, near, n, far))
  {
  }

  lemma SubBalanced(t: Tree, h: nat, dir: Dir)
    requires t.N? && Bal(t, h) && NoRedRed(t)
    ensures h >= Weight(t.black) && Bal(Sub(t, dir), h - Weight(t.black)) && NoRedRed(Sub(t, dir))
    ensures !t.black ==> IsBlack(Sub(t, dir))
  {
  }

  lemma Recolour(t: Tree, black: bool, h: nat)
    requires t.N? && Bal(t, h) && NoRedRed(t)
    requires black || (IsBlack(t.left) && IsBlack(t.right))
    ensures Bal(t.(black := black), h - Weight(t.black) + Weight(black)) && NoRedRed(t.(black := black))
    ensures InOrder(t.(black := black)) == InOrder(t)
  {
  }

  // ---- rotation ----

  function Rot(t: Tree, dir: Dir): Tree
    requires t.N? && Sub(t, !dir).N?
  {
    var up := Sub(t, !dir);
    Mk(dir, up.black, Mk(dir, t.black, Sub(t, dir), t.node, Sub(up, dir)), up.node, Sub(up, !dir))
  }

  lemma NodesSub(t: Tree, dir: Dir)
    requires t.N?
    ensures Nodes(t) == Nodes(Sub(t, dir)) + {t.node} + Nodes(Sub(t, !dir))
    ensures t == Mk(dir, t.black, Sub(t, dir), t.node, Sub(t, !dir))
  {
  }

  /** A rotation keeps the in-order sequence. */
  lemma RotKeepsOrder(t: Tree, dir: Dir)
    requires t.N? && Sub(t, !dir).N?
    ensures InOrder(Rot(t, dir)) == InOrder(t)
  {
    var up := Sub(t, !dir);
    var a, b, d := InOrder(Sub(t, dir)), InOrder(Sub(up, dir)), InOrder(Sub(up, !dir));
    if dir {
      assert InOrder(up) == d + [up.node] + b;
      assert InOrder(Rot(t, dir)) == d + [up.node] + (b + [t.node] + a);
    } else {
      assert InOrder(up) == b + [up.node] + d;
      assert InOrder(Rot(t, dir)) == (a + [t.node] + b) + [up.node] + d;
    }
  }

  /** Distinctness of a node with two subtrees, whichever way round they are. */
  lemma MkProper(dir: Dir, black: bool, near: Tree, node: Ptr, far: Tree)
    ensures Nodes(Mk(dir, black, near, node, far)) == Nodes(near) + {node} + Nodes(far)
    ensures Proper(Mk(dir, black, near, node, far)) <==>
              && Proper(near) && Proper(far)
              && node !in Nodes(near) && node !in Nodes(far) && Nodes(near) !! Nodes(far)
  {
  }

  lemma RotKeepsNodes(t: Tree, dir: Dir)
    requires t.N? && Sub(t, !dir).N?
    ensures Nodes(Rot(t, dir)) == Nodes(t)
    ensures Proper(t) ==> Proper(Rot(t, dir))
  {
    var up := Sub(t, !dir);
    var a, b, d := Sub(t, dir), Sub(up, dir), Sub(up, !dir);
    var low := Mk(dir, t.black, a, t.node, b);
    NodesSub(t, dir);
    NodesSub(up, dir);
    MkProper(dir, t.black, a, t.node, up);
    MkProper(dir, up.black, b, up.node, d);
    MkProper(dir, t.black, a, t.node, b);
    MkProper(dir, up.black, low, up.node, d);
  }

  lemma {:induction false} PlugOrder(c: Ctx, t: Tree)
    ensures InOrder(Plug(c, t)) == Order(c, t)
    ensures Nodes(Plug(c, t)) == Nodes(t) + CNodes(c)
    ensures Whole(c, t) ==> Proper(Plug(c, t))
    decreases c
  {
    if c.Step? {
      var m := Mk(c.dir, c.black, t, c.node, c.sib);
      PlugOrder(c.up, m);
      OrderStep(c, t);
      WholeStep(c, t);
    }
  }

  lemma Regrouped(b: seq<Ptr>, x: seq<Ptr>, n: Ptr, y: seq<Ptr>, a: seq<Ptr>)
    ensures b + (x + [n] + y) + a == (b + x + [n]) + y + a == b + x + ([n] + y + a)
  {
  }

  /** Moving the focus up one step does not change the order. */
  lemma OrderStep(c: Ctx, t: Tree)
    requires c.Step?
    ensures Order(c.up, Mk(c.dir, c.black, t, c.node, c.sib)) == Order(c, t)
  {
    var b, a, x, y := Before(c.up), After(c.up), InOrder(c.sib), InOrder(t);
    Regrouped(b, x, c.node, y, a);
    Regrouped(b, y, c.node, x, a);
  }

  lemma WholeStep(c: Ctx, t: Tree)
    requires c.Step?
    ensures Nodes(Mk(c.dir, c.black, t, c.node, c.sib)) == Nodes(t) + {c.node} + Nodes(c.sib)
    ensures Whole(c, t) <==> Whole(c.up, Mk(c.dir, c.black, t, c.node, c.sib)) && CProper(c)
  {
    MkProper(c.dir, c.black, t, c.node, c.sib);
  }

  lemma {:induction false} PlugBal(c: Ctx, t: Tree, h: nat) returns (h': nat)
    requires Bal(t, h) && CBal(c, h)
    ensures Bal(Plug(c, t), h')
    decreases c
  {
    h' := h;
    if c.Step? { h' := PlugBal(c.up, Mk(c.dir, c.black, t, c.node, c.sib), h + Weight(c.black)); }
  }

  lemma {:induction false} PlugNoRedRed(c: Ctx, t: Tree)
    requires NoRedRed(t) && CNoRedRed(c) && (IsBlack(t) || (c.Step? && c.black))
    ensures NoRedRed(Plug(c, t)) && IsBlack(Plug(c, t))
    decreases c
  {
    if c.Step? { PlugNoRedRed(c.up, Mk(c.dir, c.black, t, c.node, c.sib)); }
  }

  /** A repaired focus in a valid context is a red-black tree. */
  lemma PlugRedBlack(c: Ctx, t: Tree, h: nat)
    requires Balanced(c, t, h)
    ensures RedBlack(Plug(c, t))
  {
    var h' := PlugBal(c, t, h);
    PlugNoRedRed(c, t);
  }

  // ---- height ----

  function Height(t: Tree): nat {
    if t.Nil? then 0 else 1 + if Height(t.left) >= Height(t.right) then Height(t.left) else Height(t.right)
  }

  lemma {:induction false} BlackHeightBounds(t: Tree, h: nat)
    requires Bal(t, h) && NoRedRed(t)
    ensures Pow2(h) <= |InOrder(t)| + 1
    ensures Height(t) <= 2 * h + Weight(!IsBlack(t))
  {
    if t.N? {
      BlackHeightBounds(t.left, h - Weight(t.black));
      BlackHeightBounds(t.right, h - Weight(t.black));
    }
  }

  lemma SquareMono(a: nat, b: nat)
    requires a <= b
    ensures a * a <= b * b
  {
    assert a * a <= a * b <= b * b;
  }

  /** A red-black tree of n nodes has height at most 2 * log2(n + 1). */
  lemma HeightBound(t: Tree)
    requires RedBlack(t)
    ensures Pow2(Height(t)) <= (|InOrder(t)| + 1) * (|InOrder(t)| + 1)
  {
    var h: nat :| Bal(t, h);
    BlackHeightBounds(t, h);
    Pow2Mono(Height(t), 2 * h);
    Pow2Add(h, h);
    SquareMono(Pow2(h), |InOrder(t)| + 1);
  }
}
