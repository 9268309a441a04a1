/** Lemmas about the searches and about stepping from a member to the next one. */
module RbSearch {
  import opened Bits
  import opened RbShape
  import opened RbMemory
  import opened RbInsertion
  import opened RbRemoval

  function Distance(a: nat, b: nat): nat { if a > b then a - b else b - a }

  /** Every node is as far from the query as can be. */
  predicate OutOfReach(key: Ptr -> nat, nodes: seq<Ptr>, query: nat) {
    forall x | x in nodes :: Distance(key(x), query) == UINT64_MAX
  }

  /** Keys before the hole of `c` are below `q`, keys after it above. */
  predicate KeysApart(key: Ptr -> nat, c: Ctx, q: nat) {
    && (forall j | 0 <= j < |Before(c)| :: key(Before(c)[j]) < q)
    && (forall j | 0 <= j < |After(c)| :: key(After(c)[j]) > q)
  }

  function LastOr(s: seq<Ptr>): Ptr { if s == [] then NULL else s[|s| - 1] }

  function FirstOr(s: seq<Ptr>): Ptr { if s == [] then NULL else s[0] }

  lemma SearchStart(key: Ptr -> nat, m: Mem, root: Ptr, t: Tree, q: nat)
    requires Rep(m, root, Root, t)
    ensures Order(Root, t) == InOrder(t) && root == Top(t) && KeysApart(key, Root, q)
    ensures LastOr(Before(Root)) == NULL && AllFar(key, Root, q, UINT64_MAX)
  {
  }

  /** One step of a search for `q`, in the direction of `q`. */
  lemma SearchStep(key: Ptr -> nat, m: Mem, root: Ptr, c: Ctx, t: Tree, q: nat, dir: Dir)
    requires Rep(m, root, c, t) && t.N? && Ascending(key, Order(c, t)) && KeysApart(key, c, q)
    requires if dir then key(t.node) < q else key(t.node) > q
    ensures var d := Down(c, t, dir);
            && Rep(m, root, d, Sub(t, dir)) && Order(d, Sub(t, dir)) == Order(c, t) && KeysApart(key, d, q)
            && (if dir then m[t.node].right else m[t.node].left) == Top(Sub(t, dir)) && Sub(t, dir) < t
            && LastOr(Before(d)) == if dir then t.node else LastOr(Before(c))
  {
    var b, l, r, a := Before(c), InOrder(t.left), InOrder(t.right), After(c);
    var d := Down(c, t, dir);
    RepDown(m, root, c, t, dir);
    LinksSub(m, t, CTop(c), dir);
    AroundNode(key, b, l, t.node, r, a);
    if dir {
      assert Before(d) == b + l + [t.node] && After(d) == a;
    } else {
      assert After(d) == [t.node] + r + a && Before(d) == b;
    }
  }

  lemma NodeIsMember(c: Ctx, t: Tree)
    requires t.N?
    ensures t.node in Order(c, t)
  {
    OrderElems(c, t);
    assert t.node in Nodes(t);
    assert t.node in Elems(Order(c, t));
  }

  /** A search that ran out of tree: the members are those before and those after the hole. */
  lemma SearchEnd(key: Ptr -> nat, m: Mem, root: Ptr, c: Ctx, t: Tree, q: nat)
    requires Rep(m, root, c, t) && Top(t) == NULL && Ascending(key, Order(c, t)) && KeysApart(key, c, q)
    ensures t.Nil? && Order(c, t) == Before(c) + After(c)
    ensures forall x | x in Order(c, t) :: key(x) != q
    ensures var r := LastOr(Before(c));
            if r == NULL then forall x | x in Order(c, t) :: key(x) > q
            else r in Order(c, t) && key(r) < q && forall x | x in Order(c, t) && key(x) < q :: key(x) <= key(r)
  {
    hide Rep, Order, Before, After, Top;
    EmptyFocus(m, root, c, t);
    SplitLast(key, Before(c), After(c), q);
  }

  lemma EmptyFocus(m: Mem, root: Ptr, c: Ctx, t: Tree)
    requires Rep(m, root, c, t) && Top(t) == NULL
    ensures t.Nil? && Order(c, t) == Before(c) + After(c)
    ensures Before(c) != [] ==> LastOr(Before(c)) != NULL
  {
    LeafEnd(m, root, c, t);
    assert InOrder(t) == [];
    CNullOutside(m, c, Top(t), root);
    ContextElems(c);
    assert Before(c) != [] ==> LastOr(Before(c)) in Elems(Before(c));
  }

  lemma SplitLast(key: Ptr -> nat, b: seq<Ptr>, a: seq<Ptr>, q: nat)
    requires Ascending(key, b + a)
    requires forall j | 0 <= j < |b| :: key(b[j]) < q
    requires forall j | 0 <= j < |a| :: key(a[j]) > q
    ensures forall x | x in b + a :: key(x) != q && (key(x) < q ==> b != [] && key(x) <= key(b[|b| - 1]))
    ensures b != [] ==> b[|b| - 1] in b + a && key(b[|b| - 1]) < q
  {
    var s := b + a;
    forall x | x in s
      ensures key(x) != q && (key(x) < q ==> b != [] && key(x) <= key(b[|b| - 1]))
    {
      var i :| 0 <= i < |s| && s[i] == x;
      if i < |b| {
        assert b[i] == x && s[|b| - 1] == b[|b| - 1];
      } else {
        assert a[i - |b|] == x;
      }
    }
    if b != [] {
      assert s[|b| - 1] == b[|b| - 1];
    }
  }

  // ---- nearest ----

  /** Every member seen so far is at least `best` away from `q`. */
  predicate AllFar(key: Ptr -> nat, c: Ctx, q: nat, best: nat) {
    && (forall j | 0 <= j < |Before(c)| :: Distance(key(Before(c)[j]), q) >= best)
    && (forall j | 0 <= j < |After(c)| :: Distance(key(After(c)[j]), q) >= best)
  }

  lemma FarStep(key: Ptr -> nat, c: Ctx, t: Tree, q: nat, best: nat, dir: Dir)
    requires t.N? && Ascending(key, Order(c, t)) && AllFar(key, c, q, best)
    requires if dir then key(t.node) < q else key(t.node) > q
    ensures var dist := Distance(key(t.node), q);
            AllFar(key, Down(c, t, dir), q, if dist < best then dist else best)
  {
    var b, l, r, a := Before(c), InOrder(t.left), InOrder(t.right), After(c);
    var d := Down(c, t, dir);
    AroundNode(key, b, l, t.node, r, a);
    if dir {
      assert Before(d) == b + l + [t.node] && After(d) == a;
    } else {
      assert After(d) == [t.node] + r + a && Before(d) == b;
    }
  }

  lemma FarEnd(key: Ptr -> nat, c: Ctx, q: nat, best: nat)
    requires AllFar(key, c, q, best)
    ensures forall x | x in Before(c) + After(c) :: Distance(key(x), q) >= best
  {
    var b, a := Before(c), After(c);
    forall x | x in b + a
      ensures Distance(key(x), q) >= best
    {
      var i :| 0 <= i < |b + a| && (b + a)[i] == x;
      if i < |b| {
        assert b[i] == x;
      } else {
        assert a[i - |b|] == x;
      }
    }
  }

  // ---- the next member ----

  /** `r` follows `x`, the element at `i`, in `s`. */
  predicate Follows(s: seq<Ptr>, i: nat, x: Ptr, r: Ptr) {
    i < |s| && s[i] == x && r == if i + 1 < |s| then s[i + 1] else NULL
  }

  lemma AfterRight(c: Ctx, t: Tree, cs: Ctx, ts: Tree)
    requires t.N? && t.right.N? && ts.N? && ts.left.Nil? && OnLeftSpine(Down(c, t, RB_RIGHT), t.right, cs, ts)
    requires Order(cs, ts) == Order(c, t)
    ensures var i := |Before(c)| + |InOrder(t.left)|;
            i + 1 < |Order(c, t)| && Order(c, t)[i] == t.node && Order(c, t)[i + 1] == ts.node
  {
    var i := |Before(c)| + |InOrder(t.left)|;
    SpineBefore(c, t, cs, ts);
    assert InOrder(ts) == [ts.node] + InOrder(ts.right) by { assert InOrder(ts.left) == []; }
    hide OnLeftSpine, InOrder, Before, After;
    Middle(Before(cs), ts.node, InOrder(ts.right), After(cs));
  }

  lemma Middle(a: seq<Ptr>, x: Ptr, b: seq<Ptr>, c: seq<Ptr>)
    ensures var s := a + ([x] + b) + c; |s| > |a| && s[..|a|] == a && s[|a|] == x
  {
  }

  lemma AfterUp(c: Ctx, t: Tree)
    requires t.N? && t.right.Nil?
    ensures var i := |Before(c)| + |InOrder(t.left)|;
            && i < |Order(c, t)| && Order(c, t)[i] == t.node
            && (if i + 1 < |Order(c, t)| then Order(c, t)[i + 1] else NULL) == FirstOr(After(c))
  {
    var i := |Before(c)| + |InOrder(t.left)|;
    assert InOrder(t) == InOrder(t.left) + [t.node] by { assert InOrder(t.right) == []; }
    assert Order(c, t)[i] == t.node;
    assert Order(c, t)[i + 1..] == After(c);
  }

  lemma ClimbStep(m: Mem, root: Ptr, c: Ctx, t: Tree)
    requires Rep(m, root, c, t) && c.Step? && t.N?
    ensures var p := Mk(c.dir, c.black, t, c.node, c.sib);
            && Rep(m, root, c.up, p) && p.N? && p.node == c.node && m[c.node].parent == CTop(c.up)
    ensures c.node in m && c.dir == (m[c.node].right == t.node) && CTop(c) == c.node
    ensures c.dir ==> After(c.up) == After(c)
    ensures !c.dir ==> FirstOr(After(c)) == c.node
  {
    RepUp(m, root, c, t);
    WhichSide(m, root, c, t);
  }

  lemma ClimbEnd(c: Ctx)
    requires c.Root?
    ensures FirstOr(After(c)) == NULL && CTop(c) == NULL
  {
  }
}
