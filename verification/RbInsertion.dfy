/** Lemmas about one insertion: the descent to a leaf and the cases of the fixup, in memory. */
module RbInsertion {
  import opened Memory
  import opened RbShape
  import opened RbMemory
  import opened RbFixup

  /** Keys do not decrease along `s`. */
  predicate Ascending(key: Ptr -> nat, s: seq<Ptr>) {
    forall i, j | 0 <= i < j < |s| :: key(s[i]) <= key(s[j])
  }

  lemma RepRecoloured(m: Mem, root: Ptr, c: Ctx, t: Tree)
    requires Rep(m, root, c, t) && c.Step? && c.up.Step? && c.up.sib.N?
    ensures {c.node, c.up.node, c.up.sib.node} <= All(c, t)
    ensures var m1 := m[c.node := m[c.node].(black := true)];
            c.up.sib.node in m1 &&
            var m2 := m1[c.up.sib.node := m1[c.up.sib.node].(black := true)];
            c.up.node in m2 &&
            var m3 := m2[c.up.node := m2[c.up.node].(black := false)];
            Rep(m3, root, c.up.up, Recoloured(c, t))
  {
    var p := Mk(c.dir, true, t, c.node, c.sib);
    RepRecolourParent(m, root, c, t, true);
    var m1 := m[c.node := m[c.node].(black := true)];
    RepUp(m1, root, c.(black := true), t);
    RepRecolouredUp(m1, root, c.up, p);
  }

  lemma RepRecolouredUp(m: Mem, root: Ptr, g: Ctx, p: Tree)
    requires Rep(m, root, g, p) && g.Step? && g.sib.N?
    ensures g.sib.node in m
    ensures var m2 := m[g.sib.node := m[g.sib.node].(black := true)];
            g.node in m2 &&
            var m3 := m2[g.node := m2[g.node].(black := false)];
            Rep(m3, root, g.up, Mk(g.dir, false, p, g.node, g.sib.(black := true)))
  {
    var gp := Mk(g.dir, g.black, p, g.node, g.sib);
    var u := Down(g.up, gp, !g.dir);
    RepUp(m, root, g, p);
    RepDown(m, root, g.up, gp, !g.dir);
    RepRecolour(m, root, u, g.sib, true);
    var m2 := m[g.sib.node := m[g.sib.node].(black := true)];
    RepUp(m2, root, u, g.sib.(black := true));
    RepRecolour(m2, root, g.up, Mk(g.dir, g.black, p, g.node, g.sib.(black := true)), false);
  }

  /** Which child of the grandparent the parent is, and who the uncle is. */
  lemma ParentSide(m: Mem, root: Ptr, c: Ctx, t: Tree)
    requires Rep(m, root, c, t) && c.Step? && c.up.Step?
    ensures IsNode(m, c.node) && IsNode(m, c.up.node) && m[c.node].parent == c.up.node
    ensures c.up.dir == (c.node == m[c.up.node].right)
    ensures Child(m[c.up.node], !c.up.dir) == Top(c.up.sib)
    ensures c.up.sib.N? ==> IsNode(m, c.up.sib.node) && m[c.up.sib.node].black == c.up.sib.black
  {
    RepUp(m, root, c, t);
    CNullOutside(m, c, Top(t), root);
    assert CLinks(m, c.up, c.node, root);
    if c.up.sib.N? {
      assert c.up.sib.node in Nodes(c.up.sib);
    }
  }

  lemma FocusFacts(m: Mem, root: Ptr, c: Ctx, t: Tree)
    requires Rep(m, root, c, t) && t.N?
    ensures IsNode(m, t.node) && m[t.node].black == t.black && m[t.node].parent == CTop(c)
    ensures c.Step? <==> CTop(c) != NULL
    ensures c.Root? ==> root == t.node
    ensures c.Step? ==>
              && IsNode(m, c.node) && m[c.node].black == c.black && m[c.node].parent == CTop(c.up)
              && Child(m[c.node], c.dir) == t.node && Child(m[c.node], !c.dir) == Top(c.sib)
              && t.node != Top(c.sib) && (c.up.Step? <==> CTop(c.up) != NULL)
  {
    CNullOutside(m, c, Top(t), root);
    if c.Step? {
      assert Top(t) in Nodes(t);
      if c.sib.N? { assert Top(c.sib) in Nodes(c.sib); }
    }
  }

  lemma InsertFocusFacts(c: Ctx, t: Tree, h: nat)
    requires InsertFocus(c, t, h)
    ensures t.N? && !t.black && Top(t) == t.node
    ensures c.Root? ==> Order(c, t) == InOrder(t)
  {
  }

  lemma SameRefl(m: Mem, s: seq<Ptr>)
    ensures SameOutside(m, m, Elems(s))
  {
  }

  lemma SameTrans(m: Mem, m': Mem, m'': Mem, s: seq<Ptr>)
    requires SameOutside(m, m', Elems(s)) && SameOutside(m', m'', Elems(s))
    ensures SameOutside(m, m'', Elems(s))
  {
  }

  // ---- the descent of an insertion ----

  /** Keys before position `i` are at most `k`, keys from `i` on are greater. */
  predicate SplitAt(key: Ptr -> nat, s: seq<Ptr>, k: nat, i: nat) {
    && i <= |s| && (forall j | 0 <= j < i :: key(s[j]) <= k) && (forall j | i <= j < |s| :: key(s[j]) > k)
  }

  /** A new key `k` belongs in the hole of `c`. */
  predicate KeysAround(key: Ptr -> nat, c: Ctx, k: nat) {
    && (forall j | 0 <= j < |Before(c)| :: key(Before(c)[j]) <= k)
    && (forall j | 0 <= j < |After(c)| :: key(After(c)[j]) > k)
  }

  lemma Descend(key: Ptr -> nat, c: Ctx, t: Tree, k: nat, dir: Dir)
    requires Ascending(key, Order(c, t)) && KeysAround(key, c, k)
    requires t.N? && dir == (k >= key(t.node))
    ensures KeysAround(key, Down(c, t, dir), k)
  {
    var b, l, r, a := Before(c), InOrder(t.left), InOrder(t.right), After(c);
    var d := Down(c, t, dir);
    AroundNode(key, b, l, t.node, r, a);
    if dir {
      assert Before(d) == b + l + [t.node] && After(d) == a;
    } else {
      assert After(d) == [t.node] + r + a && Before(d) == b;
    }
  }

  /** In an ascending sequence the keys to the left of `n` are at most its key, those to the right at least. */
  lemma AroundNode(key: Ptr -> nat, b: seq<Ptr>, l: seq<Ptr>, n: Ptr, r: seq<Ptr>, a: seq<Ptr>)
    requires Ascending(key, b + (l + [n] + r) + a)
    ensures forall j | 0 <= j < |b + l + [n]| :: key((b + l + [n])[j]) <= key(n)
    ensures forall j | 0 <= j < |[n] + r + a| :: key(([n] + r + a)[j]) >= key(n)
  {
    var s, i := b + (l + [n] + r) + a, |b| + |l|;
    assert s[i] == n;
    assert b + l + [n] == s[..i + 1];
    assert [n] + r + a == s[i..];
  }

  const BLANK := NodeRec(NULL, false, NULL, NULL)

  lemma RootFacts(key: Ptr -> nat, t: Tree, k: nat)
    ensures Order(Root, t) == InOrder(t) && CTop(Root) == NULL && KeysAround(key, Root, k)
  {
  }

  lemma StartDescent(key: Ptr -> nat, m: Mem, root: Ptr, shape: Tree, node: Ptr) returns (h: nat)
    requires Rep(m, root, Root, shape) && RedBlack(shape) && node !in InOrder(shape)
    ensures Rep(m[node := BLANK], root, Root, shape) && Balanced(Root, shape, h)
    ensures root == Top(shape)
  {
    h :| Bal(shape, h);
    InOrderElems(shape);
    var m' := m[node := BLANK];
    assert node !in Nodes(shape);
    LinksBlank(m, m', shape, NULL, node);
  }

  lemma {:induction false} LinksBlank(m: Mem, m': Mem, t: Tree, p: Ptr, node: Ptr)
    requires Links(m, t, p) && node !in Nodes(t) && m' == m[node := BLANK]
    ensures Links(m', t, p)
  {
    if t.N? {
      LinksBlank(m, m', t.left, t.node, node);
      LinksBlank(m, m', t.right, t.node, node);
    }
  }

  lemma DescentFacts(m: Mem, root: Ptr, c: Ctx, t: Tree)
    requires Rep(m, root, c, t) && Top(t) != NULL
    ensures t.N? && t.node in m && Top(t) == t.node
    ensures m[t.node].left == Top(Sub(t, RB_LEFT)) && m[t.node].right == Top(Sub(t, RB_RIGHT))
  {
  }

  /** What holds one level further down, in direction `dir`. */
  lemma DescendFurther(key: Ptr -> nat, m: Mem, root: Ptr, c: Ctx, t: Tree, h: nat, k: nat, dir: Dir)
    requires Rep(m, root, c, t) && Balanced(c, t, h) && t.N?
    requires Ascending(key, Order(c, t)) && KeysAround(key, c, k) && dir == (k >= key(t.node))
    ensures Rep(m, root, Down(c, t, dir), Sub(t, dir)) && Order(Down(c, t, dir), Sub(t, dir)) == Order(c, t)
    ensures h >= Weight(t.black) && Balanced(Down(c, t, dir), Sub(t, dir), h - Weight(t.black))
    ensures CTop(Down(c, t, dir)) == t.node && Down(c, t, dir).Step? && Down(c, t, dir).dir == dir && Sub(t, dir) < t
    ensures KeysAround(key, Down(c, t, dir), k)
  {
    RepDown(m, root, c, t, dir);
    DownBalanced(c, t, h, dir);
    Descend(key, c, t, k, dir);
  }

  lemma LeafEnd(m: Mem, root: Ptr, c: Ctx, t: Tree)
    requires Rep(m, root, c, t) && Top(t) == NULL
    ensures t.Nil?
  {
    NullOutside(m, t, CTop(c));
  }

  /** Hanging the blank record of `node` in the hole of `c`. */
  lemma LeafFacts(m: Mem, root: Ptr, c: Ctx, h: nat, node: Ptr)
    requires Rep(m, root, c, Nil) && Balanced(c, Nil, h)
    requires IsNode(m, node) && m[node] == BLANK && node !in Order(c, Nil)
    ensures InsertFocus(c, N(false, Nil, node, Nil), 0) && Top(N(false, Nil, node, Nil)) == node
    ensures CTop(c) == NULL ==> Rep(m, node, c, N(false, Nil, node, Nil))
    ensures CTop(c) != NULL ==>
              var m1 := m[node := m[node].(parent := CTop(c))];
              && c.Step? && CTop(c) in m1 && CTop(c) in Order(c, Nil)
              && Rep(m1[CTop(c) := WithChild(m1[CTop(c)], c.dir, node)], root, c, N(false, Nil, node, Nil))
  {
    OrderElems(c, Nil);
    assert node !in Elems(Order(c, Nil));
    CNullOutside(m, c, NULL, root);
    var leaf := N(false, Nil, node, Nil);
    assert Nodes(leaf) == {node};
    if c.Step? {
      assert c.node in CNodes(c) && c.node in Elems(Order(c, Nil));
      var m1 := m[node := m[node].(parent := c.node)];
      var m2 := m1[c.node := WithChild(m1[c.node], c.dir, node)];
      CLinksRefill(m, m2, c, NULL, node, root, root, {node, c.node});
    }
  }

  /** The new order has `node` at the hole, and is ascending. */
  lemma LeafOrder(key: Ptr -> nat, c: Ctx, node: Ptr) returns (i: nat)
    requires Ascending(key, Order(c, Nil)) && KeysAround(key, c, key(node))
    ensures var s, s' := Order(c, Nil), Order(c, N(false, Nil, node, Nil));
            && SplitAt(key, s, key(node), i) && s' == s[..i] + [node] + s[i..] && Ascending(key, s')
            && Elems(s') == Elems(s) + {node}
  {
    var s, s' := Order(c, Nil), Order(c, N(false, Nil, node, Nil));
    i := |Before(c)|;
    assert s == Before(c) + After(c);
    assert s' == s[..i] + [node] + s[i..] by {
      assert InOrder(N(false, Nil, node, Nil)) == [node];
    }
    SplicedAscending(key, s, node, i);
  }

  lemma SplicedAt(s: seq<Ptr>, node: Ptr, i: nat, k: nat)
    requires i <= |s| && k <= |s|
    ensures (s[..i] + [node] + s[i..])[k] == if k < i then s[k] else if k == i then node else s[k - 1]
  {
  }

  lemma SplicedElems(s: seq<Ptr>, node: Ptr, i: nat)
    requires i <= |s|
    ensures Elems(s[..i] + [node] + s[i..]) == Elems(s) + {node}
  {
    var s' := s[..i] + [node] + s[i..];
    assert s == s[..i] + s[i..];
    assert forall x :: x in s' <==> x in s[..i] || x == node || x in s[i..];
    assert forall x :: x in s <==> x in s[..i] || x in s[i..];
  }

  lemma SplicedAscending(key: Ptr -> nat, s: seq<Ptr>, node: Ptr, i: nat)
    requires Ascending(key, s) && SplitAt(key, s, key(node), i)
    ensures Ascending(key, s[..i] + [node] + s[i..]) && Elems(s[..i] + [node] + s[i..]) == Elems(s) + {node}
  {
    hide Elems;
    SplicedElems(s, node, i);
    var s' := s[..i] + [node] + s[i..];
    forall a, b | 0 <= a < b < |s'|
      ensures key(s'[a]) <= key(s'[b])
    {
      SplicedAt(s, node, i, a);
      SplicedAt(s, node, i, b);
    }
  }

  lemma BlankNode(m: Mem, node: Ptr)
    requires IsNode(m, node)
    ensures IsNode(m[node := BLANK], node)
  {
  }

  lemma LeafSame(m: Mem, m': Mem, node: Ptr, parent: Ptr, dir: Dir)
    requires node in m && parent in m
    requires var m1 := m[node := m[node].(parent := parent)]; m' == m1[parent := WithChild(m1[parent], dir, node)]
    ensures SameOutside(m, m', {node, parent})
  {
  }

  lemma BlankSame(m: Mem, m0: Mem, m1: Mem, m2: Mem, node: Ptr, parent: Ptr, s: seq<Ptr>)
    requires IsNode(m, node) && m0 == m[node := BLANK] && node in s
    requires m1 == m0 || (parent in s && SameOutside(m0, m1, {node, parent}))
    requires SameOutside(m1, m2, Elems(s))
    ensures SameOutside(m, m2, Elems(s))
  {
  }
}
