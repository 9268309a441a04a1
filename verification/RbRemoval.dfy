/** Removing a node with two children first exchanges it with its successor, by relinking. The relinked
    memory is the old one with the two addresses exchanged everywhere. */
module RbRemoval {
  import opened Lists
  import opened Memory
  import opened RbShape
  import opened RbMemory
  import opened RbFixup
  import opened RbInsertion

  function Swap(a: Ptr, b: Ptr, x: Ptr): Ptr { if x == a then b else if x == b then a else x }

  function SwapTree(a: Ptr, b: Ptr, t: Tree): Tree {
    if t.Nil? then Nil else N(t.black, SwapTree(a, b, t.left), Swap(a, b, t.node), SwapTree(a, b, t.right))
  }

  function SwapCtx(a: Ptr, b: Ptr, c: Ctx): Ctx {
    if c.Root? then Root
    else Step(c.dir, c.black, Swap(a, b, c.node), SwapTree(a, b, c.sib), SwapCtx(a, b, c.up))
  }

  function SwapRec(a: Ptr, b: Ptr, r: NodeRec): NodeRec {
    NodeRec(Swap(a, b, r.parent), r.black, Swap(a, b, r.left), Swap(a, b, r.right))
  }

  function SwapSeq(a: Ptr, b: Ptr, s: seq<Ptr>): (r: seq<Ptr>)
    ensures |r| == |s| && forall i | 0 <= i < |s| :: r[i] == Swap(a, b, s[i])
  {
    seq(|s|, i requires 0 <= i < |s| => Swap(a, b, s[i]))
  }

  // ---- exchanging two addresses keeps everything that does not mention addresses ----

  lemma {:induction false} SwapTreeBalanced(a: Ptr, b: Ptr, t: Tree, h: nat)
    ensures Bal(SwapTree(a, b, t), h) == Bal(t, h)
    ensures NoRedRed(SwapTree(a, b, t)) == NoRedRed(t) && IsBlack(SwapTree(a, b, t)) == IsBlack(t)
  {
    if t.N? {
      SwapTreeBalanced(a, b, t.left, if h >= Weight(t.black) then h - Weight(t.black) else 0);
      SwapTreeBalanced(a, b, t.right, if h >= Weight(t.black) then h - Weight(t.black) else 0);
    }
  }

  lemma {:induction false} SwapCtxBalanced(a: Ptr, b: Ptr, c: Ctx, h: nat)
    ensures CBal(SwapCtx(a, b, c), h) == CBal(c, h) && CNoRedRed(SwapCtx(a, b, c)) == CNoRedRed(c)
  {
    if c.Step? {
      SwapTreeBalanced(a, b, c.sib, h);
      SwapCtxBalanced(a, b, c.up, h + Weight(c.black));
    }
  }

  lemma SwapBalanced(a: Ptr, b: Ptr, c: Ctx, t: Tree, h: nat)
    requires Balanced(c, t, h)
    ensures Balanced(SwapCtx(a, b, c), SwapTree(a, b, t), h)
  {
    SwapTreeBalanced(a, b, t, h);
    SwapCtxBalanced(a, b, c, h);
  }

  lemma {:induction false} SwapTreeNodes(a: Ptr, b: Ptr, t: Tree)
    ensures forall x :: x in Nodes(SwapTree(a, b, t)) <==> Swap(a, b, x) in Nodes(t)
    ensures Proper(t) ==> Proper(SwapTree(a, b, t))
  {
    if t.N? {
      SwapTreeNodes(a, b, t.left);
      SwapTreeNodes(a, b, t.right);
    }
  }

  lemma {:induction false} SwapCtxNodes(a: Ptr, b: Ptr, c: Ctx)
    ensures forall x :: x in CNodes(SwapCtx(a, b, c)) <==> Swap(a, b, x) in CNodes(c)
    ensures CProper(c) ==> CProper(SwapCtx(a, b, c))
  {
    if c.Step? {
      SwapTreeNodes(a, b, c.sib);
      SwapCtxNodes(a, b, c.up);
    }
  }

  /** `m'` is `m` with the addresses `a` and `b` exchanged, on the records of `s`. */
  predicate Exchanged(m: Mem, m': Mem, a: Ptr, b: Ptr, s: set<Ptr>) {
    && a != NULL && b != NULL && a in s && b in s
    && forall x | x in s :: x in m && Swap(a, b, x) in m' && m'[Swap(a, b, x)] == SwapRec(a, b, m[x])
  }

  lemma {:induction false} SwapLinks(m: Mem, m': Mem, a: Ptr, b: Ptr, s: set<Ptr>, t: Tree, p: Ptr)
    requires Links(m, t, p) && Exchanged(m, m', a, b, s) && Nodes(t) <= s
    ensures Links(m', SwapTree(a, b, t), Swap(a, b, p)) && Top(SwapTree(a, b, t)) == Swap(a, b, Top(t))
  {
    if t.N? {
      assert t.node in s && Nodes(t.left) <= s && Nodes(t.right) <= s;
      SwapLinks(m, m', a, b, s, t.left, t.node);
      SwapLinks(m, m', a, b, s, t.right, t.node);
    }
  }

  lemma {:induction false} SwapCLinks(m: Mem, m': Mem, a: Ptr, b: Ptr, s: set<Ptr>, c: Ctx, hole: Ptr, root: Ptr)
    requires CLinks(m, c, hole, root) && Exchanged(m, m', a, b, s) && CNodes(c) <= s
    ensures CLinks(m', SwapCtx(a, b, c), Swap(a, b, hole), Swap(a, b, root))
    ensures CTop(SwapCtx(a, b, c)) == Swap(a, b, CTop(c))
  {
    if c.Step? {
      assert c.node in s && Nodes(c.sib) <= s && CNodes(c.up) <= s;
      SwapLinks(m, m', a, b, s, c.sib, c.node);
      SwapCLinks(m, m', a, b, s, c.up, c.node, root);
    }
  }

  /** Exchanging two addresses in memory exchanges them in the shape. */
  lemma SwapRep(m: Mem, m': Mem, a: Ptr, b: Ptr, root: Ptr, c: Ctx, t: Tree)
    requires Rep(m, root, c, t) && Exchanged(m, m', a, b, All(c, t))
    ensures Rep(m', Swap(a, b, root), SwapCtx(a, b, c), SwapTree(a, b, t))
  {
    SwapLinks(m, m', a, b, All(c, t), t, CTop(c));
    SwapCLinks(m, m', a, b, All(c, t), c, Top(t), root);
    SwapTreeNodes(a, b, t);
    SwapCtxNodes(a, b, c);
  }

  lemma {:induction false} SwapInOrder(a: Ptr, b: Ptr, t: Tree)
    ensures InOrder(SwapTree(a, b, t)) == SwapSeq(a, b, InOrder(t))
  {
    if t.N? {
      SwapInOrder(a, b, t.left);
      SwapInOrder(a, b, t.right);
    }
  }

  lemma {:induction false} SwapAround(a: Ptr, b: Ptr, c: Ctx)
    ensures Before(SwapCtx(a, b, c)) == SwapSeq(a, b, Before(c)) && After(SwapCtx(a, b, c)) == SwapSeq(a, b, After(c))
  {
    if c.Step? {
      SwapAround(a, b, c.up);
      SwapInOrder(a, b, c.sib);
    }
  }

  lemma SwapAbsent(a: Ptr, b: Ptr, s: seq<Ptr>)
    requires a !in s && b !in s
    ensures SwapSeq(a, b, s) == s
  {
  }

  // ---- neighbours point at each other ----

  /** The children of `x` are members of `s` and know their parent. */
  predicate ParentOfChildren(m: Mem, s: set<Ptr>, x: Ptr) {
    && x in m && x != NULL
    && (m[x].left != NULL ==> m[x].left in s && m[x].left in m && m[m[x].left].parent == x && m[x].left != m[x].right)
    && (m[x].right != NULL ==> m[x].right in s && m[x].right in m && m[m[x].right].parent == x)
  }

  /** The parent of `x` is a member of `s` and has `x` as a child. */
  predicate ChildOfParent(m: Mem, s: set<Ptr>, x: Ptr) {
    && x in m && m[x].parent in s && m[x].parent in m
    && (m[m[x].parent].left == x || m[m[x].parent].right == x)
  }

  /** Within `s`, children know their parent and parents know their children. */
  predicate Mutual(m: Mem, s: set<Ptr>) {
    forall x | x in s :: ParentOfChildren(m, s, x) && (m[x].parent == NULL || ChildOfParent(m, s, x))
  }

  lemma {:induction false} MutualTree(m: Mem, t: Tree, p: Ptr)
    requires Links(m, t, p) && Proper(t)
    ensures forall x | x in Nodes(t) ::
              && ParentOfChildren(m, Nodes(t), x)
              && if x == Top(t) then m[x].parent == p else ChildOfParent(m, Nodes(t), x)
  {
    if t.N? {
      MutualTree(m, t.left, t.node);
      MutualTree(m, t.right, t.node);
      NullOutside(m, t.left, t.node);
      NullOutside(m, t.right, t.node);
      assert t.left.N? ==> Top(t.left) in Nodes(t.left);
      assert t.right.N? ==> Top(t.right) in Nodes(t.right);
    }
  }

  lemma MutualRep(m: Mem, root: Ptr, c: Ctx, t: Tree)
    requires Rep(m, root, c, t)
    ensures Mutual(m, All(c, t))
  {
    RepPlug(m, root, c, t);
    PlugOrder(c, t);
    MutualTree(m, Plug(c, t), NULL);
  }

  // ---- the order without the removed node ----

  lemma {:induction false} InOrderNoDup(t: Tree)
    requires Proper(t)
    ensures NoDup(InOrder(t))
  {
    if t.N? {
      InOrderNoDup(t.left);
      InOrderNoDup(t.right);
      InOrderElems(t.left);
      InOrderElems(t.right);
      var l, r := InOrder(t.left), InOrder(t.right);
      assert forall x | x in l :: x in Elems(l);
      assert forall x | x in r :: x in Elems(r);
      assert forall i | 0 <= i < |l| :: l[i] in l;
      assert forall i | 0 <= i < |r| :: r[i] in r;
    }
  }

  lemma OrderNoDup(c: Ctx, t: Tree)
    requires Whole(c, t)
    ensures NoDup(Order(c, t))
  {
    PlugOrder(c, t);
    InOrderNoDup(Plug(c, t));
  }

  /** The order when `node`, exchanged with its successor, has been cut out of the successor's old place. */
  lemma RelinkedOrder(c: Ctx, s: Tree, node: Ptr, p: seq<Ptr>)
    requires Whole(c, s) && s.N? && s.left.Nil? && Before(c) == p + [node]
    ensures Order(c, s)[|p|] == node && |p| < |Order(c, s)|
    ensures Order(SwapCtx(node, s.node, c), SwapTree(node, s.node, s.right))
         == Order(c, s)[..|p|] + Order(c, s)[|p| + 1..]
  {
    hide *;
    var succ, r, a := s.node, InOrder(s.right), After(c);
    RelinkedParts(c, s, node, p);
    CutOut(p, node, [succ] + r, a);
    assert p + [node] + ([succ] + r) + a == (p + [node]) + ([succ] + r) + a;
    assert (p + [succ]) + r + a == p + ([succ] + r) + a;
  }

  lemma RelinkedParts(c: Ctx, s: Tree, node: Ptr, p: seq<Ptr>)
    requires Whole(c, s) && s.N? && s.left.Nil? && Before(c) == p + [node]
    ensures var succ, r, a := s.node, InOrder(s.right), After(c);
            && Order(c, s) == p + [node] + ([succ] + r) + a
            && Order(SwapCtx(node, succ, c), SwapTree(node, succ, s.right)) == (p + [succ]) + r + a
  {
    var succ, r, a := s.node, InOrder(s.right), After(c);
    assert InOrder(s) == [succ] + r by { assert InOrder(s.left) == []; }
    OrderNoDup(c, s);
    AbsentAround(p, node, succ, r, a);
    SwapAbsent(node, succ, p);
    SwapAbsent(node, succ, r);
    SwapAbsent(node, succ, a);
    SwapInOrder(node, succ, s.right);
    SwapAround(node, succ, c);
    assert SwapSeq(node, succ, p + [node]) == p + [succ];
  }

  lemma AbsentAround(p: seq<Ptr>, x: Ptr, y: Ptr, r: seq<Ptr>, a: seq<Ptr>)
    requires NoDup(p + [x] + ([y] + r) + a)
    ensures x !in p && y !in p && x !in r && y !in r && x !in a && y !in a
  {
    var o, n := p + [x] + ([y] + r) + a, |p|;
    assert o[n] == x && o[n + 1] == y;
    assert forall i | 0 <= i < n :: p[i] == o[i];
    assert forall i | 0 <= i < |r| :: r[i] == o[n + 2 + i];
    assert forall i | 0 <= i < |a| :: a[i] == o[n + 2 + |r| + i];
  }

  lemma CutOut(p: seq<Ptr>, x: Ptr, r: seq<Ptr>, a: seq<Ptr>)
    ensures var o := p + [x] + r + a;
            o[|p|] == x && o[..|p|] + o[|p| + 1..] == p + r + a
  {
    var o := p + [x] + r + a;
    assert o[..|p|] == p;
    assert o[|p| + 1..] == r + a;
  }

  // ---- the relinking writes ----

  /** The neighbours of a node and of its successor, and which of them may coincide. */
  predicate RelinkReady(m: Mem, s: set<Ptr>, n: Ptr, u: Ptr) {
    && n in s && u in s && n in m && u in m && n != NULL && u != NULL && n != u
    && m[n].left in m && m[n].right in m && m[u].left == NULL && m[u].parent in m
    && (m[u].right != NULL ==> m[u].right in m) && (m[n].parent != NULL ==> m[n].parent in m)
    && m[n].left !in {NULL, n, u, m[n].right, m[u].parent, m[u].right, m[n].parent}
    && m[n].parent !in {n, u, m[n].right}
    && m[u].parent !in {NULL, u} && (m[n].parent != NULL ==> m[u].parent != m[n].parent && m[u].right != m[n].parent)
    && m[u].right !in {n, u, m[n].right, m[u].parent} && m[n].right !in {NULL, n}
    && (m[n].right == u <==> m[u].parent == n)
    && (m[u].parent != n ==> m[m[u].parent].left == u)
  }

  predicate RelinkWrites(m: Mem, m': Mem, s: set<Ptr>, n: Ptr, u: Ptr)
    requires RelinkReady(m, s, n, u)
  {
    var nl, nr, np, up, ur := m[n].left, m[n].right, m[n].parent, m[u].parent, m[u].right;
    && SameOutside(m, m', {n, u, nl, nr, np, up, ur} - {NULL})
    && m'[u] == NodeRec(np, m[n].black, nl, if up == n then n else nr)
    && m'[n] == NodeRec(if up == n then u else up, m[u].black, NULL, ur)
    && m'[nl] == m[nl].(parent := u)
    && (np != NULL ==> m'[np] == WithChild(m[np], n == m[np].right, u))
    && (ur != NULL ==> m'[ur] == m[ur].(parent := n))
    && (up != n ==> if nr == up then m'[up] == m[up].(parent := u, left := n)
                    else m'[nr] == m[nr].(parent := u) && m'[up] == m[up].(left := n))
  }

  /** The successor has the node's left child and parent. */
  predicate TopWrites(m: Mem, m': Mem, s: set<Ptr>, n: Ptr, u: Ptr)
    requires RelinkReady(m, s, n, u)
  {
    var nl, np := m[n].left, m[n].parent;
    && SameOutside(m, m', {u, nl, np} - {NULL})
    && m'[u] == m[u].(parent := np, left := nl)
    && m'[nl] == m[nl].(parent := u)
    && (np != NULL ==> m'[np] == WithChild(m[np], n == m[np].right, u))
  }

  /** The successor also has the node's right child, and the node hangs from the successor's old parent. */
  predicate MiddleWrites(m: Mem, m': Mem, s: set<Ptr>, n: Ptr, u: Ptr)
    requires RelinkReady(m, s, n, u)
  {
    var nl, nr, np, up := m[n].left, m[n].right, m[n].parent, m[u].parent;
    && SameOutside(m, m', {n, u, nl, nr, np, up} - {NULL})
    && m'[u] == NodeRec(np, m[u].black, nl, if up == n then n else nr)
    && m'[n] == m[n].(parent := if up == n then u else up)
    && m'[nl] == m[nl].(parent := u)
    && (np != NULL ==> m'[np] == WithChild(m[np], n == m[np].right, u))
    && (up != n ==> if nr == up then m'[up] == m[up].(parent := u, left := n)
                    else m'[nr] == m[nr].(parent := u) && m'[up] == m[up].(left := n))
  }

  lemma MiddleWritten(m: Mem, m1: Mem, m2: Mem, s: set<Ptr>, n: Ptr, u: Ptr)
    requires RelinkReady(m, s, n, u) && TopWrites(m, m1, s, n, u)
    requires var up := m[u].parent;
             if up == n then
               var a := m1[u := WithChild(m1[u], RB_RIGHT, n)];
               m2 == a[n := a[n].(parent := u)]
             else
               var a := m1[u := WithChild(m1[u], RB_RIGHT, m1[n].right)];
               a[u].right in a &&
               var b := a[a[u].right := a[a[u].right].(parent := u)];
               var c := b[up := WithChild(b[up], RB_LEFT, n)];
               m2 == c[n := c[n].(parent := up)]
    ensures MiddleWrites(m, m2, s, n, u)
  {
  }

  /** The node has the successor's children, and the two have exchanged colours. */
  predicate BottomWrites(m: Mem, m': Mem, n: Ptr, u: Ptr, ur: Ptr)
    requires n in m && u in m && (ur != NULL ==> ur in m)
  {
    && SameOutside(m, m', {n, u} + ({ur} - {NULL}))
    && m'[n] == NodeRec(m[n].parent, m[u].black, NULL, ur)
    && m'[u] == m[u].(black := m[n].black)
    && (ur != NULL ==> m'[ur] == m[ur].(parent := n))
  }

  lemma BottomWritten(m: Mem, m1: Mem, m2: Mem, s: set<Ptr>, n: Ptr, u: Ptr)
    requires RelinkReady(m, s, n, u) && MiddleWrites(m, m1, s, n, u)
    requires BottomWrites(m1, m2, n, u, m[u].right)
    ensures RelinkWrites(m, m2, s, n, u)
  {
  }

  predicate Neighbourly(m: Mem, s: set<Ptr>, x: Ptr) {
    ParentOfChildren(m, s, x) && (m[x].parent == NULL || ChildOfParent(m, s, x))
  }

  lemma RelinkPair(m: Mem, m': Mem, s: set<Ptr>, n: Ptr, u: Ptr)
    requires RelinkReady(m, s, n, u) && RelinkWrites(m, m', s, n, u)
    ensures m'[u] == SwapRec(n, u, m[n]) && m'[n] == SwapRec(n, u, m[u])
  {
  }

  lemma RelinkFar(m: Mem, m': Mem, s: set<Ptr>, n: Ptr, u: Ptr, x: Ptr)
    requires RelinkReady(m, s, n, u) && RelinkWrites(m, m', s, n, u) && Neighbourly(m, s, x)
    requires x !in {n, u, m[n].left, m[n].right, m[n].parent, m[u].parent, m[u].right}
    ensures m'[x] == SwapRec(n, u, m[x])
  {
  }

  lemma RelinkNear(m: Mem, m': Mem, s: set<Ptr>, n: Ptr, u: Ptr, x: Ptr)
    requires RelinkReady(m, s, n, u) && RelinkWrites(m, m', s, n, u) && Neighbourly(m, s, x)
    requires Neighbourly(m, s, n) && Neighbourly(m, s, u)
    requires x !in {n, u} && x in {m[n].left, m[n].right, m[n].parent, m[u].parent, m[u].right}
    ensures m'[x] == SwapRec(n, u, m[x])
  {
    var nl, nr, np, up, ur := m[n].left, m[n].right, m[n].parent, m[u].parent, m[u].right;
    if x == nl {
    } else if x == np {
    } else if x == ur {
    } else if x == up {
    } else {
    }
  }

  /** Relinking is exchanging the two addresses. */
  lemma RelinkExchanges(m: Mem, m': Mem, s: set<Ptr>, n: Ptr, u: Ptr)
    requires Mutual(m, s) && RelinkReady(m, s, n, u) && RelinkWrites(m, m', s, n, u)
    ensures Exchanged(m, m', n, u, s)
  {
    forall x | x in s
      ensures x in m && Swap(n, u, x) in m' && m'[Swap(n, u, x)] == SwapRec(n, u, m[x])
    {
      assert Neighbourly(m, s, x) && Neighbourly(m, s, n) && Neighbourly(m, s, u);
      if x in {n, u} {
        RelinkPair(m, m', s, n, u);
      } else if x in {m[n].left, m[n].right, m[n].parent, m[u].parent, m[u].right} {
        RelinkNear(m, m', s, n, u, x);
      } else {
        RelinkFar(m, m', s, n, u, x);
      }
    }
  }

  // ---- finding the node and its successor ----

  /** The focus on a member. */
  lemma {:induction false} Locate(m: Mem, root: Ptr, c: Ctx, t: Tree, h: nat, x: Ptr)
      returns (c': Ctx, t': Tree, h': nat)
    requires Rep(m, root, c, t) && Balanced(c, t, h) && x in Nodes(t)
    ensures Rep(m, root, c', t') && Balanced(c', t', h') && t'.N? && t'.node == x && Order(c', t') == Order(c, t)
    decreases t
  {
    if t.node == x {
      c', t', h' := c, t, h;
    } else {
      var dir := x in Nodes(t.right);
      RepDown(m, root, c, t, dir);
      DownBalanced(c, t, h, dir);
      c', t', h' := Locate(m, root, Down(c, t, dir), Sub(t, dir), h - Weight(t.black), x);
    }
  }

  /** The focus `(c, t)` is on the leftmost path of the subtree `top` in context `d`. */
  predicate OnLeftSpine(d: Ctx, top: Tree, c: Ctx, t: Tree) {
    || (c == d && t == top)
    || (&& c.Step? && !c.dir && c.node in Nodes(top) && top.N? && top.node !in Nodes(t)
        && Nodes(t) <= Nodes(top) && Before(c) == Before(d))
  }

  lemma SpineStep(m: Mem, root: Ptr, d: Ctx, top: Tree, c: Ctx, t: Tree, h: nat)
    requires Rep(m, root, c, t) && Balanced(c, t, h) && t.N? && OnLeftSpine(d, top, c, t)
    ensures OnLeftSpine(d, top, Down(c, t, RB_LEFT), t.left)
    ensures Rep(m, root, Down(c, t, RB_LEFT), t.left) && Order(Down(c, t, RB_LEFT), t.left) == Order(c, t)
    ensures h >= Weight(t.black) && Balanced(Down(c, t, RB_LEFT), t.left, h - Weight(t.black))
    ensures m[t.node].left == Top(t.left)
  {
    RepDown(m, root, c, t, RB_LEFT);
    DownBalanced(c, t, h, RB_LEFT);
  }

  /** The neighbours of a two-child node and of the leftmost node of its right subtree. */
  lemma SuccessorReady(m: Mem, root: Ptr, c: Ctx, t: Tree, cs: Ctx, ts: Tree)
    requires Rep(m, root, c, t) && t.N? && t.left.N? && t.right.N?
    requires Rep(m, root, cs, ts) && ts.N? && ts.left.Nil? && OnLeftSpine(Down(c, t, RB_RIGHT), t.right, cs, ts)
    requires All(cs, ts) == All(c, t)
    ensures RelinkReady(m, All(cs, ts), t.node, ts.node)
  {
    NullOutside(m, t, CTop(c));
    CNullOutside(m, c, Top(t), root);
    assert t.node in Nodes(t) && t.left.node in Nodes(t.left) && t.right.node in Nodes(t.right);
    assert ts.node in Nodes(ts) && ts.node in Nodes(t.right);
    assert c.Step? ==> c.node in CNodes(c);
    assert ts.right.N? ==> ts.right.node in Nodes(ts.right) && ts.right.node in Nodes(ts);
    assert cs.Step? && cs.node in CNodes(cs) && Child(m[cs.node], cs.dir) == ts.node;
  }

  // ---- the remove fixup in memory ----

  lemma InsideAll(m: Mem, root: Ptr, c: Ctx, t: Tree)
    requires Rep(m, root, c, t) && c.Step?
    ensures c.node in m && c.node in All(c, t) && m[c.node].black == c.black
    ensures c.sib.N? ==> c.sib.node in m && c.sib.node in All(c, t) && m[c.sib.node].black == c.sib.black
    ensures Child(m[c.node], !c.dir) == Top(c.sib) && Nodes(c.sib) <= All(c, t)
  {
  }

  lemma SiblingChild(m: Mem, root: Ptr, c: Ctx, t: Tree)
    requires Rep(m, root, c, t) && c.Step? && c.sib.N?
    ensures c.sib.node in m && forall dir ::
              var k := Sub(c.sib, dir);
              && Child(m[c.sib.node], dir) == Top(k) && Nodes(k) <= All(c, t)
              && (k.Nil? <==> Top(k) == NULL) && (k.N? ==> k.node in m && m[k.node].black == k.black)
  {
    LinksSub(m, c.sib, c.node, RB_LEFT);
    LinksSub(m, c.sib, c.node, RB_RIGHT);
  }

  /** The focus `t` after a red sibling was rotated above its parent. */
  lemma SiblingLiftedRep(m: Mem, root: Ptr, c: Ctx, t: Tree)
    requires c.Step? && c.sib.N?
    requires Rep(m, root, c.up, Rot(Mk(c.dir, false, t, c.node, c.sib.(black := true)), c.dir))
    ensures Rep(m, root, SiblingLifted(c), t)
  {
    var r := Rot(Mk(c.dir, false, t, c.node, c.sib.(black := true)), c.dir);
    RepDown(m, root, c.up, r, c.dir);
    RepDown(m, root, Down(c.up, r, c.dir), Sub(r, c.dir), c.dir);
  }

  lemma DistantLiftedRep(m: Mem, root: Ptr, c: Ctx, t: Tree)
    requires c.Step? && c.sib.N? && Sub(c.sib, !c.dir).N?
    requires Rep(m, root, c.up, Rot(Mk(c.dir, c.black, t, c.node, c.sib), c.dir))
    ensures var far := Sub(c.sib, !c.dir).node;
            && c.node in m && m[c.node].black == c.black && c.sib.node in m && far in m
            && var m1 := m[c.sib.node := m[c.sib.node].(black := c.black)];
            far in m1 && var m2 := m1[far := m1[far].(black := true)];
            c.node in m2 && Rep(m2[c.node := m2[c.node].(black := true)], root, c.up, DistantLifted(c, t))
  {
    var far := Sub(c.sib, !c.dir);
    var r := Rot(Mk(c.dir, c.black, t, c.node, c.sib), c.dir);
    LinksSub(m, r, CTop(c.up), c.dir);
    RepRecolour(m, root, c.up, r, c.black);
    var m1, r1 := m[c.sib.node := m[c.sib.node].(black := c.black)], r.(black := c.black);
    RepDown(m1, root, c.up, r1, c.dir);
    var d, q := Down(c.up, r1, c.dir), Sub(r1, c.dir);
    RepRecolourSibling(m1, root, d, q, true);
    var m2, d2 := m1[far.node := m1[far.node].(black := true)], d.(sib := far.(black := true));
    RepRecolour(m2, root, d2, q, true);
    RepUp(m2[c.node := m2[c.node].(black := true)], root, d2, q.(black := true));
  }

  lemma CloseLiftedRep(m: Mem, root: Ptr, c: Ctx, t: Tree)
    requires c.Step? && c.sib.N? && c.sib.black && Sub(c.sib, c.dir).N?
    requires Rep(m, root, c.up, Rot(Mk(c.dir, c.black, t, c.node, Rot(c.sib, !c.dir)), c.dir))
    ensures var close := Sub(c.sib, c.dir).node;
            && c.node in m && m[c.node].black == c.black && close in m
            && var m1 := m[close := m[close].(black := c.black)];
            c.node in m1 && Rep(m1[c.node := m1[c.node].(black := true)], root, c.up, CloseLifted(c, t))
  {
    var close := Sub(c.sib, c.dir).node;
    var r := Rot(Mk(c.dir, c.black, t, c.node, Rot(c.sib, !c.dir)), c.dir);
    LinksSub(m, r, CTop(c.up), c.dir);
    RepRecolour(m, root, c.up, r, c.black);
    var m1, r1 := m[close := m[close].(black := c.black)], r.(black := c.black);
    RepDown(m1, root, c.up, r1, c.dir);
    var d, q := Down(c.up, r1, c.dir), Sub(r1, c.dir);
    RepRecolour(m1, root, d, q, true);
    RepUp(m1[c.node := m1[c.node].(black := true)], root, d, q.(black := true));
  }

  lemma SameWrite(m: Mem, m': Mem, x: Ptr, m'': Mem, s: set<Ptr>)
    requires SameOutside(m, m', s) && x in s && x in m' && x in m'' && m'' == m'[x := m''[x]]
    ensures SameOutside(m, m'', s)
  {
  }

  lemma SameBoth(m: Mem, m': Mem, m'': Mem, s: set<Ptr>)
    requires SameOutside(m, m', s) && SameOutside(m', m'', s)
    ensures SameOutside(m, m'', s)
  {
  }

  lemma FamilyInside(c: Ctx, t: Tree, dir: Dir)
    requires c.Step? && c.sib.N? && Sub(c.sib, dir).N?
    ensures {c.node, c.sib.node, Sub(c.sib, dir).node} <= All(c, t)
  {
    assert Sub(c.sib, dir).node in Nodes(Sub(c.sib, dir));
    NodesSub(c.sib, dir);
  }

  /** The focus on the parent, ready to be rotated towards `t`. */
  lemma ParentFocus(m: Mem, root: Ptr, c: Ctx, t: Tree, sib: Tree)
    requires Rep(m, root, c, t) && c.Step? && c.sib == sib && sib.N?
    ensures var p := Mk(c.dir, c.black, t, c.node, sib);
            && Rep(m, root, c.up, p) && p.N? && p.node == c.node && Sub(p, !c.dir).N? && All(c.up, p) == All(c, t)
            && Nodes(p) + CNodes(c.up) == All(c, t)
  {
    RepUp(m, root, c, t);
    WholeStep(c, t);
  }

  /** The focus on the sibling. */
  lemma SiblingFocus(m: Mem, root: Ptr, c: Ctx, t: Tree) returns (d: Ctx)
    requires Rep(m, root, c, t) && c.Step? && c.sib.N? && Sub(c.sib, c.dir).N?
    ensures d == Step(!c.dir, c.black, c.node, t, c.up)
    ensures Rep(m, root, d, c.sib) && Sub(c.sib, !!c.dir).N? && Nodes(c.sib) + CNodes(d) == All(c, t)
  {
    var p := Mk(c.dir, c.black, t, c.node, c.sib);
    RepUp(m, root, c, t);
    RepDown(m, root, c.up, p, !c.dir);
    d := Down(c.up, p, !c.dir);
  }

  /** Back to `t` after the sibling was rotated. */
  lemma RotatedSibling(m: Mem, root: Ptr, c: Ctx, t: Tree)
    requires c.Step? && c.sib.N? && Sub(c.sib, c.dir).N?
    requires Rep(m, root, Step(!c.dir, c.black, c.node, t, c.up), Rot(c.sib, !c.dir))
    ensures Rep(m, root, c.(sib := Rot(c.sib, !c.dir)), t) && Rot(c.sib, !c.dir).N?
    ensures All(c.(sib := Rot(c.sib, !c.dir)), t) == All(c, t)
  {
    var d, r := Step(!c.dir, c.black, c.node, t, c.up), Rot(c.sib, !c.dir);
    RepUp(m, root, d, r);
    RepDown(m, root, c.up, Mk(!c.dir, c.black, r, c.node, t), c.dir);
    RotKeepsNodes(c.sib, !c.dir);
  }

  lemma StepTop(m: Mem, root: Ptr, c: Ctx, t: Tree)
    requires Rep(m, root, c, t)
    ensures CTop(c) != NULL <==> c.Step?
    ensures c.Step? ==> CTop(c) == c.node
  {
    CNullOutside(m, c, Top(t), root);
  }

  lemma FixedAtRoot(m: Mem, root: Ptr, c: Ctx, t: Tree, h: nat)
    requires Rep(m, root, c, t) && RemoveFocus(c, t, h) && CTop(c) == NULL
    ensures Balanced(c, t, h)
  {
    StepTop(m, root, c, t);
  }

  lemma SibFacts(m: Mem, root: Ptr, c: Ctx, t: Tree)
    requires Rep(m, root, c, t) && c.Step? && c.sib.N?
    ensures c.node in m && m[c.node].black == c.black && m[c.node].parent == CTop(c.up)
    ensures Child(m[c.node], !c.dir) == c.sib.node && c.sib.node in m && m[c.sib.node].black == c.sib.black
  {
  }

  lemma NephewFacts(m: Mem, root: Ptr, c: Ctx, t: Tree, dir: Dir)
    requires Rep(m, root, c, t) && c.Step? && c.sib.N?
    ensures c.sib.node in m
    ensures var k := Child(m[c.sib.node], dir);
            && (k != NULL <==> Sub(c.sib, dir).N?)
            && (k != NULL ==> k == Sub(c.sib, dir).node && k in m && m[k].black == Sub(c.sib, dir).black)
            && (IsBlack(Sub(c.sib, dir)) <==> k == NULL || m[k].black)
  {
    LinksSub(m, c.sib, c.node, dir);
  }

  lemma RedSiblingChild(c: Ctx, t: Tree, h: nat)
    requires RemoveFocus(c, t, h) && c.Step? && c.sib.N? && !c.sib.black
    ensures Sub(c.sib, c.dir).N? && Sub(c.sib, c.dir).black
    ensures var c' := SiblingLifted(c);
            c'.Step? && !c'.black && c'.dir == c.dir && c'.node == c.node && c'.sib == Sub(c.sib, c.dir)
  {
    SiblingPresent(c, t, h);
  }

  /** What turning the sibling red (and a red parent black) achieves. */
  lemma ReddenedOutcome(c: Ctx, t: Tree, h: nat)
    requires RemoveFocus(c, t, h) && c.Step? && c.sib.N? && c.sib.black
    requires IsBlack(Sub(c.sib, c.dir)) && IsBlack(Sub(c.sib, !c.dir))
    ensures !c.black ==> Balanced(c.up, SiblingReddened(c, t), h + 1)
    ensures c.black ==> RemoveFocus(c.up, SiblingReddened(c, t), h + 1)
    ensures Order(c.up, SiblingReddened(c, t)) == Order(c, t)
  {
    SiblingReddenedBalanced(c, t, h);
  }

  lemma ReddenedRep(m: Mem, root: Ptr, c: Ctx, t: Tree)
    requires Rep(m, root, c, t) && c.Step? && c.sib.N?
    ensures c.sib.node in m && {c.node, c.sib.node} <= All(c, t)
    ensures var m1 := m[c.sib.node := m[c.sib.node].(black := false)];
            && c.node in m1 && m1[c.node].black == c.black && m1[c.node].parent == CTop(c.up)
            && Rep(m1[c.node := m1[c.node].(black := true)], root, c.up, SiblingReddened(c, t))
            && (c.black ==> Rep(m1, root, c.up, SiblingReddened(c, t)))
  {
    RepRecolourSibling(m, root, c, t, false);
    var m1, c1 := m[c.sib.node := m[c.sib.node].(black := false)], c.(sib := c.sib.(black := false));
    RepRecolourParent(m1, root, c1, t, true);
    RepUp(m1[c.node := m1[c.node].(black := true)], root, c1.(black := true), t);
    if c.black { RepUp(m1, root, c1, t); }
  }

  lemma WhichSide(m: Mem, root: Ptr, c: Ctx, t: Tree)
    requires Rep(m, root, c, t) && t.N?
    ensures c.Step? <==> CTop(c) != NULL
    ensures c.Step? ==> CTop(c) == c.node && c.node in m && c.dir == (m[c.node].right == t.node)
  {
    CNullOutside(m, c, Top(t), root);
    if c.Step? {
      assert t.node in Nodes(t);
      if c.sib.N? { assert c.sib.node in Nodes(c.sib); }
    }
  }

  lemma ReddenedTop(c: Ctx, t: Tree)
    requires c.Step? && c.sib.N?
    ensures SiblingReddened(c, t).N? && SiblingReddened(c, t).node == c.node
  {
  }

  // ---- cutting out a node with at most one child ----

  function Only(t: Tree): Tree
    requires t.N?
  {
    if t.left.N? then t.left else t.right
  }

  predicate AtMostOneChild(t: Tree) { t.N? && (t.left.Nil? || t.right.Nil?) }

  /** In a balanced tree an only child is red and its parent black. */
  lemma OnlyBalanced(c: Ctx, t: Tree, h: nat)
    requires Balanced(c, t, h) && AtMostOneChild(t)
    ensures !t.black ==> Only(t).Nil? && Balanced(c, Only(t), h)
    ensures t.black && Only(t).N? ==> !Only(t).black && Balanced(c, Only(t).(black := true), h)
    ensures t.black && Only(t).Nil? ==> RemoveFocus(c, Nil, 0)
  {
    SubBalanced(t, h, RB_LEFT);
    SubBalanced(t, h, RB_RIGHT);
    var k := Only(t);
    if k.N? {
      assert Bal(k, 0);
      assert !k.black;
      SubBalanced(k, 0, RB_LEFT);
      SubBalanced(k, 0, RB_RIGHT);
    }
  }

  lemma LeftOut(b: seq<Ptr>, x: seq<Ptr>, n: Ptr, y: seq<Ptr>, a: seq<Ptr>)
    ensures var s, i := b + (x + [n] + y) + a, |b| + |x|;
            && s[i] == n
            && (x == [] ==> b + y + a == s[..i] + s[i + 1..])
            && (y == [] ==> b + x + a == s[..i] + s[i + 1..])
  {
  }

  lemma OnlyOrder(c: Ctx, t: Tree) returns (i: nat)
    requires AtMostOneChild(t)
    ensures i < |Order(c, t)| && Order(c, t)[i] == t.node
    ensures Order(c, Only(t)) == Order(c, t)[..i] + Order(c, t)[i + 1..]
  {
    assert InOrder(t) == InOrder(t.left) + [t.node] + InOrder(t.right);
    assert t.left.Nil? ==> InOrder(t.left) == [];
    assert t.right.Nil? ==> InOrder(t.right) == [];
    i := |Before(c)| + |InOrder(t.left)|;
    hide InOrder, Before, After;
    LeftOut(Before(c), InOrder(t.left), t.node, InOrder(t.right), After(c));
  }

  lemma NodeFacts(m: Mem, root: Ptr, c: Ctx, t: Tree)
    requires Rep(m, root, c, t) && t.N?
    ensures t.node in m && m[t.node].black == t.black && m[t.node].parent == CTop(c)
    ensures m[t.node].left == Top(t.left) && m[t.node].right == Top(t.right)
    ensures t.left.N? <==> Top(t.left) != NULL
    ensures t.right.N? <==> Top(t.right) != NULL
  {
    NullOutside(m, t.left, t.node);
    NullOutside(m, t.right, t.node);
  }

  lemma OnlyTop(t: Tree)
    requires AtMostOneChild(t)
    ensures Top(Only(t)) == (if t.left.N? then Top(t.left) else Top(t.right))
    ensures Only(t).N? ==> Top(Only(t)) == Only(t).node && Only(t).(black := true).N?
    ensures Only(t).Nil? ==> Only(t) == Nil
  {
  }

  /** The writes that take `t.node` out and put its only child in its place. */
  lemma CutRep(m: Mem, root: Ptr, c: Ctx, t: Tree)
    requires Rep(m, root, c, t) && AtMostOneChild(t)
    ensures var k := Top(Only(t));
            && (k != NULL ==> k in m && k in All(c, t)) && (k != NULL <==> Only(t).N?)
            && var m1 := if k != NULL then m[k := m[k].(parent := CTop(c))] else m;
            && t.node in m1 && m1[t.node] == m[t.node]
            && if c.Root? then Rep(m1, k, c, Only(t))
               else && c.node in m1 && c.node in All(c, t) && c.dir == (t.node == m1[c.node].right)
                    && var m2 := m1[c.node := WithChild(m1[c.node], c.dir, k)];
                    && Rep(m2, root, c, Only(t)) && t.node in m2 && m2[t.node] == m[t.node]
  {
    var kt := Only(t);
    var k := Top(kt);
    CNullOutside(m, c, Top(t), root);
    NullOutside(m, kt, t.node);
    assert t.node in Nodes(t);
    assert kt.N? ==> k in Nodes(kt);
    var m1 := if k != NULL then m[k := m[k].(parent := CTop(c))] else m;
    if c.Root? {
      LinksReparent(m, m1, kt, t.node, CTop(c), {k});
    } else {
      WhichSide(m, root, c, t);
      var m2 := m1[c.node := WithChild(m1[c.node], c.dir, k)];
      LinksReparent(m, m2, kt, t.node, CTop(c), {k, c.node});
      CLinksRefill(m, m2, c, t.node, k, root, root, {k, c.node});
    }
  }

  /** After the exchange the node has no left child and sits where its successor was. */
  lemma RelinkedNode(n: Ptr, ts: Tree)
    requires ts.N? && ts.left.Nil?
    ensures var t' := SwapTree(n, ts.node, ts);
            AtMostOneChild(t') && t'.node == n && Only(t') == SwapTree(n, ts.node, ts.right)
  {
  }

  lemma SpineBefore(c: Ctx, t: Tree, cs: Ctx, ts: Tree)
    requires t.N? && OnLeftSpine(Down(c, t, RB_RIGHT), t.right, cs, ts)
    ensures Before(cs) == Before(c) + InOrder(t.left) + [t.node]
  {
  }

  lemma CutInside(c: Ctx, t: Tree)
    requires AtMostOneChild(t)
    ensures Elems(Order(c, Only(t))) <= Elems(Order(c, t)) && Elems(Order(c, Nil)) <= Elems(Order(c, t))
  {
    OrderElems(c, t);
    OrderElems(c, Only(t));
    OrderElems(c, Nil);
  }

  lemma RecolourOrder(c: Ctx, t: Tree)
    requires t.N?
    ensures Order(c, t.(black := true)) == Order(c, t)
  {
  }

  lemma SameWiden(m: Mem, m': Mem, s: seq<Ptr>, s': seq<Ptr>)
    requires SameOutside(m, m', Elems(s)) && Elems(s) <= Elems(s')
    ensures SameOutside(m, m', Elems(s'))
  {
  }

  lemma LastNode(m: Mem, root: Ptr, c: Ctx)
    requires Rep(m, root, c, Nil) && CTop(c) == NULL
    ensures Balanced(c, Nil, 0)
  {
    StepTop(m, root, c, Nil);
  }

  lemma TopFacts(m: Mem, root: Ptr, c: Ctx, t: Tree)
    requires Rep(m, root, c, t)
    ensures t.N? <==> Top(t) != NULL
    ensures t.N? ==> Top(t) == t.node
  {
    NullOutside(m, t, CTop(c));
  }

  lemma SpineStart(c: Ctx, t: Tree)
    ensures OnLeftSpine(c, t, c, t)
  {
  }

  lemma RelinkInside(m: Mem, s: set<Ptr>, n: Ptr, u: Ptr)
    requires Mutual(m, s) && RelinkReady(m, s, n, u)
    ensures {m[n].left, m[n].right, m[u].parent} <= s
    ensures m[n].parent != NULL ==> m[n].parent in s
    ensures m[u].right != NULL ==> m[u].right in s
  {
    assert Neighbourly(m, s, n) && Neighbourly(m, s, u);
  }

  lemma LocateMember(m: Mem, root: Ptr, shape: Tree, x: Ptr) returns (c: Ctx, t: Tree, h: nat)
    requires Rep(m, root, Root, shape) && RedBlack(shape) && x in InOrder(shape)
    ensures Rep(m, root, c, t) && Balanced(c, t, h) && t.N? && t.node == x && Order(c, t) == InOrder(shape)
  {
    h :| Bal(shape, h);
    InOrderElems(shape);
    assert x in Elems(InOrder(shape));
    c, t, h := Locate(m, root, Root, shape, h, x);
    assert Order(Root, shape) == InOrder(shape);
  }

  lemma RightSubtree(m: Mem, root: Ptr, c: Ctx, t: Tree, h: nat)
    requires Rep(m, root, c, t) && Balanced(c, t, h) && t.N?
    ensures Rep(m, root, Down(c, t, RB_RIGHT), t.right) && Order(Down(c, t, RB_RIGHT), t.right) == Order(c, t)
    ensures h >= Weight(t.black) && Balanced(Down(c, t, RB_RIGHT), t.right, h - Weight(t.black))
  {
    RepDown(m, root, c, t, RB_RIGHT);
    DownBalanced(c, t, h, RB_RIGHT);
  }

  /** The relinking may start. */
  lemma RelinkStart(m: Mem, root: Ptr, c: Ctx, t: Tree, cs: Ctx, ts: Tree)
    requires Rep(m, root, c, t) && t.N? && t.left.N? && t.right.N?
    requires Rep(m, root, cs, ts) && ts.N? && ts.left.Nil? && OnLeftSpine(Down(c, t, RB_RIGHT), t.right, cs, ts)
    requires Order(cs, ts) == Order(c, t)
    ensures Whole(cs, ts) && Mutual(m, All(cs, ts)) && RelinkReady(m, All(cs, ts), t.node, ts.node)
    ensures root in All(cs, ts) && t.node in m && ts.node in m
    ensures m[t.node].parent == NULL <==> root == t.node
    ensures m[ts.node].parent == NULL <==> root == ts.node
  {
    OrderElems(c, t);
    OrderElems(cs, ts);
    SuccessorReady(m, root, c, t, cs, ts);
    MutualRep(m, root, cs, ts);
    OnlyRootHasNoParent(m, root, c, t);
    OnlyRootHasNoParent(m, root, cs, ts);
  }

  lemma {:induction false} OnlyRootHasNoParent(m: Mem, root: Ptr, c: Ctx, t: Tree)
    requires Rep(m, root, c, t) && t.N?
    ensures root in All(c, t) && t.node in m
    ensures m[t.node].parent == NULL <==> root == t.node
    decreases c
  {
    CNullOutside(m, c, Top(t), root);
    assert t.node in Nodes(t);
    if c.Step? {
      WholeStep(c, t);
      RepUp(m, root, c, t);
      var p := Mk(c.dir, c.black, t, c.node, c.sib);
      RootAbove(m, root, c.up, c.node);
      if c.up.Root? {
        assert root == c.node;
      }
    }
  }

  lemma {:induction false} RootAbove(m: Mem, root: Ptr, c: Ctx, n: Ptr)
    requires CLinks(m, c, n, root)
    ensures if c.Root? then root == n else root in CNodes(c)
  {
    if c.Step? { RootAbove(m, root, c.up, c.node); }
  }

  /** What the exchange and the cut together do to the order. */
  lemma RelinkedRemoval(key: Ptr -> nat, c: Ctx, t: Tree, cs: Ctx, ts: Tree) returns (i: nat)
    requires t.N? && ts.N? && ts.left.Nil? && OnLeftSpine(Down(c, t, RB_RIGHT), t.right, cs, ts)
    requires Whole(cs, ts) && Ascending(key, Order(cs, ts))
    ensures var s := Order(cs, ts);
            && i < |s| && s[i] == t.node
            && Order(SwapCtx(t.node, ts.node, cs), SwapTree(t.node, ts.node, ts.right)) == s[..i] + s[i + 1..]
            && Ascending(key, s[..i] + s[i + 1..])
  {
    SpineBefore(c, t, cs, ts);
    var p := Before(c) + InOrder(t.left);
    i := |p|;
    RelinkedOrder(cs, ts, t.node, p);
    CutAscending(key, Order(cs, ts), i);
  }

  lemma CutAscending(key: Ptr -> nat, s: seq<Ptr>, i: nat)
    requires Ascending(key, s) && i < |s|
    ensures Ascending(key, s[..i] + s[i + 1..])
  {
  }

  lemma SingleChild(t: Tree)
    requires t.N? && (t.left.Nil? || t.right.Nil?)
    ensures AtMostOneChild(t)
  {
  }

  lemma RelinkedSame(m: Mem, m': Mem, m'': Mem, cs: Ctx, ts: Tree, n: Ptr)
    requires ts.N? && SameOutside(m, m', All(cs, ts)) && n in All(cs, ts)
    requires SameOutside(m', m'', Elems(Order(SwapCtx(n, ts.node, cs), SwapTree(n, ts.node, ts))))
    ensures SameOutside(m, m'', Elems(Order(cs, ts)))
  {
    OrderElems(cs, ts);
    OrderElems(SwapCtx(n, ts.node, cs), SwapTree(n, ts.node, ts));
    assert All(SwapCtx(n, ts.node, cs), SwapTree(n, ts.node, ts)) == All(cs, ts) by {
      SwapAll(cs, ts, n);
    }
  }

  lemma SwapAll(cs: Ctx, ts: Tree, n: Ptr)
    requires ts.N? && n in All(cs, ts)
    ensures All(SwapCtx(n, ts.node, cs), SwapTree(n, ts.node, ts)) == All(cs, ts)
  {
    hide SwapTree, SwapCtx, Nodes, CNodes;
    SwapTreeNodes(n, ts.node, ts);
    SwapCtxNodes(n, ts.node, cs);
    TopInNodes(ts);
  }

  lemma TopInNodes(t: Tree)
    requires t.N?
    ensures t.node in Nodes(t)
  {
  }
}
