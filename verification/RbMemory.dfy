/** Red-black nodes in memory: the records, and when a memory holds a given shape. */
module RbMemory {
  import opened Memory
  import opened RbShape

  /** A node record; `Pack` below is how the two first fields share one machine word. */
  datatype NodeRec = NodeRec(parent: Ptr, black: bool, left: Ptr, right: Ptr)

  type Mem = map<Ptr, NodeRec>

  function Child(r: NodeRec, dir: Dir): Ptr { if dir then r.right else r.left }

  function WithChild(r: NodeRec, dir: Dir, p: Ptr): (r': NodeRec)
    ensures Child(r', dir) == p && Child(r', !dir) == Child(r, !dir)
    ensures r'.parent == r.parent && r'.black == r.black
  {
    if dir then r.(right := p) else r.(left := p)
  }

  // ---- the packed parent word ----

  function Pack(parent: Ptr, black: bool): nat { parent + Weight(black) }

  function WordParent(word: nat): Ptr { word - word % 2 }

  predicate WordBlack(word: nat) { word % 2 == 1 }

  function WordSetParent(word: nat, parent: Ptr): nat { word % 2 + parent }

  function WordSetColour(word: nat, black: bool): nat { word - word % 2 + Weight(black) }

  /** For even addresses the word macros read and write exactly one of the two fields. */
  lemma PackedWord(p: Ptr, p': Ptr, b: bool, b': bool)
    requires p % 2 == 0 && p' % 2 == 0
    ensures WordParent(Pack(p, b)) == p && WordBlack(Pack(p, b)) == b
    ensures WordSetParent(Pack(p, b), p') == Pack(p', b)
    ensures WordSetColour(Pack(p, b), b') == Pack(p, b')
    ensures Pack(p, b) == Pack(p', b') ==> p == p' && b == b'
  {
  }

  predicate IsNode(m: Mem, p: Ptr) { p in m && p != NULL }

  /** The records of `t` spell out its shape, and its top node's parent is `p`. */
  predicate Links(m: Mem, t: Tree, p: Ptr) {
    t.N? ==>
      && IsNode(m, t.node)
      && m[t.node].parent == p && m[t.node].black == t.black
      && m[t.node].left == Top(t.left) && m[t.node].right == Top(t.right)
      && Links(m, t.left, t.node) && Links(m, t.right, t.node)
  }

  /** The records of `c` spell out its shape when its hole is filled by the node at `hole`. */
  predicate CLinks(m: Mem, c: Ctx, hole: Ptr, root: Ptr) {
    if c.Root? then root == hole
    else
      && IsNode(m, c.node)
      && m[c.node].parent == CTop(c.up) && m[c.node].black == c.black
      && Child(m[c.node], c.dir) == hole && Child(m[c.node], !c.dir) == Top(c.sib)
      && Links(m, c.sib, c.node) && CLinks(m, c.up, c.node, root)
  }

  /** Memory `m` with root pointer `root` holds the tree `Plug(c, t)`. */
  predicate Rep(m: Mem, root: Ptr, c: Ctx, t: Tree) {
    Whole(c, t) && CLinks(m, c, Top(t), root) && Links(m, t, CTop(c))
  }

  lemma {:induction false} LinksFrame(m: Mem, m': Mem, t: Tree, p: Ptr, s: set<Ptr>)
    requires Links(m, t, p) && SameOutside(m, m', s) && Nodes(t) !! s
    ensures Links(m', t, p)
  {
    if t.N? {
      assert t.node in Nodes(t) && Nodes(t.left) <= Nodes(t) && Nodes(t.right) <= Nodes(t);
      LinksFrame(m, m', t.left, t.node, s);
      LinksFrame(m, m', t.right, t.node, s);
    }
  }

  lemma {:induction false} CLinksFrame(m: Mem, m': Mem, c: Ctx, hole: Ptr, root: Ptr, s: set<Ptr>)
    requires CLinks(m, c, hole, root) && SameOutside(m, m', s) && CNodes(c) !! s
    ensures CLinks(m', c, hole, root)
  {
    if c.Step? {
      assert c.node in CNodes(c) && CNodes(c.up) <= CNodes(c) && Nodes(c.sib) <= CNodes(c);
      LinksFrame(m, m', c.sib, c.node, s);
      CLinksFrame(m, m', c.up, c.node, root, s);
    }
  }

  /** A record that was not there before is in no tree. */
  lemma {:induction false} LinksGrow(m: Mem, n: Ptr, r: NodeRec, t: Tree, p: Ptr)
    requires Links(m, t, p) && n !in m
    ensures Links(m[n := r], t, p)
  {
    if t.N? {
      LinksGrow(m, n, r, t.left, t.node);
      LinksGrow(m, n, r, t.right, t.node);
    }
  }

  /** A subtree whose top node was given a new parent, and otherwise left alone. */
  lemma LinksReparent(m: Mem, m': Mem, t: Tree, p: Ptr, p': Ptr, s: set<Ptr>)
    requires Links(m, t, p) && Proper(t)
    requires SameOutside(m, m', s) && Nodes(t) * s <= {Top(t)}
    requires t.N? ==> m'[t.node] == m[t.node].(parent := p')
    ensures Links(m', t, p')
  {
    if t.N? {
      assert Nodes(t.left) <= Nodes(t) && Nodes(t.right) <= Nodes(t);
      LinksFrame(m, m', t.left, t.node, s);
      LinksFrame(m, m', t.right, t.node, s);
    }
  }

  /** A context whose hole was given a new filler, and otherwise left alone. */
  lemma CLinksRefill(m: Mem, m': Mem, c: Ctx, hole: Ptr, hole': Ptr, root: Ptr, root': Ptr, s: set<Ptr>)
    requires CLinks(m, c, hole, root) && CProper(c)
    requires SameOutside(m, m', s) && CNodes(c) * s <= {CTop(c)}
    requires if c.Root? then root' == hole' else root' == root && m'[c.node] == WithChild(m[c.node], c.dir, hole')
    ensures CLinks(m', c, hole', root')
  {
    if c.Step? {
      assert CNodes(c.up) <= CNodes(c) && Nodes(c.sib) <= CNodes(c);
      LinksFrame(m, m', c.sib, c.node, s);
      CLinksFrame(m, m', c.up, c.node, root, s);
    }
  }

  lemma LinksMk(m: Mem, dir: Dir, black: bool, near: Tree, n: Ptr, far: Tree, p: Ptr)
    requires IsNode(m, n) && m[n].parent == p && m[n].black == black
    requires Child(m[n], dir) == Top(near) && Child(m[n], !dir) == Top(far)
    requires Links(m, near, n) && Links(m, far, n)
    ensures Links(m, Mk(dir, black, near, n, far), p)
  {
  }

  lemma LinksSub(m: Mem, t: Tree, p: Ptr, dir: Dir)
    requires t.N? && Links(m, t, p)
    ensures Child(m[t.node], dir) == Top(Sub(t, dir)) && Links(m, Sub(t, dir), t.node)
  {
  }

  // ---- moving the focus ----

  lemma RepUp(m: Mem, root: Ptr, c: Ctx, t: Tree)
    requires Rep(m, root, c, t) && c.Step?
    ensures Rep(m, root, c.up, Mk(c.dir, c.black, t, c.node, c.sib))
  {
    WholeStep(c, t);
    LinksMk(m, c.dir, c.black, t, c.node, c.sib, CTop(c.up));
  }

  function Down(c: Ctx, t: Tree, dir: Dir): Ctx
    requires t.N?
  {
    Step(dir, t.black, t.node, Sub(t, !dir), c)
  }

  lemma RepDown(m: Mem, root: Ptr, c: Ctx, t: Tree, dir: Dir)
    requires Rep(m, root, c, t) && t.N?
    ensures Rep(m, root, Down(c, t, dir), Sub(t, dir))
    ensures Order(Down(c, t, dir), Sub(t, dir)) == Order(c, t)
  {
    NodesSub(t, dir);
    MkProper(dir, t.black, Sub(t, dir), t.node, Sub(t, !dir));
    OrderStep(Down(c, t, dir), Sub(t, dir));
    LinksSub(m, t, CTop(c), dir);
    LinksSub(m, t, CTop(c), !dir);
  }

  lemma DownBalanced(c: Ctx, t: Tree, h: nat, dir: Dir)
    requires Balanced(c, t, h) && t.N?
    ensures h >= Weight(t.black) && Balanced(Down(c, t, dir), Sub(t, dir), h - Weight(t.black))
  {
    SubBalanced(t, h, dir);
    SubBalanced(t, h, !dir);
  }

  lemma {:induction false} RepPlug(m: Mem, root: Ptr, c: Ctx, t: Tree)
    requires Rep(m, root, c, t)
    ensures Rep(m, root, Root, Plug(c, t))
    decreases c
  {
    if c.Step? {
      RepUp(m, root, c, t);
      RepPlug(m, root, c.up, Mk(c.dir, c.black, t, c.node, c.sib));
    }
  }

  // ---- recolouring and rotating ----

  lemma RepRecolour(m: Mem, root: Ptr, c: Ctx, t: Tree, black: bool)
    requires Rep(m, root, c, t) && t.N?
    ensures Rep(m[t.node := m[t.node].(black := black)], root, c, t.(black := black))
  {
    var m' := m[t.node := m[t.node].(black := black)];
    var t' := t.(black := black);
    assert Nodes(t') == Nodes(t) && Proper(t');
    assert t.node in Nodes(t);
    LinksFrame(m, m', t.left, t.node, {t.node});
    LinksFrame(m, m', t.right, t.node, {t.node});
    CLinksFrame(m, m', c, t.node, root, {t.node});
  }

  lemma RepRecolourParent(m: Mem, root: Ptr, c: Ctx, t: Tree, black: bool)
    requires Rep(m, root, c, t) && c.Step?
    ensures Rep(m[c.node := m[c.node].(black := black)], root, c.(black := black), t)
  {
    var m' := m[c.node := m[c.node].(black := black)];
    LinksFrame(m, m', t, c.node, {c.node});
    LinksFrame(m, m', c.sib, c.node, {c.node});
    CLinksFrame(m, m', c.up, c.node, root, {c.node});
  }

  lemma RepRecolourSibling(m: Mem, root: Ptr, c: Ctx, t: Tree, black: bool)
    requires Rep(m, root, c, t) && c.Step? && c.sib.N?
    ensures c.sib.node in m
    ensures Rep(m[c.sib.node := m[c.sib.node].(black := black)], root, c.(sib := c.sib.(black := black)), t)
  {
    var n := c.sib.node;
    var m' := m[n := m[n].(black := black)];
    var sib' := c.sib.(black := black);
    assert n in Nodes(c.sib);
    assert Nodes(sib') == Nodes(c.sib) && Proper(sib');
    LinksFrame(m, m', t, c.node, {n});
    LinksFrame(m, m', c.sib.left, n, {n});
    LinksFrame(m, m', c.sib.right, n, {n});
    CLinksFrame(m, m', c.up, c.node, root, {n});
  }

  /** What one rotation of `t` in direction `dir` writes; `up` is the child that moves up. */
  predicate RotationWrites(m: Mem, m': Mem, root: Ptr, root': Ptr, c: Ctx, sub: Ptr, up: Ptr, b: Ptr, dir: Dir) {
    && SameOutside(m, m', {sub, up} + ({b, CTop(c)} - {NULL}))
    && sub in m && up in m
    && m'[sub] == WithChild(m[sub], !dir, b).(parent := up)
    && m'[up] == WithChild(m[up], dir, sub).(parent := CTop(c))
    && (b != NULL ==> b in m && m'[b] == m[b].(parent := sub))
    && if c.Root? then root' == up
       else root' == root && c.node in m && m'[c.node] == WithChild(m[c.node], c.dir, up)
  }

  /** Those writes turn a memory holding `t` into one holding `Rot(t, dir)`. */
  lemma RepRotate(m: Mem, m': Mem, root: Ptr, root': Ptr, c: Ctx, t: Tree, dir: Dir)
    requires Rep(m, root, c, t) && t.N? && Sub(t, !dir).N?
    requires RotationWrites(m, m', root, root', c, t.node, Sub(t, !dir).node, Top(Sub(Sub(t, !dir), dir)), dir)
    ensures Rep(m', root', c, Rot(t, dir))
  {
    var up := Sub(t, !dir);
    var a, b, d := Sub(t, dir), Sub(up, dir), Sub(up, !dir);
    var s := {t.node, up.node, Top(b), CTop(c)};
    RotKeepsNodes(t, dir);
    RotationLinks(m, root, c, t, dir);
    RotationParts(m, root, c, t, dir);
    LinksFrame(m, m', a, t.node, s);
    LinksReparent(m, m', b, up.node, t.node, s);
    LinksFrame(m, m', d, up.node, s);
    CLinksRefill(m, m', c, t.node, up.node, root, root', s);
    LinksMk(m', dir, t.black, a, t.node, b, up.node);
    LinksMk(m', dir, up.black, Mk(dir, t.black, a, t.node, b), up.node, d, CTop(c));
  }

  /** The parts of a rotation: where they are linked ... */
  lemma RotationLinks(m: Mem, root: Ptr, c: Ctx, t: Tree, dir: Dir)
    requires Rep(m, root, c, t) && t.N? && Sub(t, !dir).N?
    ensures var up := Sub(t, !dir);
            var a, b, d := Sub(t, dir), Sub(up, dir), Sub(up, !dir);
            && Links(m, a, t.node) && Links(m, b, up.node) && Links(m, d, up.node)
            && IsNode(m, t.node) && IsNode(m, up.node) && (b.N? ==> IsNode(m, b.node))
            && m[t.node].parent == CTop(c) && m[t.node].black == t.black && m[up.node].black == up.black
            && Child(m[t.node], dir) == Top(a) && Child(m[t.node], !dir) == up.node
            && Child(m[up.node], dir) == Top(b) && Child(m[up.node], !dir) == Top(d)
  {
    var up := Sub(t, !dir);
    LinksSub(m, t, CTop(c), dir);
    LinksSub(m, t, CTop(c), !dir);
    LinksSub(m, up, t.node, dir);
    LinksSub(m, up, t.node, !dir);
  }

  /** ... and that they do not overlap. */
  lemma RotationParts(m: Mem, root: Ptr, c: Ctx, t: Tree, dir: Dir)
    requires Rep(m, root, c, t) && t.N? && Sub(t, !dir).N?
    ensures var up := Sub(t, !dir);
            var a, b, d := Sub(t, dir), Sub(up, dir), Sub(up, !dir);
            var s := {t.node, up.node, Top(b), CTop(c)};
            && Proper(b)
            && t.node != up.node && Top(b) !in {t.node, up.node} && CTop(c) !in {t.node, up.node}
            && (b.N? ==> b.node != CTop(c))
            && Nodes(a) !! s && Nodes(d) !! s && Nodes(b) * s <= {Top(b)} && CNodes(c) * s <= {CTop(c)}
  {
    var up := Sub(t, !dir);
    var a, b, d := Sub(t, dir), Sub(up, dir), Sub(up, !dir);
    NodesSub(t, dir);
    NodesSub(up, dir);
    MkProper(dir, t.black, a, t.node, up);
    MkProper(dir, up.black, b, up.node, d);
    NullOutside(m, t, CTop(c));
    CNullOutside(m, c, Top(t), root);
  }

  /** The writes of a rotation stay inside the tree, and the parent finds `t` on the side of the hole. */
  lemma RotationInside(m: Mem, root: Ptr, c: Ctx, t: Tree, dir: Dir)
    requires Rep(m, root, c, t) && t.N? && Sub(t, !dir).N?
    ensures t.node in Nodes(t) && Sub(t, !dir).node in Nodes(t) && Nodes(Sub(Sub(t, !dir), dir)) <= Nodes(t)
    ensures if c.Root? then CTop(c) == NULL
            else IsNode(m, c.node) && c.node in CNodes(c) && c.dir == (t.node == m[c.node].right)
  {
    NodesSub(t, dir);
    NodesSub(Sub(t, !dir), dir);
    if c.Step? && c.sib.N? {
      assert c.sib.node in Nodes(c.sib) && t.node in Nodes(t);
    }
  }

  lemma {:induction false} NullOutside(m: Mem, t: Tree, p: Ptr)
    requires Links(m, t, p)
    ensures NULL !in Nodes(t) && forall x | x in Nodes(t) :: IsNode(m, x)
  {
    if t.N? {
      NullOutside(m, t.left, t.node);
      NullOutside(m, t.right, t.node);
    }
  }

  lemma {:induction false} CNullOutside(m: Mem, c: Ctx, hole: Ptr, root: Ptr)
    requires CLinks(m, c, hole, root)
    ensures NULL !in CNodes(c) && forall x | x in CNodes(c) :: IsNode(m, x)
  {
    if c.Step? {
      NullOutside(m, c.sib, c.node);
      CNullOutside(m, c.up, c.node, root);
    }
  }
}
