/** The intrusive red-black tree: rotations, insertion and removal by pointer surgery on node records. */
module RedBlackTree {
  import opened Bits
  import Lists
  import opened Memory
  import opened RbShape
  import opened RbMemory
  import opened RbFixup
  import opened RbInsertion
  import opened RbRemoval
  import opened RbSearch

  class RbTree {
    var root: Ptr
    var mem: Mem
    /** The key of each node, which its owner may change while the node is out of the tree. */
    var valueOfNode: Ptr -> nat
    ghost var shape: Tree

    ghost predicate Valid()
      reads this
    {
      Rep(mem, root, Root, shape) && RedBlack(shape) && Ascending(valueOfNode, InOrder(shape))
    }

    /** The members in key order. */
    ghost function Contents(): seq<Ptr>
      reads this`shape
    {
      InOrder(shape)
    }

    /** However the tree was built, its height is at most 2 * log2(n + 1). */
    lemma Shallow()
      requires Valid()
      ensures Pow2(Height(shape)) <= (|Contents()| + 1) * (|Contents()| + 1)
    {
      HeightBound(shape);
    }

    lemma MembersOnce()
      requires Valid()
      ensures Lists.NoDup(Contents())
    {
      InOrderNoDup(shape);
    }

    constructor (valueOfNode: Ptr -> nat, mem: Mem)
      ensures Valid() && Contents() == [] && this.mem == mem && this.valueOfNode == valueOfNode
    {
      this.valueOfNode := valueOfNode;
      this.mem := mem;
      root := NULL;
      shape := Nil;
      new;
      assert Bal(shape, 0);
    }

    /** The owner gives a node that is not in the tree another key. */
    method Rekey(node: Ptr, key: nat)
      requires Valid() && node !in Contents()
      modifies this`valueOfNode
      ensures Valid() && valueOfNode(node) == key
      ensures forall x | x != node :: valueOfNode(x) == old(valueOfNode)(x)
    {
      var f := valueOfNode;
      valueOfNode := x => if x == node then key else f(x);
    }

    /** A new zeroed node record, in no tree. */
    method NewNode() returns (n: Ptr)
      requires Valid()
      modifies this`mem
      ensures Valid() && n !in old(mem) && n != NULL && mem == old(mem)[n := NodeRec(NULL, false, NULL, NULL)]
    {
      FreshAddress(mem.Keys);
      n :| n !in mem && n != NULL;
      LinksGrow(mem, n, NodeRec(NULL, false, NULL, NULL), shape, NULL);
      mem := mem[n := NodeRec(NULL, false, NULL, NULL)];
    }

    // ---- field writes ----

    method SetParent(n: Ptr, p: Ptr)
      requires n in mem
      modifies this`mem
      ensures mem == old(mem)[n := old(mem)[n].(parent := p)]
    {
      mem := mem[n := mem[n].(parent := p)];
    }

    method SetColour(n: Ptr, black: bool)
      requires n in mem
      modifies this`mem
      ensures mem == old(mem)[n := old(mem)[n].(black := black)]
    {
      mem := mem[n := mem[n].(black := black)];
    }

    method SetChild(n: Ptr, dir: Dir, p: Ptr)
      requires n in mem
      modifies this`mem
      ensures mem == old(mem)[n := WithChild(old(mem)[n], dir, p)]
    {
      mem := mem[n := WithChild(mem[n], dir, p)];
    }

    // ---- rotation ----

    /** The pointer writes of a rotation; `p` and `side` say where `sub` hangs. */
    method RotateSubtree(sub: Ptr, dir: Dir, ghost c: Ctx) returns (newRoot: Ptr)
      requires IsNode(mem, sub) && IsNode(mem, Child(mem[sub], !dir)) && mem[sub].parent == CTop(c)
      requires var up := Child(mem[sub], !dir);
               var b := Child(mem[up], dir);
               && sub != up && b !in {sub, up} && CTop(c) !in {sub, up}
               && (b != NULL ==> IsNode(mem, b) && b != CTop(c))
               && (c.Step? ==> IsNode(mem, c.node) && c.dir == (sub == mem[c.node].right))
      modifies this`mem, this`root
      ensures newRoot == old(Child(mem[sub], !dir))
      ensures RotationWrites(old(mem), mem, old(root), root, c, sub, newRoot,
                             old(Child(mem[Child(mem[sub], !dir)], dir)), dir)
    {
      var subParent := mem[sub].parent;
      newRoot := Child(mem[sub], !dir);
      var newChild := Child(mem[newRoot], dir);
      SetChild(sub, !dir, newChild);
      if newChild != NULL {
        SetParent(newChild, sub);
      }
      SetChild(newRoot, dir, sub);
      SetParent(newRoot, subParent);
      SetParent(sub, newRoot);
      if subParent != NULL {
        SetChild(subParent, sub == mem[subParent].right, newRoot);
      } else {
        root := newRoot;
      }
    }

    /** A rotation of the subtree `t` in context `c`. */
    method Rotate(sub: Ptr, dir: Dir, ghost c: Ctx, ghost t: Tree) returns (newRoot: Ptr)
      requires Rep(mem, root, c, t) && t.N? && t.node == sub && Sub(t, !dir).N?
      modifies this`mem, this`root
      ensures Rep(mem, root, c, Rot(t, dir)) && newRoot == Sub(t, !dir).node
      ensures SameOutside(old(mem), mem, Nodes(t) + CNodes(c))
    {
      RotationLinks(mem, root, c, t, dir);
      RotationParts(mem, root, c, t, dir);
      RotationInside(mem, root, c, t, dir);
      newRoot := RotateSubtree(sub, dir, c);
      RepRotate(old(mem), mem, old(root), root, c, t, dir);
    }

    // ---- insertion ----

    /** Case 2 of the insert fixup. */
    method RecolourUncle(parent: Ptr, uncle: Ptr, grandparent: Ptr, ghost c: Ctx, ghost t: Tree, ghost h: nat)
      requires Rep(mem, root, c, t) && InsertFocus(c, t, h) && c.Step? && !c.black && !IsBlack(c.up.sib)
      requires parent == c.node && grandparent == c.up.node && uncle == c.up.sib.node
      modifies this`mem
      ensures Rep(mem, root, c.up.up, Recoloured(c, t)) && InsertFocus(c.up.up, Recoloured(c, t), h + 1)
      ensures Order(c.up.up, Recoloured(c, t)) == Order(c, t)
      ensures SameOutside(old(mem), mem, Elems(Order(c, t)))
      ensures grandparent in mem && mem[grandparent].parent == CTop(c.up.up)
    {
      OrderElems(c, t);
      RepRecoloured(mem, root, c, t);
      RecolouredFocus(c, t, h);
      SetColour(parent, true);
      SetColour(uncle, true);
      SetColour(grandparent, false);
    }

    /** Cases 5 and 6 of the insert fixup. */
    method RotateGrandparent(node: Ptr, parent: Ptr, grandparent: Ptr, dir: Dir, ghost c: Ctx, ghost t: Tree,
                             ghost h: nat)
      requires Rep(mem, root, c, t) && InsertFocus(c, t, h) && c.Step? && !c.black && IsBlack(c.up.sib)
      requires node == t.node && parent == c.node && grandparent == c.up.node && dir == c.up.dir
      modifies this`mem, this`root, this`shape
      ensures Rep(mem, root, Root, shape) && RedBlack(shape) && InOrder(shape) == Order(c, t)
      ensures SameOutside(old(mem), mem, Elems(Order(c, t)))
    {
      hide *;
      OrderElems(c, t);
      StraightenedFocus(c, t, h);
      StraightenedOrder(c, t);
      ghost var p := Straightened(c, t);
      var parent' := Straighten(node, parent, grandparent, dir, c, t);
      OrderElems(c.up, p);
      ghost var m := mem;
      LiftGrandparent(parent', grandparent, dir, c.up, p);
      SameTrans(old(mem), m, mem, Order(c, t));
      LiftedBalanced(c.up, p, h);
      LiftedOrder(c.up, p);
      Settle(c.up.up, Lifted(c.up, p), h + 1);
    }

    /** Case 5: makes the red child of `parent` the outer one. */
    method Straighten(node: Ptr, parent: Ptr, grandparent: Ptr, dir: Dir, ghost c: Ctx, ghost t: Tree)
        returns (parent': Ptr)
      requires Rep(mem, root, c, t) && t.N? && c.Step? && c.up.Step?
      requires node == t.node && parent == c.node && grandparent == c.up.node && dir == c.up.dir
      modifies this`mem, this`root
      ensures Rep(mem, root, c.up, Straightened(c, t)) && parent' == Straightened(c, t).node
      ensures SameOutside(old(mem), mem, All(c, t))
    {
      ghost var p := Mk(c.dir, c.black, t, c.node, c.sib);
      parent' := parent;
      FocusFacts(mem, root, c, t);
      RepUp(mem, root, c, t);
      WholeStep(c, t);
      if node == Child(mem[parent], !dir) {
        var _ := Rotate(parent, dir, c.up, p);
        parent' := Child(mem[grandparent], dir);
      }
    }

    method LiftGrandparent(parent: Ptr, grandparent: Ptr, dir: Dir, ghost g: Ctx, ghost p: Tree)
      requires Rep(mem, root, g, p) && p.N? && g.Step?
      requires parent == p.node && grandparent == g.node && dir == g.dir
      modifies this`mem, this`root
      ensures Rep(mem, root, g.up, Lifted(g, p))
      ensures SameOutside(old(mem), mem, All(g, p))
    {
      ghost var gp := Mk(dir, g.black, p, g.node, g.sib);
      RepUp(mem, root, g, p);
      WholeStep(g, p);
      var _ := Rotate(grandparent, !dir, g.up, gp);
      ghost var r := Rot(gp, !dir);
      RotKeepsNodes(gp, !dir);
      NullOutside(mem, r, CTop(g.up));
      RepRecolour(mem, root, g.up, r, true);
      SetColour(parent, true);
      ghost var r1 := r.(black := true);
      RepDown(mem, root, g.up, r1, !dir);
      RepRecolour(mem, root, Down(g.up, r1, !dir), Sub(r1, !dir), false);
      SetColour(grandparent, false);
      RepUp(mem, root, Down(g.up, r1, !dir), Sub(r1, !dir).(black := false));
    }

    /** Repairs the red node `t` in context `c`; its only fault is a red parent or being a red root. */
    method InsertFixup(node0: Ptr, parent0: Ptr, ghost c0: Ctx, ghost t0: Tree, ghost h0: nat)
      requires Rep(mem, root, c0, t0) && InsertFocus(c0, t0, h0) && node0 == t0.node && parent0 == CTop(c0)
      modifies this`mem, this`root, this`shape
      ensures Rep(mem, root, Root, shape) && RedBlack(shape) && InOrder(shape) == Order(c0, t0)
      ensures SameOutside(old(mem), mem, Elems(Order(c0, t0)))
    {
      hide *;
      var node, parent := node0, parent0;
      ghost var c, t, h := c0, t0, h0;
      ghost var order := Order(c0, t0);
      InsertFocusFacts(c, t, h);
      FocusFacts(mem, root, c, t);
      SetColour(node, false);
      assert mem == old(mem);
      SameRefl(mem, order);
      if parent == NULL {
        root := node;
        BlackenRoot(node, t, h);
        return;
      }
      while parent != NULL
        invariant Rep(mem, root, c, t) && InsertFocus(c, t, h) && node == Top(t) && parent == CTop(c)
        invariant Order(c, t) == order && SameOutside(old(mem), mem, Elems(order))
        decreases c
      {
        ghost var m := mem;
        var done, node', parent' := InsertFixupStep(node, parent, c, t, h);
        SameTrans(old(mem), m, mem, order);
        if done {
          return;
        }
        ghost var c', t' := c, t;
        c, t, h := c'.up.up, Recoloured(c', t'), h + 1;
        node, parent := node', parent';
      }
      InsertFocusFacts(c, t, h);
      FocusFacts(mem, root, c, t);
      ghost var m := mem;
      BlackenRoot(root, t, h);
      SameTrans(old(mem), m, mem, order);
    }

    /** One round of the insert fixup: either the tree is repaired or the fault moves two levels up. */
    method InsertFixupStep(node: Ptr, parent: Ptr, ghost c: Ctx, ghost t: Tree, ghost h: nat)
        returns (done: bool, node': Ptr, parent': Ptr)
      requires Rep(mem, root, c, t) && InsertFocus(c, t, h) && node == Top(t) && parent == CTop(c) && parent != NULL
      modifies this`mem, this`root, this`shape
      ensures SameOutside(old(mem), mem, Elems(Order(c, t)))
      ensures done ==> Rep(mem, root, Root, shape) && RedBlack(shape) && InOrder(shape) == Order(c, t)
      ensures !done ==>
                && c.Step? && c.up.Step? && c.up.sib.N? && Rep(mem, root, c.up.up, Recoloured(c, t))
                && InsertFocus(c.up.up, Recoloured(c, t), h + 1) && Order(c.up.up, Recoloured(c, t)) == Order(c, t)
                && node' == Top(Recoloured(c, t)) && parent' == CTop(c.up.up)
    {
      node', parent' := node, parent;
      FocusFacts(mem, root, c, t);
      if mem[parent].black {
        Settle(c, t, h);
        return true, node', parent';
      }
      var grandparent := mem[parent].parent;
      if grandparent == NULL {
        // case 4: a red root
        assert false;
      }
      ParentSide(mem, root, c, t);
      var dir := parent == mem[grandparent].right;
      var uncle := Child(mem[grandparent], !dir);
      if uncle == NULL || mem[uncle].black {
        RotateGrandparent(node, parent, grandparent, dir, c, t, h);
        return true, node', parent';
      }
      RecolourUncle(parent, uncle, grandparent, c, t, h);
      node' := grandparent;
      parent' := mem[node'].parent;
      return false, node', parent';
    }

    /** Case 3: the red root turns black. */
    method BlackenRoot(n: Ptr, ghost t: Tree, ghost h: nat)
      requires Rep(mem, root, Root, t) && InsertFocus(Root, t, h) && n == root
      modifies this`mem, this`shape
      ensures Rep(mem, root, Root, shape) && RedBlack(shape) && InOrder(shape) == InOrder(t)
      ensures SameOutside(old(mem), mem, Elems(InOrder(t)))
    {
      InOrderElems(t);
      RepRecolour(mem, root, Root, t, true);
      SetColour(n, true);
      shape := t.(black := true);
      assert Bal(shape, h + 1);
    }

    /** The repaired focus makes the whole tree valid. */
    ghost method Settle(c: Ctx, t: Tree, h: nat)
      requires Rep(mem, root, c, t) && Balanced(c, t, h)
      modifies this`shape
      ensures Rep(mem, root, Root, shape) && RedBlack(shape) && InOrder(shape) == Order(c, t)
    {
      RepPlug(mem, root, c, t);
      PlugOrder(c, t);
      PlugRedBlack(c, t, h);
      shape := Plug(c, t);
    }

    /** Where a new key belongs: the parent it hangs from, on the side of greater keys when equal. */
    method DescendToLeaf(key: nat, ghost h0: nat) returns (parent: Ptr, dir: Dir, ghost c: Ctx, ghost h: nat)
      requires Rep(mem, root, Root, shape) && Balanced(Root, shape, h0)
      requires Ascending(valueOfNode, InOrder(shape)) && root == Top(shape)
      ensures Rep(mem, root, c, Nil) && Balanced(c, Nil, h) && Order(c, Nil) == InOrder(shape)
      ensures KeysAround(valueOfNode, c, key) && parent == CTop(c) && (c.Step? ==> dir == c.dir)
    {
      hide Rep, Balanced, Order, InOrder, KeysAround, Ascending, Top, CTop, Sub, Down, Weight;
      var cur := root;
      parent, dir := NULL, RB_LEFT;
      ghost var t := shape;
      c, h := Root, h0;
      RootFacts(valueOfNode, shape, key);
      while cur != NULL
        invariant Rep(mem, root, c, t) && cur == Top(t) && parent == CTop(c) && (c.Step? ==> dir == c.dir)
        invariant Balanced(c, t, h) && Order(c, t) == InOrder(shape) && KeysAround(valueOfNode, c, key)
        decreases t
      {
        DescentFacts(mem, root, c, t);
        parent := cur;
        var curVal := valueOfNode(cur);
        if key < curVal {
          dir := RB_LEFT;
          cur := mem[cur].left;
        } else {
          dir := RB_RIGHT;
          cur := mem[cur].right;
        }
        DescendFurther(valueOfNode, mem, root, c, t, h, key, dir);
        c, t, h := Down(c, t, dir), Sub(t, dir), h - Weight(t.black);
      }
      LeafEnd(mem, root, c, t);
    }

    method InsertAt(node: Ptr) returns (ghost i: nat)
      requires Rep(mem, root, Root, shape) && RedBlack(shape) && Ascending(valueOfNode, InOrder(shape))
      requires IsNode(mem, node) && node !in InOrder(shape)
      modifies this`mem, this`root, this`shape
      ensures Rep(mem, root, Root, shape) && RedBlack(shape) && Ascending(valueOfNode, InOrder(shape))
      ensures var s := old(InOrder(shape));
              && SplitAt(valueOfNode, s, valueOfNode(node), i) && i <= |s|
              && InOrder(shape) == s[..i] + [node] + s[i..]
      ensures SameOutside(old(mem), mem, Elems(InOrder(shape)))
    {
      hide *;
      ghost var h := StartDescent(valueOfNode, mem, root, shape, node);
      mem := mem[node := BLANK];
      BlankNode(old(mem), node);
      var key := valueOfNode(node);
      var parent, dir, c, h' := DescendToLeaf(key, h);
      LeafFacts(mem, root, c, h', node);
      i := LeafOrder(valueOfNode, c, node);
      ghost var m := mem;
      if parent == NULL {
        root := node;
      } else {
        SetParent(node, parent);
        SetChild(parent, dir, node);
        LeafSame(m, mem, node, parent, dir);
      }
      ghost var leaf, m' := N(false, Nil, node, Nil), mem;
      InsertFixup(node, parent, c, leaf, 0);
      BlankSame(old(mem), m, m', mem, node, CTop(c), InOrder(shape));
    }

    /** Adds `node` after every member whose key is not greater, and changes no record outside the tree. */
    method Insert(node: Ptr) returns (r: Ptr)
      requires Valid() && IsNode(mem, node) && node !in Contents()
      modifies this`mem, this`root, this`shape
      ensures Valid() && r == node
      ensures exists i | 0 <= i <= |old(Contents())| ::
                && SplitAt(valueOfNode, old(Contents()), valueOfNode(node), i)
                && Contents() == old(Contents())[..i] + [node] + old(Contents())[i..]
      ensures SameOutside(old(mem), mem, Elems(Contents()))
    {
      var i := InsertAt(node);
      r := node;
    }

    // ---- removal ----

    /** Case 3 of the remove fixup: a red sibling. */
    method LiftSibling(parent: Ptr, sibling: Ptr, dir: Dir, ghost c: Ctx, ghost t: Tree) returns (sibling': Ptr)
      requires Rep(mem, root, c, t) && c.Step? && c.sib.N? && Sub(c.sib, c.dir).N?
      requires parent == c.node && sibling == c.sib.node && dir == c.dir
      modifies this`mem, this`root
      ensures Rep(mem, root, SiblingLifted(c), t) && sibling' == Sub(c.sib, dir).node
      ensures SameOutside(old(mem), mem, All(c, t))
    {
      ghost var c1 := c.(black := false);
      ghost var sib1 := c.sib.(black := true);
      ghost var p := Mk(dir, false, t, c.node, sib1);
      InsideAll(mem, root, c, t);
      RepRecolourParent(mem, root, c, t, false);
      SetColour(parent, false);
      RepRecolourSibling(mem, root, c1, t, true);
      SetColour(sibling, true);
      ghost var c2 := c1.(sib := sib1);
      SiblingChild(mem, root, c2, t);
      sibling' := Child(mem[sibling], dir);
      RepUp(mem, root, c2, t);
      WholeStep(c2, t);
      ghost var m := mem;
      var _ := Rotate(parent, dir, c.up, p);
      SiblingLiftedRep(mem, root, c, t);
    }

    /** Case 6 of the remove fixup: a red distant nephew. */
    method LiftDistant(parent: Ptr, sibling: Ptr, distant: Ptr, dir: Dir, ghost c: Ctx, ghost t: Tree)
      requires Rep(mem, root, c, t) && c.Step? && c.sib.N? && Sub(c.sib, !c.dir).N?
      requires parent == c.node && sibling == c.sib.node && distant == Sub(c.sib, !c.dir).node && dir == c.dir
      modifies this`mem, this`root
      ensures Rep(mem, root, c.up, DistantLifted(c, t))
      ensures SameOutside(old(mem), mem, All(c, t))
    {
      hide *;
      ghost var p := Mk(dir, c.black, t, c.node, c.sib);
      FamilyInside(c, t, !c.dir);
      ParentFocus(mem, root, c, t, c.sib);
      var _ := Rotate(parent, dir, c.up, p);
      DistantLiftedRep(mem, root, c, t);
      ghost var m0 := mem;
      SetColour(sibling, mem[parent].black);
      ghost var m1 := mem;
      SetColour(distant, true);
      ghost var m2 := mem;
      SetColour(parent, true);
      SameWrite(old(mem), m0, sibling, m1, All(c, t));
      SameWrite(old(mem), m1, distant, m2, All(c, t));
      SameWrite(old(mem), m2, parent, mem, All(c, t));
    }

    /** Case 5 of the remove fixup: a red close nephew. */
    method LiftClose(parent: Ptr, sibling: Ptr, close: Ptr, dir: Dir, ghost c: Ctx, ghost t: Tree)
      requires Rep(mem, root, c, t) && c.Step? && c.sib.N? && c.sib.black && Sub(c.sib, c.dir).N?
      requires parent == c.node && sibling == c.sib.node && close == Sub(c.sib, c.dir).node && dir == c.dir
      modifies this`mem, this`root
      ensures Rep(mem, root, c.up, CloseLifted(c, t))
      ensures SameOutside(old(mem), mem, All(c, t))
    {
      hide *;
      FamilyInside(c, t, c.dir);
      ghost var d := SiblingFocus(mem, root, c, t);
      var _ := Rotate(sibling, !dir, d, c.sib);
      RotatedSibling(mem, root, c, t);
      ghost var sib' := Rot(c.sib, !dir);
      ghost var c' := c.(sib := sib');
      ghost var m := mem;
      ParentFocus(mem, root, c', t, sib');
      ghost var p := Mk(dir, c.black, t, c.node, sib');
      var _ := Rotate(parent, dir, c.up, p);
      SameBoth(old(mem), m, mem, All(c, t));
      CloseLiftedRep(mem, root, c, t);
      ghost var m0 := mem;
      SetColour(close, mem[parent].black);
      ghost var m1 := mem;
      SetColour(parent, true);
      SameWrite(old(mem), m0, close, m1, All(c, t));
      SameWrite(old(mem), m1, parent, mem, All(c, t));
    }

    /** Repairs a focus `t` that is one black node short. */
    method RemoveFixup(node: Ptr, dir0: Dir, ghost c0: Ctx, ghost t0: Tree, ghost h0: nat)
      requires Rep(mem, root, c0, t0) && RemoveFocus(c0, t0, h0)
      requires node in mem && mem[node].parent == CTop(c0) && c0.Step? && dir0 == c0.dir
      modifies this`mem, this`root, this`shape
      ensures Rep(mem, root, Root, shape) && RedBlack(shape) && InOrder(shape) == Order(c0, t0)
      ensures SameOutside(old(mem), mem, Elems(Order(c0, t0)))
    {
      hide *;
      var parent, dir := mem[node].parent, dir0;
      ghost var c, t, h := c0, t0, h0;
      ghost var order := Order(c0, t0);
      StepTop(mem, root, c, t);
      SameRefl(mem, order);
      while parent != NULL
        invariant Rep(mem, root, c, t) && RemoveFocus(c, t, h) && parent == CTop(c) && (c.Step? ==> dir == c.dir)
        invariant Order(c, t) == order && SameOutside(old(mem), mem, Elems(order))
        decreases c
      {
        ghost var m := mem;
        StepTop(mem, root, c, t);
        var done, parent', dir' := RemoveFixupStep(parent, dir, c, t, h);
        SameTrans(old(mem), m, mem, order);
        if done {
          return;
        }
        c, t, h := c.up, SiblingReddened(c, t), h + 1;
        parent, dir := parent', dir';
      }
      FixedAtRoot(mem, root, c, t, h);
      Settle(c, t, h);
    }

    /** One round of the remove fixup: either the tree is repaired or the fault moves one level up. */
    method RemoveFixupStep(parent: Ptr, dir: Dir, ghost c: Ctx, ghost t: Tree, ghost h: nat)
        returns (done: bool, parent': Ptr, dir': Dir)
      requires Rep(mem, root, c, t) && RemoveFocus(c, t, h) && c.Step? && parent == c.node && dir == c.dir
      modifies this`mem, this`root, this`shape
      ensures SameOutside(old(mem), mem, Elems(Order(c, t)))
      ensures done ==> Rep(mem, root, Root, shape) && RedBlack(shape) && InOrder(shape) == Order(c, t)
      ensures !done ==>
                && c.sib.N? && Rep(mem, root, c.up, SiblingReddened(c, t))
                && RemoveFocus(c.up, SiblingReddened(c, t), h + 1)
                && Order(c.up, SiblingReddened(c, t)) == Order(c, t)
                && parent' == CTop(c.up) && (c.up.Step? ==> dir' == c.up.dir)
    {
      hide *;
      SiblingPresent(c, t, h);
      InsideAll(mem, root, c, t);
      var sibling := Child(mem[parent], !dir);
      SibFacts(mem, root, c, t);
      if !mem[sibling].black {
        OrderElems(c, t);
        RedSiblingChild(c, t, h);
        var sibling' := LiftSibling(parent, sibling, dir, c, t);
        SiblingLiftedFocus(c, t, h);
        ghost var m := mem;
        done, parent', dir' := NephewCases(parent, sibling', dir, SiblingLifted(c), t, h);
        SameTrans(old(mem), m, mem, Order(c, t));
      } else {
        done, parent', dir' := NephewCases(parent, sibling, dir, c, t, h);
      }
    }

    /** Cases 6, 5, 4 and 2 of the remove fixup, the sibling being black. */
    method NephewCases(parent: Ptr, sibling: Ptr, dir: Dir, ghost c: Ctx, ghost t: Tree, ghost h: nat)
        returns (done: bool, parent': Ptr, dir': Dir)
      requires Rep(mem, root, c, t) && RemoveFocus(c, t, h) && c.Step? && c.sib.N? && c.sib.black
      requires parent == c.node && sibling == c.sib.node && dir == c.dir
      modifies this`mem, this`root, this`shape
      ensures SameOutside(old(mem), mem, Elems(Order(c, t))) && (!c.black ==> done)
      ensures done ==> Rep(mem, root, Root, shape) && RedBlack(shape) && InOrder(shape) == Order(c, t)
      ensures !done ==>
                && Rep(mem, root, c.up, SiblingReddened(c, t)) && RemoveFocus(c.up, SiblingReddened(c, t), h + 1)
                && Order(c.up, SiblingReddened(c, t)) == Order(c, t)
                && parent' == CTop(c.up) && (c.up.Step? ==> dir' == c.up.dir)
    {
      hide *;
      NephewFacts(mem, root, c, t, !dir);
      NephewFacts(mem, root, c, t, dir);
      OrderElems(c, t);
      parent', dir' := parent, dir;
      var distant := Child(mem[sibling], !dir);
      var close := Child(mem[sibling], dir);
      if distant != NULL && !mem[distant].black {
        LiftDistant(parent, sibling, distant, dir, c, t);
        DistantLiftedBalanced(c, t, h);
        DistantLiftedOrder(c, t);
        Settle(c.up, DistantLifted(c, t), h + 1 + Weight(c.black));
        return true, parent', dir';
      }
      if close != NULL && !mem[close].black {
        LiftClose(parent, sibling, close, dir, c, t);
        CloseLiftedBalanced(c, t, h);
        CloseLiftedOrder(c, t);
        Settle(c.up, CloseLifted(c, t), h + 1 + Weight(c.black));
        return true, parent', dir';
      }
      ReddenedRep(mem, root, c, t);
      ReddenedOutcome(c, t, h);
      SetColour(sibling, false);
      SameRefl(old(mem), Order(c, t));
      SameWrite(old(mem), old(mem), sibling, mem, All(c, t));
      ghost var m := mem;
      if !mem[parent].black {
        SetColour(parent, true);
        SameWrite(old(mem), m, parent, mem, All(c, t));
        Settle(c.up, SiblingReddened(c, t), h + 1);
        return true, parent', dir';
      }
      ReddenedTop(c, t);
      WhichSide(mem, root, c.up, SiblingReddened(c, t));
      parent' := mem[parent].parent;
      dir' := parent' != NULL && mem[parent'].right == parent;
      return false, parent', dir';
    }

    /** Takes out a node with at most one child and repairs the balance. */
    method CutNode(node: Ptr, ghost c: Ctx, ghost t: Tree, ghost h: nat) returns (replacement: Ptr)
      requires Rep(mem, root, c, t) && Balanced(c, t, h) && t.N? && AtMostOneChild(t) && t.node == node
      modifies this`mem, this`root, this`shape
      ensures Rep(mem, root, Root, shape) && RedBlack(shape) && InOrder(shape) == Order(c, Only(t))
      ensures SameOutside(old(mem), mem, Elems(Order(c, t))) && replacement == Top(Only(t))
    {
      hide *;
      NodeFacts(mem, root, c, t);
      OnlyTop(t);
      CutRep(mem, root, c, t);
      StepTop(mem, root, c, t);
      OnlyBalanced(c, t, h);
      OrderElems(c, t);
      CutInside(c, t);
      SameRefl(mem, Order(c, t));
      var parent := mem[node].parent;
      var dir := RB_LEFT;
      replacement := if mem[node].left != NULL then mem[node].left else mem[node].right;
      ghost var m0 := mem;
      if replacement != NULL {
        SetParent(replacement, parent);
        SameWrite(m0, m0, replacement, mem, All(c, t));
      }
      ghost var m1 := mem;
      if parent == NULL {
        root := replacement;
      } else {
        dir := node == mem[parent].right;
        SetChild(parent, dir, replacement);
        SameWrite(m0, m1, parent, mem, All(c, t));
      }
      ghost var m2 := mem;
      if mem[node].black {
        if replacement != NULL && !mem[replacement].black {
          RepRecolour(mem, root, c, Only(t), true);
          SetColour(replacement, true);
          SameWrite(m0, m2, replacement, mem, All(c, t));
          RecolourOrder(c, Only(t));
          Settle(c, Only(t).(black := true), h);
        } else if replacement != NULL {
          // an only child is red
          NodeFacts(mem, root, c, Only(t));
          assert false;
        } else if parent != NULL {
          RemoveFixup(node, dir, c, Nil, 0);
          SameWiden(m2, mem, Order(c, Nil), Order(c, t));
          SameBoth(m0, m2, mem, All(c, t));
        } else {
          LastNode(mem, root, c);
          Settle(c, Nil, 0);
        }
      } else {
        Settle(c, Only(t), h);
      }
    }

    /** The leftmost node of a subtree. */
    method Minimum(start: Ptr, ghost c: Ctx, ghost t: Tree, ghost h: nat)
        returns (node: Ptr, ghost c': Ctx, ghost t': Tree, ghost h': nat)
      requires Rep(mem, root, c, t) && Balanced(c, t, h) && start == Top(t)
      ensures t.Nil? ==> node == NULL
      ensures t.N? ==>
                && Rep(mem, root, c', t') && Balanced(c', t', h') && t'.N? && t'.left.Nil? && node == t'.node
                && OnLeftSpine(c, t, c', t') && Order(c', t') == Order(c, t)
    {
      hide *;
      c', t', h' := c, t, h;
      node := start;
      TopFacts(mem, root, c, t);
      SpineStart(c, t);
      if node == NULL {
        return;
      }
      NodeFacts(mem, root, c, t);
      while mem[node].left != NULL
        invariant Rep(mem, root, c', t') && Balanced(c', t', h') && t'.N? && node == t'.node && node in mem
        invariant mem[node].left == Top(t'.left) && (t'.left.N? <==> Top(t'.left) != NULL)
        invariant OnLeftSpine(c, t, c', t') && Order(c', t') == Order(c, t)
        decreases t'
      {
        SpineStep(mem, root, c, t, c', t', h');
        node := mem[node].left;
        c', t', h' := Down(c', t', RB_LEFT), t'.left, h' - Weight(t'.black);
        TopFacts(mem, root, c', t');
        NodeFacts(mem, root, c', t');
      }
    }

    /** Exchanges `node` with its successor by relinking their neighbours. */
    method Relink(node: Ptr, succ: Ptr, ghost s: set<Ptr>)
      requires Mutual(mem, s) && RelinkReady(mem, s, node, succ) && root in s
      requires mem[node].parent == NULL <==> root == node
      requires mem[succ].parent == NULL <==> root == succ
      modifies this`mem, this`root
      ensures Exchanged(old(mem), mem, node, succ, s) && root == Swap(node, succ, old(root))
      ensures SameOutside(old(mem), mem, s)
    {
      RelinkPointers(node, succ, s);
      RelinkExchanges(old(mem), mem, s, node, succ);
      RelinkInside(old(mem), s, node, succ);
    }

    method RelinkPointers(node: Ptr, succ: Ptr, ghost s: set<Ptr>)
      requires RelinkReady(mem, s, node, succ)
      modifies this`mem, this`root
      ensures RelinkWrites(old(mem), mem, s, node, succ)
      ensures root == if old(mem)[node].parent == NULL then succ else old(root)
    {
      var succParent := mem[succ].parent;
      var succRight := mem[succ].right;
      SuccessorTakesPlace(node, succ, s);
      ghost var m := mem;
      if succParent == node {
        SetChild(succ, RB_RIGHT, node);
        SetParent(node, succ);
      } else {
        SetChild(succ, RB_RIGHT, mem[node].right);
        SetParent(mem[succ].right, succ);
        SetChild(succParent, RB_LEFT, node);
        SetParent(node, succParent);
      }
      MiddleWritten(old(mem), m, mem, s, node, succ);
      m := mem;
      NodeTakesPlace(node, succ, succRight);
      BottomWritten(old(mem), m, mem, s, node, succ);
    }

    method SuccessorTakesPlace(node: Ptr, succ: Ptr, ghost s: set<Ptr>)
      requires RelinkReady(mem, s, node, succ)
      modifies this`mem, this`root
      ensures TopWrites(old(mem), mem, s, node, succ)
      ensures root == if old(mem)[node].parent == NULL then succ else old(root)
    {
      SetChild(succ, RB_LEFT, mem[node].left);
      SetParent(mem[succ].left, succ);
      var nodeParent := mem[node].parent;
      SetParent(succ, nodeParent);
      if nodeParent == NULL {
        root := succ;
      } else {
        SetChild(nodeParent, node == mem[nodeParent].right, succ);
      }
    }

    method NodeTakesPlace(node: Ptr, succ: Ptr, succRight: Ptr)
      requires node in mem && succ in mem && node != succ && succRight !in {node, succ}
      requires succRight != NULL ==> succRight in mem
      modifies this`mem
      ensures BottomWrites(old(mem), mem, node, succ, succRight)
    {
      SetChild(node, RB_LEFT, NULL);
      SetChild(node, RB_RIGHT, succRight);
      if mem[node].right != NULL {
        SetParent(mem[node].right, node);
      }
      var tmp := mem[node].black;
      SetColour(node, mem[succ].black);
      SetColour(succ, tmp);
    }

    /** Removes exactly `node` from the members, and changes no record outside the tree. */
    method Remove(node: Ptr) returns (replacement: Ptr)
      requires Valid() && node in Contents()
      modifies this`mem, this`root, this`shape
      ensures Valid()
      ensures exists i | 0 <= i < |old(Contents())| ::
                old(Contents())[i] == node && Contents() == old(Contents())[..i] + old(Contents())[i + 1..]
      ensures SameOutside(old(mem), mem, old(Elems(Contents())))
    {
      ghost var i;
      replacement, i := RemoveAt(node);
    }

    method RemoveAt(node: Ptr) returns (replacement: Ptr, ghost i: nat)
      requires Rep(mem, root, Root, shape) && RedBlack(shape) && Ascending(valueOfNode, InOrder(shape))
      requires node in InOrder(shape)
      modifies this`mem, this`root, this`shape
      ensures Rep(mem, root, Root, shape) && RedBlack(shape) && Ascending(valueOfNode, InOrder(shape))
      ensures var s := old(InOrder(shape));
              i < |s| && s[i] == node && InOrder(shape) == s[..i] + s[i + 1..]
      ensures SameOutside(old(mem), mem, Elems(old(InOrder(shape))))
    {
      hide *;
      ghost var order := InOrder(shape);
      ghost var c, t, h := LocateMember(mem, root, shape, node);
      NodeFacts(mem, root, c, t);
      if mem[node].left != NULL && mem[node].right != NULL {
        RightSubtree(mem, root, c, t, h);
        ghost var d := Down(c, t, RB_RIGHT);
        var succ, cs, ts, hs := Minimum(mem[node].right, d, t.right, h - Weight(t.black));
        RelinkStart(mem, root, c, t, cs, ts);
        Relink(node, succ, All(cs, ts));
        SwapRep(old(mem), mem, node, succ, old(root), cs, ts);
        SwapBalanced(node, succ, cs, ts, hs);
        RelinkedNode(node, ts);
        i := RelinkedRemoval(valueOfNode, c, t, cs, ts);
        ghost var m := mem;
        replacement := CutNode(node, SwapCtx(node, succ, cs), SwapTree(node, succ, ts), hs);
        RelinkedSame(old(mem), m, mem, cs, ts, node);
      } else {
        SingleChild(t);
        i := OnlyOrder(c, t);
        CutAscending(valueOfNode, order, i);
        replacement := CutNode(node, c, t, h);
      }
    }

    // ---- searches ----

    /** The member with the greatest key at or below `query`. */
    method SearchLesserEqual(query: nat) returns (r: Ptr)
      requires Valid()
      ensures r == NULL ==> forall x | x in Contents() :: valueOfNode(x) > query
      ensures r != NULL ==>
                && r in Contents() && valueOfNode(r) <= query
                && forall x | x in Contents() && valueOfNode(x) <= query :: valueOfNode(x) <= valueOfNode(r)
    {
      r := FindLesserEqual(query);
    }

    method FindLesserEqual(query: nat) returns (r: Ptr)
      requires Rep(mem, root, Root, shape) && Ascending(valueOfNode, InOrder(shape))
      ensures r == NULL ==> forall x | x in InOrder(shape) :: valueOfNode(x) > query
      ensures r != NULL ==>
                && r in InOrder(shape) && valueOfNode(r) <= query
                && forall x | x in InOrder(shape) && valueOfNode(x) <= query :: valueOfNode(x) <= valueOfNode(r)
    {
      hide Rep, Order, InOrder, Before, After, KeysApart, Ascending, Top, CTop, Sub, Down, LastOr;
      var node, candidate := root, NULL;
      ghost var c, t := Root, shape;
      SearchStart(valueOfNode, mem, root, shape, query);
      while node != NULL
        invariant Rep(mem, root, c, t) && node == Top(t) && Order(c, t) == InOrder(shape)
        invariant KeysApart(valueOfNode, c, query) && candidate == LastOr(Before(c))
        decreases t
      {
        TopFacts(mem, root, c, t);
        NodeFacts(mem, root, c, t);
        NodeIsMember(c, t);
        var val := valueOfNode(node);
        if val < query {
          SearchStep(valueOfNode, mem, root, c, t, query, RB_RIGHT);
          candidate := node;
          node := mem[node].right;
          c, t := Down(c, t, RB_RIGHT), Sub(t, RB_RIGHT);
        } else if val > query {
          SearchStep(valueOfNode, mem, root, c, t, query, RB_LEFT);
          node := mem[node].left;
          c, t := Down(c, t, RB_LEFT), Sub(t, RB_LEFT);
        } else {
          return node;
        }
      }
      SearchEnd(valueOfNode, mem, root, c, t, query);
      r := candidate;
    }

    /** A member with exactly this key, or null when there is none. */
    method SearchExact(query: nat) returns (r: Ptr)
      requires Valid()
      ensures r != NULL ==> r in Contents() && valueOfNode(r) == query
      ensures r == NULL ==> forall x | x in Contents() :: valueOfNode(x) != query
    {
      r := FindExact(query);
    }

    method FindExact(query: nat) returns (r: Ptr)
      requires Rep(mem, root, Root, shape) && Ascending(valueOfNode, InOrder(shape))
      ensures r != NULL ==> r in InOrder(shape) && valueOfNode(r) == query
      ensures r == NULL ==> forall x | x in InOrder(shape) :: valueOfNode(x) != query
    {
      hide Rep, Order, InOrder, Before, After, KeysApart, Ascending, Top, CTop, Sub, Down, LastOr;
      var node := root;
      ghost var c, t := Root, shape;
      SearchStart(valueOfNode, mem, root, shape, query);
      while node != NULL
        invariant Rep(mem, root, c, t) && node == Top(t) && Order(c, t) == InOrder(shape)
        invariant KeysApart(valueOfNode, c, query)
        decreases t
      {
        TopFacts(mem, root, c, t);
        NodeFacts(mem, root, c, t);
        NodeIsMember(c, t);
        var val := valueOfNode(node);
        if query < val {
          SearchStep(valueOfNode, mem, root, c, t, query, RB_LEFT);
          node := mem[node].left;
          c, t := Down(c, t, RB_LEFT), Sub(t, RB_LEFT);
        } else if query > val {
          SearchStep(valueOfNode, mem, root, c, t, query, RB_RIGHT);
          node := mem[node].right;
          c, t := Down(c, t, RB_RIGHT), Sub(t, RB_RIGHT);
        } else {
          return node;
        }
      }
      SearchEnd(valueOfNode, mem, root, c, t, query);
      r := NULL;
    }

    /** The member closest to `query`; null exactly when every member is UINT64_MAX away. */
    method SearchNearest(query: nat) returns (r: Ptr)
      requires Valid()
      requires query <= UINT64_MAX && forall x | x in Contents() :: valueOfNode(x) <= UINT64_MAX
      ensures r == NULL <==> OutOfReach(valueOfNode, Contents(), query)
      ensures r != NULL ==>
                && r in Contents()
                && forall x | x in Contents() :: Distance(valueOfNode(r), query) <= Distance(valueOfNode(x), query)
    {
      r := FindNearest(query);
    }

    method FindNearest(query: nat) returns (nearest: Ptr)
      requires Rep(mem, root, Root, shape) && Ascending(valueOfNode, InOrder(shape))
      ensures nearest == NULL ==> forall x | x in InOrder(shape) :: Distance(valueOfNode(x), query) >= UINT64_MAX
      ensures nearest != NULL ==>
                && nearest in InOrder(shape)
                && (Distance(valueOfNode(nearest), query) < UINT64_MAX)
                && forall x | x in InOrder(shape) ::
                     Distance(valueOfNode(nearest), query) <= Distance(valueOfNode(x), query)
    {
      hide Rep, Order, InOrder, Before, After, KeysApart, Ascending, Top, CTop, Sub, Down, LastOr, AllFar;
      var node: Ptr, best: nat := root, UINT64_MAX;
      nearest := NULL;
      ghost var c, t := Root, shape;
      SearchStart(valueOfNode, mem, root, shape, query);
      while node != NULL
        invariant Rep(mem, root, c, t) && node == Top(t) && Order(c, t) == InOrder(shape)
        invariant KeysApart(valueOfNode, c, query) && AllFar(valueOfNode, c, query, best)
        invariant if nearest == NULL then best == UINT64_MAX
                  else nearest in InOrder(shape) && best < UINT64_MAX && Distance(valueOfNode(nearest), query) == best
        decreases t
      {
        TopFacts(mem, root, c, t);
        NodeFacts(mem, root, c, t);
        NodeIsMember(c, t);
        var val := valueOfNode(node);
        var dist := if val > query then val - query else query - val;
        ghost var best0 := best;
        if dist < best {
          best := dist;
          nearest := node;
        }
        if query < val {
          SearchStep(valueOfNode, mem, root, c, t, query, RB_LEFT);
          FarStep(valueOfNode, c, t, query, best0, RB_LEFT);
          node := mem[node].left;
          c, t := Down(c, t, RB_LEFT), Sub(t, RB_LEFT);
        } else if query > val {
          SearchStep(valueOfNode, mem, root, c, t, query, RB_RIGHT);
          FarStep(valueOfNode, c, t, query, best0, RB_RIGHT);
          node := mem[node].right;
          c, t := Down(c, t, RB_RIGHT), Sub(t, RB_RIGHT);
        } else {
          return node;
        }
      }
      SearchEnd(valueOfNode, mem, root, c, t, query);
      FarEnd(valueOfNode, c, query, best);
    }

    /** The member after `start` in key order, or null after the last. */
    method Successor(start: Ptr) returns (r: Ptr)
      requires Valid() && start in Contents()
      ensures exists i: nat :: Follows(Contents(), i, start, r)
    {
      ghost var i;
      r, i := Next(start);
      assert Follows(Contents(), i, start, r);
    }

    method Next(start: Ptr) returns (r: Ptr, ghost i: nat)
      requires Rep(mem, root, Root, shape) && RedBlack(shape) && start in InOrder(shape)
      ensures i < |InOrder(shape)| && InOrder(shape)[i] == start
      ensures r == if i + 1 < |InOrder(shape)| then InOrder(shape)[i + 1] else NULL
    {
      hide *;
      ghost var c, t, h := LocateMember(mem, root, shape, start);
      i := |Before(c)| + |InOrder(t.left)|;
      NodeFacts(mem, root, c, t);
      if mem[start].right != NULL {
        RightSubtree(mem, root, c, t, h);
        var succ, cs, ts, hs := Minimum(mem[start].right, Down(c, t, RB_RIGHT), t.right, h - Weight(t.black));
        AfterRight(c, t, cs, ts);
        return succ, i;
      }
      AfterUp(c, t);
      ghost var after := After(c);
      var node, parent := start, mem[start].parent;
      StepTop(mem, root, c, t);
      WhichSide(mem, root, c, t);
      while parent != NULL && node == mem[parent].right
        invariant Rep(mem, root, c, t) && t.N? && node == t.node && parent == CTop(c) && After(c) == after
        invariant parent != NULL <==> c.Step?
        invariant parent != NULL ==> parent in mem && c.node == parent && c.dir == (mem[parent].right == node)
        decreases c
      {
        ClimbStep(mem, root, c, t);
        t, c := Mk(c.dir, c.black, t, c.node, c.sib), c.up;
        node := parent;
        parent := mem[parent].parent;
        StepTop(mem, root, c, t);
        WhichSide(mem, root, c, t);
      }
      if c.Root? {
        ClimbEnd(c);
      } else {
        ClimbStep(mem, root, c, t);
      }
      r := parent;
    }
  }

  /** A nearest search on a tree with one member, as far from the query as can be, does not find it. */
  method MissesFarMember() returns (t: RbTree, n: Ptr, r: Ptr)
    ensures t.Valid() && t.Contents() == [n] && t.valueOfNode(n) == UINT64_MAX
    ensures OutOfReach(t.valueOfNode, t.Contents(), 0) && r == NULL
  {
    hide RbTree.Valid, RbTree.Contents;
    t := new RbTree(_ => UINT64_MAX, map[]);
    n := t.NewNode();
    var _ := t.Insert(n);
    assert t.Contents() == [n];
    r := t.SearchNearest(0);
  }
}
