/** The pairing heap behind thread timeouts: insertion, pop and removal of arbitrary nodes by pointer surgery. */
module PairingHeap {
  import opened Lists
  import opened Memory
  import opened HeapShape
  import opened HeapMemory

  /** The value that marks the left child of a removed node. */
  const REMOVED: Ptr := 1

  class PHeap {
    var head: Ptr
    var mem: Mem
    /** The key of each node, which its owner may change while the node is out of the heap. */
    var valueOfNode: Ptr -> nat
    ghost var shape: Tree
    ghost var known: set<Ptr>

    /** The links of the head's tree are right, except the head's own sibling links, and a node that was ever inserted
        carries the mark exactly when it is out of the heap. */
    ghost predicate Valid()
      reads this
    {
      && head == RootOf(shape) && TreeRep(mem, shape) && ProperTree(shape) && HeapOrdered(valueOfNode, shape)
      && Members(shape) <= known <= mem.Keys
      && Marked(mem, known, Members(shape))
    }

    ghost function Contents(): set<Ptr>
      reads this
    {
      Members(shape)
    }

    constructor (valueOfNode: Ptr -> nat, mem: Mem)
      ensures Valid() && Contents() == {} && known == {} && this.mem == mem && this.valueOfNode == valueOfNode
    {
      this.valueOfNode, this.mem, head, shape, known := valueOfNode, mem, NULL, Empty, {};
    }

    /** The owner gives a node that is not in the heap another key, as a thread that goes to sleep again does. */
    method Rekey(node: Ptr, key: nat)
      requires Valid() && node !in Contents()
      modifies this`valueOfNode
      ensures Valid() && valueOfNode(node) == key
      ensures forall x | x != node :: valueOfNode(x) == old(valueOfNode)(x)
    {
      var f := valueOfNode;
      valueOfNode := x => if x == node then key else f(x);
      OrderedRekeyed(f, valueOfNode, shape, node);
    }

    method Attach(parent: Ptr, child: Ptr)
      requires parent in mem && child in mem && parent != child
               && (mem[parent].left != NULL ==> mem[parent].left in mem)
      requires mem[parent].left != child
      modifies this`mem
      ensures mem == AttachMem(old(mem), parent, child)
    {
      mem := mem[child := mem[child].(prev := parent)];
      mem := mem[child := mem[child].(next := mem[parent].left)];
      if mem[parent].left != NULL {
        mem := mem[mem[parent].left := mem[mem[parent].left].(prev := child)];
      }
      mem := mem[parent := mem[parent].(left := child)];
    }

    method Detach(node: Ptr)
      requires node in mem && mem[node].prev in mem && (mem[node].next != NULL ==> mem[node].next in mem)
      requires mem[node].prev != node
      modifies this`mem
      ensures mem == DetachMem(old(mem), node)
    {
      var prev := mem[node].prev;
      if mem[prev].left == node {
        mem := mem[prev := mem[prev].(left := mem[node].next)];
      } else {
        mem := mem[prev := mem[prev].(next := mem[node].next)];
      }
      if mem[node].next != NULL {
        mem := mem[mem[node].next := mem[mem[node].next].(prev := prev)];
      }
    }

    /** Makes one tree of two. */
    method MeldNodes(first: Ptr, second: Ptr, ghost a: Tree, ghost b: Tree) returns (r: Ptr)
      requires first == RootOf(a) && second == RootOf(b) && TreeRep(mem, a) && TreeRep(mem, b)
      requires ProperTree(a) && ProperTree(b) && Members(a) !! Members(b)
      modifies this`mem
      ensures r == RootOf(Meld(valueOfNode, a, b)) && TreeRep(mem, Meld(valueOfNode, a, b))
      ensures SameOutside(old(mem), mem, Members(a) + Members(b))
    {
      hide Links, Nodes, Proper;
      if first == NULL {
        return second;
      }
      if second == NULL {
        return first;
      }
      LeftPresent(mem, a);
      LeftPresent(mem, b);
      if valueOfNode(first) <= valueOfNode(second) {
        AttachRep(mem, a, b);
        Attach(first, second);
        return first;
      }
      AttachRep(mem, b, a);
      Attach(second, first);
      return second;
    }

    /** Melds the siblings from `cur` on two by two, chaining the results, last pair first. */
    method PairUp(root: Ptr, ghost f: Forest) returns (pairs: Ptr, ghost done: seq<Tree>)
      requires root in mem && mem[root].left == Top(f) && Links(mem, f, root) && Proper(f)
      modifies this`mem
      ensures done == Pairs(valueOfNode, f, []) && pairs == First(done) && ListRep(mem, done)
      ensures SameOutside(old(mem), mem, Nodes(f))
    {
      hide Links, Proper, ListRep, ProperList, AllMembers, Pairs, Meld;
      var cur := mem[root].left;
      pairs := NULL;
      ghost var rem: Forest, back: Ptr := f, root;
      done := [];
      NoPairs(mem);
      while cur != NULL
        invariant cur == Top(rem) && Links(mem, rem, back) && Proper(rem)
        invariant pairs == First(done) && ListRep(mem, done) && ProperList(done) && Nodes(rem) !! AllMembers(done)
        invariant Nodes(rem) + AllMembers(done) == Nodes(f)
        invariant Pairs(valueOfNode, rem, done) == Pairs(valueOfNode, f, [])
        invariant SameOutside(old(mem), mem, Nodes(f))
        decreases rem
      {
        PairFacts(mem, rem, back, done, valueOfNode);
        ghost var m := mem;
        ghost var a, b, after := FirstTree(rem), SecondTree(rem), AfterPair(rem);
        var first := cur;
        var second := mem[first].next;
        cur := if second != NULL then mem[second].next else NULL;
        first := MeldNodes(first, second, a, b);
        ghost var t := Meld(valueOfNode, a, b);
        ghost var m1 := mem;
        mem := mem[first := mem[first].(next := pairs)];
        PairDone(m, m1, rem, back, done, valueOfNode, pairs);
        back := if rem.rest.Nil? then rem.p else rem.rest.p;
        rem := after;
        done := [t] + done;
        pairs := first;
      }
      PairsDone(rem, done, valueOfNode);
    }

    /** Melds the chained trees into one. */
    method FoldUp(pairs0: Ptr, ghost q: seq<Tree>) returns (r: Ptr)
      requires pairs0 == First(q) && ListRep(mem, q) && ProperList(q)
      modifies this`mem
      ensures r == RootOf(Fold(valueOfNode, Empty, q)) && TreeRep(mem, Fold(valueOfNode, Empty, q))
      ensures SameOutside(old(mem), mem, AllMembers(q))
    {
      hide Links, Proper, ListRep, ProperList, AllMembers, Fold, Meld;
      var pairs := pairs0;
      r := NULL;
      ghost var t, rest := Empty, q;
      while pairs != NULL
        invariant pairs == First(rest) && ListRep(mem, rest) && ProperList(rest)
        invariant r == RootOf(t) && TreeRep(mem, t) && ProperTree(t) && Members(t) !! AllMembers(rest)
        invariant Members(t) + AllMembers(rest) == AllMembers(q)
        invariant Fold(valueOfNode, t, rest) == Fold(valueOfNode, Empty, q)
        invariant SameOutside(old(mem), mem, AllMembers(q))
        decreases rest
      {
        FoldStep(mem, rest, t, valueOfNode);
        ghost var m := mem;
        var next := mem[pairs].next;
        r := MeldNodes(r, pairs, t, rest[0]);
        ListFrame(m, mem, rest[1..]);
        t := Meld(valueOfNode, t, rest[0]);
        rest := rest[1..];
        pairs := next;
      }
      FoldDone(rest, t, valueOfNode);
    }

    /** The two-pass merge of a node's children. */
    method MergeChildren(root: Ptr, ghost f: Forest) returns (r: Ptr)
      requires root in mem && mem[root].left == Top(f) && Links(mem, f, root) && Proper(f)
      modifies this`mem
      ensures r == RootOf(Merged(valueOfNode, f)) && TreeRep(mem, Merged(valueOfNode, f))
      ensures SameOutside(old(mem), mem, Nodes(f))
    {
      hide Links, Proper, ListRep, ProperList, AllMembers, Fold, Pairs, Nodes;
      PairsFacts(valueOfNode, f, []) by { NoPairs(mem); }
      NoPairs(mem);
      var pairs;
      ghost var done;
      pairs, done := PairUp(root, f);
      r := FoldUp(pairs, done);
    }

    /** Inserts a node that is not in the heap. */
    method Insert(node: Ptr)
      requires Valid() && node in mem && node >= 2 && node !in Contents()
      modifies this`head, this`mem, this`shape, this`known
      ensures Valid() && Contents() == old(Contents()) + {node} && known == old(known) + {node}
      ensures SameOutside(old(mem), mem, Contents())
    {
      hide Links, Proper, Ordered, Nodes, Meld, Marked;
      ghost var one := Root(node, Nil);
      Single(mem, node, valueOfNode);
      MarkedNodes(mem, known, shape);
      ghost var m := mem;
      mem := mem[node := mem[node].(left := NULL)];
      TreeFrame(m, mem, shape);
      MeldFacts(valueOfNode, shape, one);
      head := MeldNodes(head, node, shape, one);
      ghost var t := Meld(valueOfNode, shape, one);
      MarkAgain(m, mem, known, Members(shape), known + {node}, t);
      known := known + {node};
      shape := t;
    }

    method Peek() returns (r: Ptr)
      requires Valid()
      ensures r == NULL <==> Contents() == {}
      ensures r != NULL ==> r in Contents() && forall x | x in Contents() :: valueOfNode(r) <= valueOfNode(x)
    {
      if shape.Root? { RootIsMinimum(valueOfNode, shape); }
      r := head;
    }

    /** Takes out a node with the least key; null if the heap is empty. */
    method Pop() returns (root: Ptr)
      requires Valid()
      modifies this`head, this`mem, this`shape
      ensures Valid() && (root == NULL <==> old(Contents()) == {}) && root == old(head)
      ensures root == NULL ==> unchanged(this)
      ensures root != NULL ==> root in old(Contents()) && Contents() == old(Contents()) - {root}
      ensures root != NULL ==> forall x | x in old(Contents()) :: valueOfNode(root) <= valueOfNode(x)
      ensures SameOutside(old(mem), mem, old(Contents()))
    {
      hide Links, Proper, Ordered, Nodes, Marked, Merged;
      root := head;
      if root == NULL {
        return;
      }
      RootIsMinimum(valueOfNode, shape);
      MergedFacts(valueOfNode, shape.kids, valueOfNode(root));
      ghost var m, t := mem, Merged(valueOfNode, shape.kids);
      head := MergeChildren(root, shape.kids);
      ghost var m1 := mem;
      mem := mem[root := mem[root].(left := REMOVED)];
      TreeFrame(m1, mem, t);
      MarkedNodes(m, known, shape);
      MarkOut(m, mem, known, Members(shape), t, root);
      shape := t;
    }

    /** Cuts a node other than the head out of the tree and melds its children back in. */
    method RemoveInner(node: Ptr)
      requires Valid() && node in Contents() && node != head
      modifies this`head, this`mem, this`shape
      ensures Valid() && Contents() == old(Contents()) - {node}
      ensures SameOutside(old(mem), mem, old(Contents()))
    {
      hide Links, Proper, Ordered, Nodes, Members, Marked, Merged, Cut, KidsOf, Meld, DetachMem, HeapOrdered;
      hide ProperTree;
      InTree(shape, node);
      RemovalFacts(mem, shape, node, valueOfNode);
      ghost var a, kids := Root(shape.p, Cut(shape.kids, node)), KidsOf(shape.kids, node);
      ghost var b := Merged(valueOfNode, kids);
      MarkedNodes(mem, known, shape);
      Detach(node);
      ghost var m1 := mem;
      var children := MergeChildren(node, kids);
      TreeFrame(m1, mem, a);
      head := MeldNodes(head, children, a, b);
      ghost var t, m2 := Meld(valueOfNode, a, b), mem;
      mem := mem[node := mem[node].(left := REMOVED)];
      TreeFrame(m2, mem, t);
      MarkOut(old(mem), mem, known, Members(shape), t, node);
      shape := t;
    }

    /** Takes out a given node. */
    method Remove(node: Ptr) returns (r: Ptr)
      requires Valid() && node in Contents()
      modifies this`head, this`mem, this`shape
      ensures Valid() && r == node && Contents() == old(Contents()) - {node}
      ensures SameOutside(old(mem), mem, old(Contents()))
    {
      hide TreeRep, ProperTree, HeapOrdered, Marked, Members;
      if node == head {
        r := Pop();
        return;
      }
      RemoveInner(node);
      r := node;
    }

    /** Takes out a node that was inserted at some time, unless it is out already. */
    method TryRemove(node: Ptr) returns (r: Ptr)
      requires Valid() && node in known
      modifies this`head, this`mem, this`shape
      ensures Valid() && r == (if node in old(Contents()) then node else NULL) && Contents() == old(Contents()) - {node}
      ensures r == NULL ==> unchanged(this)
    {
      if mem[node].left != REMOVED {
        r := Remove(node);
      } else {
        r := NULL;
      }
    }

    /** One section under the lock: takes out a node with the least key if that is not above `time`. Null means that at
        this moment no node is due. */
    method PopNextDue(time: nat) returns (node: Ptr)
      requires Valid()
      modifies this`head, this`mem, this`shape
      ensures Valid() && (node == NULL <==> forall x | x in old(Contents()) :: valueOfNode(x) > time)
      ensures node == NULL ==> unchanged(this)
      ensures node != NULL ==>
                && node in old(Contents()) && valueOfNode(node) <= time && Contents() == old(Contents()) - {node}
                && forall x | x in old(Contents()) :: valueOfNode(node) <= valueOfNode(x)
    {
      hide Valid, Members;
      node := Peek();
      if node == NULL || valueOfNode(node) > time {
        return NULL;
      }
      node := Pop();
    }

    /** Takes out the nodes whose keys are not above `time`, in the order in which they are woken. */
    method PopDue(time: nat) returns (woken: seq<Ptr>)
      requires Valid()
      modifies this`head, this`mem, this`shape
      ensures Valid() && forall x :: x in Contents() <==> x in old(Contents()) && valueOfNode(x) > time
      ensures forall x :: x in woken <==> x in old(Contents()) && valueOfNode(x) <= time
      ensures InOrder(valueOfNode, woken) && NoDup(woken)
    {
      hide Valid, Members, InOrder;
      woken := [];
      NothingWoken(valueOfNode);
      while true
        invariant Valid() && InOrder(valueOfNode, woken) && NoDup(woken)
        invariant forall x :: x in old(Contents()) <==> x in woken || x in Contents()
        invariant forall x | x in woken :: x !in Contents() && valueOfNode(x) <= time
        invariant forall x, y | x in woken && y in Contents() :: valueOfNode(x) <= valueOfNode(y)
        decreases |Contents()|
      {
        ghost var before := Contents();
        var node := PopNextDue(time);
        if node == NULL {
          return;
        }
        assert Contents() < before;
        OneMore(valueOfNode, woken, node);
        woken := woken + [node];
      }
    }
  }

  /** Each node once, by nondecreasing key. */
  ghost predicate InOrder(key: Ptr -> nat, q: seq<Ptr>) {
    forall i, j | 0 <= i < j < |q| :: q[i] != q[j] && key(q[i]) <= key(q[j])
  }

  lemma NothingWoken(key: Ptr -> nat)
    ensures InOrder(key, [])
  {
  }

  lemma OneMore(key: Ptr -> nat, q: seq<Ptr>, p: Ptr)
    requires InOrder(key, q) && p !in q && forall x | x in q :: key(x) <= key(p)
    ensures InOrder(key, q + [p])
  {
  }

  /** A node of `known` has address 2 or more and carries the mark exactly when it is not in `members`. */
  ghost predicate Marked(m: Mem, known: set<Ptr>, members: set<Ptr>) {
    forall p | p in known && p in m :: p >= 2 && (m[p].left == REMOVED <==> p !in members)
  }

  function FirstTree(f: Forest): Tree
    requires f.Cons?
  {
    Root(f.p, f.kids)
  }

  function SecondTree(f: Forest): Tree
    requires f.Cons?
  {
    if f.rest.Nil? then Empty else Root(f.rest.p, f.rest.kids)
  }

  function AfterPair(f: Forest): Forest
    requires f.Cons?
  {
    if f.rest.Nil? then Nil else f.rest.rest
  }

  lemma NoPairs(m: Mem)
    ensures ListRep(m, []) && ProperList([]) && AllMembers([]) == {}
  {
  }

  /** The next two siblings, as trees. */
  lemma PairFacts(m: Mem, f: Forest, back: Ptr, done: seq<Tree>, key: Ptr -> nat)
    requires f.Cons? && Links(m, f, back) && Proper(f) && ProperList(done) && Nodes(f) !! AllMembers(done)
    ensures var a, b, after := FirstTree(f), SecondTree(f), AfterPair(f);
            var t := Meld(key, a, b);
            && TreeRep(m, a) && TreeRep(m, b) && ProperTree(a) && ProperTree(b) && Members(a) !! Members(b)
            && f.p in m && m[f.p].next == RootOf(b)
            && (b.Root? ==> b.p != NULL && b.p in m && m[b.p].next == Top(after))
            && (b.Empty? ==> after == Nil)
            && Proper(after) && Nodes(f) == Members(a) + Members(b) + Nodes(after)
            && Members(t) == Members(a) + Members(b) && ProperTree(t) && t.Root? && Members(t) !! Nodes(after)
            && Pairs(key, after, [t] + done) == Pairs(key, f, done)
  {
    MeldFacts(key, FirstTree(f), SecondTree(f));
  }

  /** After melding a pair and chaining it. */
  lemma PairDone(m: Mem, m1: Mem, f: Forest, back: Ptr, done: seq<Tree>, key: Ptr -> nat, pairs: Ptr)
    requires f.Cons? && Links(m, f, back) && Proper(f) && ListRep(m, done) && ProperList(done)
             && Nodes(f) !! AllMembers(done)
    requires pairs == First(done)
    requires var t := Meld(key, FirstTree(f), SecondTree(f));
             && TreeRep(m1, t) && t.Root? && SameOutside(m, m1, Members(FirstTree(f)) + Members(SecondTree(f)))
    ensures var t := Meld(key, FirstTree(f), SecondTree(f));
            && t.p in m1
            && var m' := m1[t.p := m1[t.p].(next := pairs)];
               && Links(m', AfterPair(f), if f.rest.Nil? then f.p else f.rest.p)
               && ListRep(m', [t] + done) && ProperList([t] + done) && Nodes(AfterPair(f)) !! AllMembers([t] + done)
               && AllMembers([t] + done) == Members(t) + AllMembers(done) && t.p in Nodes(f)
  {
    PairFacts(m, f, back, done, key);
    var t := Meld(key, FirstTree(f), SecondTree(f));
    assert Links(m, AfterPair(f), if f.rest.Nil? then f.p else f.rest.p);
    hide Meld, Links, Proper, ProperList, AllMembers, ListRep, FirstTree, SecondTree, AfterPair;
    var m' := m1[t.p := m1[t.p].(next := pairs)];
    RootIn(t);
    LinksFrame(m, m', AfterPair(f), if f.rest.Nil? then f.p else f.rest.p);
    ListFrame(m, m', done);
    Listed(t, done);
    ChainOne(m1, t, pairs, done);
  }

  lemma InTree(t: Tree, x: Ptr)
    requires x in Members(t)
    ensures t.Root? && t.p in Members(t)
  {
  }

  lemma RootIn(t: Tree)
    requires t.Root?
    ensures t.p in Members(t)
  {
  }

  lemma ChainOne(m: Mem, t: Tree, pairs: Ptr, done: seq<Tree>)
    requires t.Root? && TreeRep(m, t) && ProperTree(t) && pairs == First(done)
    ensures t.p in m
    ensures var m' := m[t.p := m[t.p].(next := pairs)]; ListRep(m', done) ==> ListRep(m', [t] + done)
  {
    var m' := m[t.p := m[t.p].(next := pairs)];
    LinksFrame(m, m', t.kids, t.p);
    assert ([t] + done)[1..] == done;
  }

  lemma PairsDone(f: Forest, done: seq<Tree>, key: Ptr -> nat)
    requires Top(f) == NULL && Proper(f)
    ensures Pairs(key, f, done) == done && Nodes(f) == {}
  {
  }

  lemma FoldStep(m: Mem, q: seq<Tree>, t: Tree, key: Ptr -> nat)
    requires First(q) != NULL && ListRep(m, q) && ProperList(q) && ProperTree(t) && Members(t) !! AllMembers(q)
    ensures q != [] && q[0].Root? && q[0].p in m && m[q[0].p].next == First(q[1..]) && TreeRep(m, q[0])
            && ProperTree(q[0])
    ensures ListRep(m, q[1..]) && ProperList(q[1..]) && AllMembers(q) == Members(q[0]) + AllMembers(q[1..])
    ensures Members(t) !! Members(q[0]) && Members(q[0]) !! AllMembers(q[1..])
    ensures Fold(key, Meld(key, t, q[0]), q[1..]) == Fold(key, t, q)
    ensures ProperTree(Meld(key, t, q[0])) && Members(Meld(key, t, q[0])) == Members(t) + Members(q[0])
  {
    MeldFacts(key, t, q[0]);
  }

  lemma FoldDone(q: seq<Tree>, t: Tree, key: Ptr -> nat)
    requires First(q) == NULL && ProperList(q)
    ensures Fold(key, t, q) == t && AllMembers(q) == {}
  {
  }

  lemma Single(m: Mem, node: Ptr, key: Ptr -> nat)
    requires node in m && node != NULL
    ensures var one := Root(node, Nil);
            && TreeRep(m[node := m[node].(left := NULL)], one) && ProperTree(one) && HeapOrdered(key, one)
            && Members(one) == {node}
  {
  }

  lemma MarkedNodes(m: Mem, known: set<Ptr>, t: Tree)
    requires Members(t) <= known <= m.Keys && Marked(m, known, Members(t))
    ensures forall p | p in known :: p >= 2 && (p !in Members(t) ==> m[p].left == REMOVED)
  {
  }

  /** The left link of a member is null or a member. */
  lemma {:induction false} LeftIsMember(m: Mem, f: Forest, prev: Ptr, p: Ptr)
    requires Links(m, f, prev) && p in Nodes(f)
    ensures p in m && (m[p].left == NULL || m[p].left in Nodes(f))
  {
    if f.p != p {
      if p in Nodes(f.kids) { LeftIsMember(m, f.kids, f.p, p); } else { LeftIsMember(m, f.rest, f.p, p); }
    }
  }

  lemma MembersUnmarked(m: Mem, t: Tree, p: Ptr)
    requires TreeRep(m, t) && p in Members(t) && forall x | x in Members(t) :: x >= 2
    ensures p in m && m[p].left != REMOVED
  {
    if p != t.p { LeftIsMember(m, t.kids, t.p, p); }
  }

  lemma MarkAgain(m: Mem, m': Mem, known: set<Ptr>, members: set<Ptr>, known': set<Ptr>, t: Tree)
    requires TreeRep(m', t) && m'.Keys == m.Keys && Members(t) <= known' <= m.Keys
             && known <= known' <= known + Members(t)
    requires forall p | p in known' :: p >= 2
    requires forall p | p in known && p !in members :: m[p].left == REMOVED
    requires forall p | p in m && p !in Members(t) :: m'[p] == m[p]
    requires members <= Members(t)
    ensures Marked(m', known', Members(t))
  {
    hide TreeRep, Members;
    forall p | p in known'
      ensures m'[p].left == REMOVED <==> p !in Members(t)
    {
      if p in Members(t) { MembersUnmarked(m', t, p); }
    }
  }

  lemma MarkOut(m: Mem, m': Mem, known: set<Ptr>, members: set<Ptr>, t: Tree, node: Ptr)
    requires TreeRep(m', t) && m'.Keys == m.Keys && members <= known <= m.Keys && node in members
             && Members(t) == members - {node}
    requires forall p | p in known :: p >= 2
    requires forall p | p in known && p !in members :: m[p].left == REMOVED
    requires forall p | p in m && p !in members :: m'[p] == m[p]
    requires m'[node].left == REMOVED
    ensures Marked(m', known, Members(t))
  {
    hide TreeRep, Members;
    forall p | p in known
      ensures m'[p].left == REMOVED <==> p !in Members(t)
    {
      if p in Members(t) { MembersUnmarked(m', t, p); }
    }
  }

  /** The three parts of a tree around one of its inner nodes, and what they meld to. */
  lemma RemovalFacts(m: Mem, t: Tree, x: Ptr, key: Ptr -> nat)
    requires t.Root? && TreeRep(m, t) && ProperTree(t) && HeapOrdered(key, t) && x in Members(t) && x != t.p
    ensures x in m && m[x].prev in m && m[x].prev != x && (m[x].next != NULL ==> m[x].next in m)
    ensures var m', a, kids := DetachMem(m, x), Root(t.p, Cut(t.kids, x)), KidsOf(t.kids, x);
            var b := Merged(key, kids);
            var u := Meld(key, a, b);
            && TreeRep(m', a) && x in m' && m'[x].left == Top(kids) && Links(m', kids, x)
            && SameOutside(m, m', Members(t))
            && ProperTree(a) && Proper(kids) && ProperTree(b) && Members(b) == Nodes(kids) && Members(a) !! Members(b)
            && x !in Members(a) && x !in Members(b) && Members(a) <= Members(t) && Members(b) <= Members(t)
            && HeapOrdered(key, u) && ProperTree(u) && Members(u) == Members(t) - {x}
            && Members(u) == Members(a) + Members(b)
  {
    hide Links, Proper, Ordered, Nodes, Merged, Cut, KidsOf, Meld, DetachMem;
    NotOwnPrev(m, t, x);
    DetachTree(m, t, x);
    CutFacts(key, t.kids, x, key(t.p));
    var a, kids := Root(t.p, Cut(t.kids, x)), KidsOf(t.kids, x);
    MergedFacts(key, kids, key(x));
    CutOk(t, a, key);
    MeldFacts(key, a, Merged(key, kids));
  }

  /** A tree with a node cut out of it. */
  lemma CutOk(t: Tree, a: Tree, key: Ptr -> nat)
    requires t.Root? && ProperTree(t) && HeapOrdered(key, t) && a.Root? && a.p == t.p
    requires Proper(a.kids) && a.p !in Nodes(a.kids) && Ordered(key, a.kids, key(a.p))
    ensures ProperTree(a) && HeapOrdered(key, a)
  {
  }

  lemma NotOwnPrev(m: Mem, t: Tree, x: Ptr)
    requires t.Root? && TreeRep(m, t) && ProperTree(t) && x in Nodes(t.kids)
    ensures x in m && m[x].prev != x && x != t.p
  {
    LinkedFrom(m, t.kids, t.p, x);
    CutFacts(p => 0, t.kids, x, 0);
  }
}
