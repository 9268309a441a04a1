/** Pairing heaps in memory: nodes linked to first child, next sibling, and previous sibling or parent. */
module HeapMemory {
  import opened Memory
  import opened HeapShape

  datatype HeapNode = HeapNode(left: Ptr, next: Ptr, prev: Ptr)

  type Mem = map<Ptr, HeapNode>

  /** The nodes of `f` are linked as `f` says, the first of them back to `prev`. */
  predicate Links(m: Mem, f: Forest, prev: Ptr) {
    f.Cons? ==>
      && f.p in m && m[f.p] == HeapNode(Top(f.kids), Top(f.rest), prev)
      && Links(m, f.kids, f.p) && Links(m, f.rest, f.p)
  }

  /** A tree with its root's own sibling links left open. */
  predicate TreeRep(m: Mem, t: Tree) {
    t.Root? ==> t.p in m && m[t.p].left == Top(t.kids) && Links(m, t.kids, t.p)
  }

  function First(q: seq<Tree>): Ptr { if q == [] then NULL else RootOf(q[0]) }

  /** A list of trees chained by the roots' next links alone. */
  predicate ListRep(m: Mem, q: seq<Tree>) {
    q != [] ==> q[0].Root? && TreeRep(m, q[0]) && m[q[0].p].next == First(q[1..]) && ListRep(m, q[1..])
  }

  ghost predicate SameOn(m: Mem, m': Mem, s: set<Ptr>) { forall x | x in s && x in m :: x in m' && m'[x] == m[x] }

  lemma {:induction false} LinksFrame(m: Mem, m': Mem, f: Forest, prev: Ptr)
    requires Links(m, f, prev) && SameOn(m, m', Nodes(f))
    ensures Links(m', f, prev)
  {
    if f.Cons? {
      LinksFrame(m, m', f.kids, f.p);
      LinksFrame(m, m', f.rest, f.p);
    }
  }

  lemma TreeFrame(m: Mem, m': Mem, t: Tree)
    requires TreeRep(m, t) && SameOn(m, m', Members(t))
    ensures TreeRep(m', t)
  {
    if t.Root? { LinksFrame(m, m', t.kids, t.p); }
  }

  lemma {:induction false} ListFrame(m: Mem, m': Mem, q: seq<Tree>)
    requires ListRep(m, q) && SameOn(m, m', AllMembers(q))
    ensures ListRep(m', q)
  {
    if q != [] {
      TreeFrame(m, m', q[0]);
      ListFrame(m, m', q[1..]);
    }
  }

  /** The first node of `f` linked back to another place. */
  function Reparented(m: Mem, f: Forest, prev: Ptr): Mem
    requires f.Cons? ==> f.p in m
  {
    if f.Nil? then m else m[f.p := m[f.p].(prev := prev)]
  }

  lemma LinksReparent(m: Mem, f: Forest, prev: Ptr, prev': Ptr)
    requires Links(m, f, prev) && Proper(f)
    ensures Links(Reparented(m, f, prev'), f, prev')
  {
    if f.Cons? {
      var m' := Reparented(m, f, prev');
      LinksFrame(m, m', f.kids, f.p);
      LinksFrame(m, m', f.rest, f.p);
    }
  }

  // ---- attaching ----

  /** The writes that make `child` the first child of `parent`. */
  function AttachMem(m: Mem, parent: Ptr, child: Ptr): Mem
    requires parent in m && child in m && (m[parent].left != NULL ==> m[parent].left in m)
  {
    var l := m[parent].left;
    var m1 := m[child := m[child].(prev := parent, next := l)];
    var m2 := if l != NULL then m1[l := m1[l].(prev := child)] else m1;
    m2[parent := m2[parent].(left := child)]
  }

  lemma LeftPresent(m: Mem, t: Tree)
    requires TreeRep(m, t) && t.Root? && ProperTree(t)
    ensures m[t.p].left != NULL ==> m[t.p].left in m && m[t.p].left in Nodes(t.kids)
  {
  }

  lemma AttachRep(m: Mem, a: Tree, b: Tree)
    requires a.Root? && b.Root? && TreeRep(m, a) && TreeRep(m, b) && ProperTree(a) && ProperTree(b)
             && Members(a) !! Members(b)
    requires m[a.p].left != NULL ==> m[a.p].left in m
    ensures var m' := AttachMem(m, a.p, b.p);
            && TreeRep(m', Root(a.p, Cons(b.p, b.kids, a.kids)))
            && SameOutside(m, m', Members(a) + Members(b)) && m'[a.p].next == m[a.p].next
  {
    var m' := AttachMem(m, a.p, b.p);
    assert m'[b.p] == HeapNode(Top(b.kids), Top(a.kids), a.p);
    LinksFrame(m, m', b.kids, b.p);
    LinksReparent(m, a.kids, a.p, b.p);
    LinksFrame(Reparented(m, a.kids, b.p), m', a.kids, b.p);
  }

  // ---- detaching ----

  /** The writes that unlink `x` from its parent or previous sibling. */
  function DetachMem(m: Mem, x: Ptr): Mem
    requires x in m && m[x].prev in m && (m[x].next != NULL ==> m[x].next in m)
  {
    var prev, next := m[x].prev, m[x].next;
    var m1 := if m[prev].left == x then m[prev := m[prev].(left := next)] else m[prev := m[prev].(next := next)];
    if next != NULL then m1[next := m1[next].(prev := prev)] else m1
  }

  lemma DetachWrites(m: Mem, x: Ptr)
    requires x in m && m[x].prev in m && (m[x].next != NULL ==> m[x].next in m)
    ensures var prev, next, m' := m[x].prev, m[x].next, DetachMem(m, x);
            && SameOutside(m, m', {prev} + if next != NULL then {next} else {})
            && (prev != next ==> m'[prev].left == if m[prev].left == x then next else m[prev].left)
  {
  }

  /** Where `x` is linked from, and what follows it. */
  lemma {:induction false} LinkedFrom(m: Mem, f: Forest, prev: Ptr, x: Ptr)
    requires Links(m, f, prev) && Proper(f) && x in Nodes(f) && prev !in Nodes(f)
    ensures x in m && (m[x].prev == prev <==> x == Top(f))
    ensures x != Top(f) ==> m[x].prev in Nodes(f) && m[x].prev in m && m[x].prev in Nodes(Cut(f, x))
    ensures m[x].next != NULL ==> m[x].next in m && m[x].next in Nodes(f) && m[x].next in Nodes(Cut(f, x))
    ensures m[x].left == Top(KidsOf(f, x)) && Links(m, KidsOf(f, x), x)
    ensures Top(Cut(f, x)) == if x == Top(f) then m[x].next else Top(f)
  {
    if f.p != x {
      if x in Nodes(f.kids) {
        LinkedFrom(m, f.kids, f.p, x);
      } else {
        LinkedFrom(m, f.rest, f.p, x);
      }
    }
  }

  lemma {:induction false} DetachLinks(m: Mem, f: Forest, prev: Ptr, x: Ptr)
    requires Links(m, f, prev) && Proper(f) && x in Nodes(f) && prev !in Nodes(f) && prev in m
    requires x in m && m[x].prev in m && (m[x].next != NULL ==> m[x].next in m)
    ensures Links(DetachMem(m, x), Cut(f, x), prev)
  {
    var m' := DetachMem(m, x);
    LinkedFrom(m, f, prev, x);
    if f.p == x {
      LinksReparent(m, f.rest, x, prev);
      LinksFrame(Reparented(m, f.rest, prev), m', f.rest, prev);
    } else if x in Nodes(f.kids) {
      DetachLinks(m, f.kids, f.p, x);
      LinkedFrom(m, f.kids, f.p, x);
      LinksFrame(m, m', f.rest, f.p);
    } else {
      DetachLinks(m, f.rest, f.p, x);
      LinkedFrom(m, f.rest, f.p, x);
      LinksFrame(m, m', f.kids, f.p);
    }
  }

  /** Detaching a node from a tree leaves the rest of the tree, and the node with its children. */
  lemma DetachTree(m: Mem, t: Tree, x: Ptr)
    requires t.Root? && TreeRep(m, t) && ProperTree(t) && x in Nodes(t.kids)
    ensures x in m && m[x].prev in m && (m[x].next != NULL ==> m[x].next in m)
    ensures var m' := DetachMem(m, x);
            && TreeRep(m', Root(t.p, Cut(t.kids, x))) && TreeRep(m', Root(x, KidsOf(t.kids, x)))
            && SameOutside(m, m', Members(t)) && m'[x].left == m[x].left
  {
    hide Links, Cut, KidsOf, Nodes, Proper, Ordered;
    LinkedFrom(m, t.kids, t.p, x);
    var m' := DetachMem(m, x);
    DetachLinks(m, t.kids, t.p, x);
    CutFacts(p => 0, t.kids, x, 0);
    DetachWrites(m, x);
    hide DetachMem;
    LinksFrame(m, m', KidsOf(t.kids, x), x);
  }
}
