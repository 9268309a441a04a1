/** Pairing heaps as values: forests in left-child right-sibling form, melding, two-pass merging and removal. */
module HeapShape {

  type Ptr = nat
  const NULL: Ptr := 0

  /** A list of sibling trees: the first tree's root and children, and the other siblings. */
  datatype Forest = Nil | Cons(p: Ptr, kids: Forest, rest: Forest)

  datatype Tree = Empty | Root(p: Ptr, kids: Forest)

  function Top(f: Forest): Ptr { if f.Nil? then NULL else f.p }

  function RootOf(t: Tree): Ptr { if t.Empty? then NULL else t.p }

  function Nodes(f: Forest): set<Ptr> { if f.Nil? then {} else {f.p} + Nodes(f.kids) + Nodes(f.rest) }

  function Members(t: Tree): set<Ptr> { if t.Empty? then {} else {t.p} + Nodes(t.kids) }

  /** Every node occurs once, and none is null. */
  predicate Proper(f: Forest) {
    f.Cons? ==>
      && f.p != NULL && Proper(f.kids) && Proper(f.rest)
      && f.p !in Nodes(f.kids) && f.p !in Nodes(f.rest) && Nodes(f.kids) !! Nodes(f.rest)
  }

  predicate ProperTree(t: Tree) { t.Root? ==> t.p != NULL && Proper(t.kids) && t.p !in Nodes(t.kids) }

  /** No key below `lo`, and no child's key below its parent's. */
  predicate Ordered(key: Ptr -> nat, f: Forest, lo: nat) {
    f.Cons? ==> lo <= key(f.p) && Ordered(key, f.kids, key(f.p)) && Ordered(key, f.rest, lo)
  }

  predicate HeapOrdered(key: Ptr -> nat, t: Tree) { t.Root? ==> Ordered(key, t.kids, key(t.p)) }

  lemma {:induction false} OrderedBound(key: Ptr -> nat, f: Forest, lo: nat)
    requires Ordered(key, f, lo)
    ensures forall x | x in Nodes(f) :: lo <= key(x)
  {
    if f.Cons? {
      OrderedBound(key, f.kids, key(f.p));
      OrderedBound(key, f.rest, lo);
    }
  }

  /** The root of a heap has the least key. */
  lemma RootIsMinimum(key: Ptr -> nat, t: Tree)
    requires t.Root? && HeapOrdered(key, t)
    ensures forall x | x in Members(t) :: key(t.p) <= key(x)
  {
    OrderedBound(key, t.kids, key(t.p));
  }

  /** The order of a heap depends on the keys of its members only. */
  lemma OrderedRekeyed(key: Ptr -> nat, key': Ptr -> nat, t: Tree, node: Ptr)
    requires HeapOrdered(key, t) && node !in Members(t) && forall x | x != node :: key'(x) == key(x)
    ensures HeapOrdered(key', t)
  {
    if t.Root? { ForestRekeyed(key, key', t.kids, key(t.p), node); }
  }

  lemma {:induction false} ForestRekeyed(key: Ptr -> nat, key': Ptr -> nat, f: Forest, lo: nat, node: Ptr)
    requires Ordered(key, f, lo) && node !in Nodes(f) && forall x | x != node :: key'(x) == key(x)
    ensures Ordered(key', f, lo)
  {
    if f.Cons? {
      ForestRekeyed(key, key', f.kids, key(f.p), node);
      ForestRekeyed(key, key', f.rest, lo, node);
    }
  }

  // ---- melding ----

  /** The root with the larger key becomes the first child of the other. */
  function Meld(key: Ptr -> nat, a: Tree, b: Tree): Tree {
    if a.Empty? then b
    else if b.Empty? then a
    else if key(a.p) <= key(b.p) then Root(a.p, Cons(b.p, b.kids, a.kids))
    else Root(b.p, Cons(a.p, a.kids, b.kids))
  }

  lemma MeldFacts(key: Ptr -> nat, a: Tree, b: Tree)
    ensures Members(Meld(key, a, b)) == Members(a) + Members(b)
    ensures ProperTree(a) && ProperTree(b) && Members(a) !! Members(b) ==> ProperTree(Meld(key, a, b))
    ensures HeapOrdered(key, a) && HeapOrdered(key, b) ==> HeapOrdered(key, Meld(key, a, b))
  {
  }

  // ---- merging the children of a removed root ----

  function AllMembers(q: seq<Tree>): set<Ptr> { if q == [] then {} else Members(q[0]) + AllMembers(q[1..]) }

  ghost predicate ProperList(q: seq<Tree>) {
    q != [] ==> q[0].Root? && ProperTree(q[0]) && ProperList(q[1..]) && Members(q[0]) !! AllMembers(q[1..])
  }

  ghost predicate AllOrdered(key: Ptr -> nat, q: seq<Tree>) {
    q != [] ==> HeapOrdered(key, q[0]) && AllOrdered(key, q[1..])
  }

  /** The first pass: melds the trees two by two onto the list `done`, last pair first. */
  function Pairs(key: Ptr -> nat, f: Forest, done: seq<Tree>): seq<Tree> {
    if f.Nil? then done
    else if f.rest.Nil? then [Root(f.p, f.kids)] + done
    else Pairs(key, f.rest.rest, [Meld(key, Root(f.p, f.kids), Root(f.rest.p, f.rest.kids))] + done)
  }

  /** The second pass: melds the list into one tree. */
  function Fold(key: Ptr -> nat, head: Tree, q: seq<Tree>): Tree
    decreases q
  {
    if q == [] then head else Fold(key, Meld(key, head, q[0]), q[1..])
  }

  function Merged(key: Ptr -> nat, f: Forest): Tree { Fold(key, Empty, Pairs(key, f, [])) }

  lemma Listed(t: Tree, q: seq<Tree>)
    ensures AllMembers([t] + q) == Members(t) + AllMembers(q)
    ensures t.Root? && ProperTree(t) && ProperList(q) && Members(t) !! AllMembers(q) ==> ProperList([t] + q)
  {
    assert ([t] + q)[1..] == q;
  }

  lemma {:induction false} PairsFacts(key: Ptr -> nat, f: Forest, done: seq<Tree>)
    requires Proper(f) && ProperList(done) && Nodes(f) !! AllMembers(done)
    ensures ProperList(Pairs(key, f, done)) && AllMembers(Pairs(key, f, done)) == Nodes(f) + AllMembers(done)
  {
    hide ProperList, AllMembers;
    if f.Cons? {
      var a := Root(f.p, f.kids);
      if f.rest.Nil? {
        Listed(a, done);
      } else {
        var b := Root(f.rest.p, f.rest.kids);
        var t := Meld(key, a, b);
        MeldFacts(key, a, b);
        hide Meld;
        assert Members(t) == Members(a) + Members(b);
        Listed(t, done);
        PairsFacts(key, f.rest.rest, [t] + done);
      }
    }
  }

  lemma {:induction false} PairsOrdered(key: Ptr -> nat, f: Forest, done: seq<Tree>, lo: nat)
    requires Ordered(key, f, lo) && AllOrdered(key, done)
    ensures AllOrdered(key, Pairs(key, f, done))
  {
    if f.Cons? {
      var a := Root(f.p, f.kids);
      if f.rest.Nil? {
        assert ([a] + done)[1..] == done;
      } else {
        var b := Root(f.rest.p, f.rest.kids);
        var t := Meld(key, a, b);
        MeldFacts(key, a, b);
        hide Meld;
        assert ([t] + done)[1..] == done;
        PairsOrdered(key, f.rest.rest, [t] + done, lo);
      }
    }
  }

  lemma {:induction false} FoldFacts(key: Ptr -> nat, head: Tree, q: seq<Tree>)
    requires ProperTree(head) && ProperList(q) && Members(head) !! AllMembers(q)
    ensures ProperTree(Fold(key, head, q)) && Members(Fold(key, head, q)) == Members(head) + AllMembers(q)
    ensures HeapOrdered(key, head) && AllOrdered(key, q) ==> HeapOrdered(key, Fold(key, head, q))
    decreases q
  {
    if q != [] {
      MeldFacts(key, head, q[0]);
      FoldFacts(key, Meld(key, head, q[0]), q[1..]);
    }
  }

  /** Merging the children keeps them all, in heap order. */
  lemma MergedFacts(key: Ptr -> nat, f: Forest, lo: nat)
    requires Proper(f)
    ensures ProperTree(Merged(key, f)) && Members(Merged(key, f)) == Nodes(f)
    ensures Ordered(key, f, lo) ==> HeapOrdered(key, Merged(key, f))
  {
    PairsFacts(key, f, []);
    if Ordered(key, f, lo) { PairsOrdered(key, f, [], lo); }
    FoldFacts(key, Empty, Pairs(key, f, []));
  }

  // ---- cutting a node out ----

  /** The forest without the tree rooted at `x`. */
  function Cut(f: Forest, x: Ptr): Forest {
    if f.Nil? then Nil
    else if f.p == x then f.rest
    else if x in Nodes(f.kids) then Cons(f.p, Cut(f.kids, x), f.rest)
    else Cons(f.p, f.kids, Cut(f.rest, x))
  }

  /** The children of `x`. */
  function KidsOf(f: Forest, x: Ptr): Forest {
    if f.Nil? then Nil
    else if f.p == x then f.kids
    else if x in Nodes(f.kids) then KidsOf(f.kids, x)
    else KidsOf(f.rest, x)
  }

  lemma {:induction false} CutFacts(key: Ptr -> nat, f: Forest, x: Ptr, lo: nat)
    requires Proper(f) && x in Nodes(f)
    ensures Proper(Cut(f, x)) && Proper(KidsOf(f, x)) && x !in Nodes(KidsOf(f, x)) && x !in Nodes(Cut(f, x))
    ensures Nodes(f) == {x} + Nodes(KidsOf(f, x)) + Nodes(Cut(f, x)) && Nodes(KidsOf(f, x)) !! Nodes(Cut(f, x))
    ensures Ordered(key, f, lo) ==> Ordered(key, Cut(f, x), lo) && Ordered(key, KidsOf(f, x), key(x))
  {
    if f.p != x {
      if x in Nodes(f.kids) {
        CutFacts(key, f.kids, x, key(f.p));
      } else {
        CutFacts(key, f.rest, x, lo);
      }
    }
  }
}
