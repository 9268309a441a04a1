/** The intrusive doubly linked list: what its pointer writes do to the sequence of its nodes. */
module LinkedList {
  import opened Lists
  import opened Memory

  type Ptr = nat
  const NULL: Ptr := 0

  datatype ListNode = ListNode(next: Ptr, prev: Ptr)

  type Mem = map<Ptr, ListNode>

  function NextOf(q: seq<Ptr>, i: nat): Ptr
    requires i < |q|
  {
    if i + 1 < |q| then q[i + 1] else NULL
  }

  function PrevOf(q: seq<Ptr>, i: nat): Ptr
    requires i < |q|
  {
    if i > 0 then q[i - 1] else NULL
  }

  ghost predicate Linked(m: Mem, q: seq<Ptr>, i: nat)
    requires i < |q|
  {
    q[i] in m && q[i] != NULL && m[q[i]] == ListNode(NextOf(q, i), PrevOf(q, i))
  }

  /** The nodes of `q` are linked in that order and no other. */
  ghost predicate Chain(m: Mem, q: seq<Ptr>) { NoDup(q) && forall i: nat | i < |q| :: Linked(m, q, i) }

  function HeadOf(q: seq<Ptr>): Ptr { if q == [] then NULL else q[0] }

  function TailOf(q: seq<Ptr>): Ptr { if q == [] then NULL else q[|q| - 1] }

  /** A node that `Delete` has taken off its list is linked to itself. */
  predicate Unlinked(m: Mem, n: Ptr) { n in m && m[n] == ListNode(n, n) }

  class List {
    var head: Ptr
    var tail: Ptr
    var count: nat
    var mem: Mem
    ghost var items: seq<Ptr>

    ghost predicate Valid()
      reads this
    {
      Chain(mem, items) && head == HeadOf(items) && tail == TailOf(items) && count == |items|
    }

    constructor (mem: Mem)
      ensures Valid() && items == [] && this.mem == mem
    {
      this.mem, head, tail, count, items := mem, NULL, NULL, 0, [];
    }

    /** Links `node` in before the node at position `k`. */
    method Prepend(pos: Ptr, node: Ptr, ghost k: nat)
      requires Valid() && k < |items| && items[k] == pos && node in mem && node !in items && node != NULL
      modifies this
      ensures Valid() && items == InsertAt(old(items), k, node)
      ensures SameOutside(old(mem), mem, set x | x in items)
    {
      hide Chain, InsertAt, RemoveAt;
      Neighbours(mem, items, k);
      mem := mem[node := ListNode(pos, mem[pos].prev)];
      mem := mem[pos := mem[pos].(prev := node)];
      if mem[node].prev != NULL {
        mem := mem[mem[node].prev := mem[mem[node].prev].(next := node)];
      }
      if head == pos {
        head := node;
      }
      count := count + 1;
      Inserted(old(mem), mem, items, k, node, old(mem)[pos].prev, pos);
      items := InsertAt(items, k, node);
    }

    /** Links `node` in after the node at position `k`. */
    method Append(pos: Ptr, node: Ptr, ghost k: nat)
      requires Valid() && k < |items| && items[k] == pos && node in mem && node !in items && node != NULL
      modifies this
      ensures Valid() && items == InsertAt(old(items), k + 1, node)
      ensures SameOutside(old(mem), mem, set x | x in items)
    {
      hide Chain, InsertAt, RemoveAt;
      Neighbours(mem, items, k);
      mem := mem[node := ListNode(mem[pos].next, pos)];
      mem := mem[pos := mem[pos].(next := node)];
      if mem[node].next != NULL {
        mem := mem[mem[node].next := mem[mem[node].next].(prev := node)];
      }
      if tail == pos {
        tail := node;
      }
      count := count + 1;
      Inserted(old(mem), mem, items, k + 1, node, pos, old(mem)[pos].next);
      items := InsertAt(items, k + 1, node);
    }

    method InitialNode(node: Ptr)
      requires Valid() && items == [] && node in mem && node != NULL
      modifies this
      ensures Valid() && items == [node] && mem == old(mem)[node := ListNode(NULL, NULL)]
    {
      mem := mem[node := ListNode(NULL, NULL)];
      head, tail, count := node, node, 1;
      items := [node];
    }

    method PushFront(node: Ptr)
      requires Valid() && node in mem && node !in items && node != NULL
      modifies this
      ensures Valid() && items == [node] + old(items)
      ensures SameOutside(old(mem), mem, set x | x in items)
    {
      if head == NULL {
        Neighbours(mem, items, 0);
        InitialNode(node);
        return;
      }
      Prepend(head, node, 0);
    }

    method PushBack(node: Ptr)
      requires Valid() && node in mem && node !in items && node != NULL
      modifies this
      ensures Valid() && items == old(items) + [node]
      ensures SameOutside(old(mem), mem, set x | x in items)
    {
      if tail == NULL {
        Neighbours(mem, items, |items| - 1);
        InitialNode(node);
        return;
      }
      Append(tail, node, |items| - 1);
    }

    /** Unlinks the node at position `k` and marks it. */
    method Delete(node: Ptr, ghost k: nat)
      requires Valid() && k < |items| && items[k] == node
      modifies this
      ensures Valid() && items == RemoveAt(old(items), k) && Unlinked(mem, node)
      ensures SameOutside(old(mem), mem, set x | x in old(items))
    {
      hide Chain, InsertAt, RemoveAt;
      Neighbours(mem, items, k);
      count := count - 1;
      if head == node {
        head := mem[node].next;
      }
      if tail == node {
        tail := mem[node].prev;
      }
      if mem[node].prev != NULL {
        mem := mem[mem[node].prev := mem[mem[node].prev].(next := mem[node].next)];
      }
      if mem[node].next != NULL {
        mem := mem[mem[node].next := mem[mem[node].next].(prev := mem[node].prev)];
      }
      mem := mem[node := ListNode(node, node)];
      Removed(old(mem), mem, items, k, old(mem)[node].prev, old(mem)[node].next);
      items := RemoveAt(items, k);
    }

    method PopFront() returns (node: Ptr)
      requires Valid()
      modifies this
      ensures Valid() && node == HeadOf(old(items)) && items == (if old(items) == [] then [] else old(items)[1..])
      ensures old(items) != [] ==> node != NULL && Unlinked(mem, node)
      ensures old(items) == [] ==> node == NULL && unchanged(this)
      ensures SameOutside(old(mem), mem, set x | x in old(items))
    {
      node := head;
      if node != NULL {
        Delete(node, 0);
      } else {
        Neighbours(mem, items, 0);
      }
    }

    /** Unlinks a node that is in the list; leaves alone one that was taken off it. */
    method TryDelete(node: Ptr) returns (deleted: bool)
      requires Valid() && (node in items || Unlinked(mem, node))
      modifies this
      ensures Valid() && deleted == (node in old(items)) && Unlinked(mem, node)
      ensures items == if deleted then Without(old(items), node) else old(items)
      ensures !deleted ==> unchanged(this)
      ensures SameOutside(old(mem), mem, set x | x in old(items))
    {
      if node in items { Neighbours(mem, items, IndexOf(items, node)); }
      if mem[node].next != node || mem[node].prev != node {
        Delete(node, IndexOf(items, node));
        return true;
      }
      return false;
    }
  }

  /** What a node of the chain and its neighbours look like. */
  lemma Neighbours(m: Mem, q: seq<Ptr>, k: int)
    requires Chain(m, q)
    ensures HeadOf(q) == NULL <==> q == []
    ensures TailOf(q) == NULL <==> q == []
    ensures 0 <= k < |q| ==>
              && q[k] in m && q[k] != NULL && m[q[k]] == ListNode(NextOf(q, k), PrevOf(q, k))
              && m[q[k]].next != q[k] && m[q[k]].prev != q[k]
              && (HeadOf(q) == q[k] <==> k == 0) && (TailOf(q) == q[k] <==> k == |q| - 1)
    ensures 0 < k < |q| - 1 ==> q[k - 1] != q[k + 1]
    ensures 0 < k < |q| ==> q[k - 1] in m && q[k - 1] != NULL && m[q[k - 1]] == ListNode(q[k], PrevOf(q, k - 1))
    ensures 0 <= k < |q| - 1 ==> q[k + 1] in m && q[k + 1] != NULL && m[q[k + 1]] == ListNode(NextOf(q, k + 1), q[k])
  {
    if q != [] { assert Linked(m, q, 0) && Linked(m, q, |q| - 1); }
    if 0 <= k < |q| { assert Linked(m, q, k); }
    if 0 < k < |q| { assert Linked(m, q, k - 1); }
    if 0 <= k < |q| - 1 { assert Linked(m, q, k + 1); }
  }

  /** The chain after linking `n` in before position `k`, between `a` and `b`. */
  lemma Inserted(m: Mem, m': Mem, q: seq<Ptr>, k: nat, n: Ptr, a: Ptr, b: Ptr)
    requires Chain(m, q) && k <= |q| && n in m && n != NULL && n !in q
    requires a == (if k > 0 then q[k - 1] else NULL) && b == (if k < |q| then q[k] else NULL)
    requires SameOutside(m, m', {n} + (if a == NULL then {} else {a}) + (if b == NULL then {} else {b}))
             && m'[n] == ListNode(b, a)
    requires a != NULL ==> a in m && m'[a] == m[a].(next := n)
    requires b != NULL ==> b in m && m'[b] == m[b].(prev := n)
    ensures Chain(m', InsertAt(q, k, n)) && HeadOf(InsertAt(q, k, n)) == (if k == 0 then n else HeadOf(q))
    ensures TailOf(InsertAt(q, k, n)) == (if k == |q| then n else TailOf(q))
    ensures SameOutside(m, m', set x | x in InsertAt(q, k, n)) && |InsertAt(q, k, n)| == |q| + 1
  {
    var q' := InsertAt(q, k, n);
    InsertFacts(q, k, n);
    hide NoDup;
    forall i: nat | i < |q'|
      ensures Linked(m', q', i)
    {
      if i < k { OldLink(m, m', q, i, n, a, b); }
      if i > k { OldLink(m, m', q, i - 1, n, a, b); }
    }
    assert a != NULL ==> a in q;
    assert b != NULL ==> b in q;
  }

  /** A node of the old chain. */
  lemma OldLink(m: Mem, m': Mem, q: seq<Ptr>, i: nat, n: Ptr, a: Ptr, b: Ptr)
    requires Chain(m, q) && i < |q| && n !in q
    requires SameOutside(m, m', {n} + (if a == NULL then {} else {a}) + (if b == NULL then {} else {b}))
    ensures q[i] in m && q[i] in m' && q[i] != n && q[i] != NULL && m[q[i]] == ListNode(NextOf(q, i), PrevOf(q, i))
    ensures q[i] != a && q[i] != b ==> m'[q[i]] == m[q[i]]
    ensures forall j | 0 <= j < |q| && j != i :: q[j] != q[i]
  {
    assert Linked(m, q, i);
  }

  /** The chain after unlinking the node at position `k` from between `a` and `b`. */
  lemma Removed(m: Mem, m': Mem, q: seq<Ptr>, k: nat, a: Ptr, b: Ptr)
    requires Chain(m, q) && k < |q| && a == PrevOf(q, k) && b == NextOf(q, k)
    requires SameOutside(m, m', {q[k]} + (if a == NULL then {} else {a}) + (if b == NULL then {} else {b}))
    requires a != NULL ==> a in m && m'[a] == m[a].(next := b)
    requires b != NULL ==> b in m && m'[b] == m[b].(prev := a)
    ensures Chain(m', RemoveAt(q, k)) && HeadOf(RemoveAt(q, k)) == (if k == 0 then b else HeadOf(q))
    ensures TailOf(RemoveAt(q, k)) == (if k == |q| - 1 then a else TailOf(q))
    ensures SameOutside(m, m', set x | x in q) && |RemoveAt(q, k)| == |q| - 1
  {
    var q' := RemoveAt(q, k);
    RemoveFacts(q, k);
    Neighbours(m, q, k);
    forall i: nat | i < |q'|
      ensures Linked(m', q', i)
    {
      if i < k { assert Linked(m, q, i); } else { assert Linked(m, q, i + 1); }
    }
    assert a != NULL ==> a in q;
    assert b != NULL ==> b in q;
  }
}
