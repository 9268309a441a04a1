/** A value that may be missing. */
module Options {
  datatype Option<T> = None | Some(value: T)
}

/** Memory that holds linked records, by address. */
module Memory {
  /** Nothing changed but the records at the addresses in `s`. */
  predicate SameOutside<T(==)>(m: map<nat, T>, m': map<nat, T>, s: set<nat>) {
    m'.Keys == m.Keys && forall x | x in m && x !in s :: m'[x] == m[x]
  }
}

/** Linked lists of nodes, as sequences of node addresses. */
module Lists {

  ghost predicate NoDup(s: seq<nat>) { forall i, j | 0 <= i < j < |s| :: s[i] != s[j] }

  lemma SubsetSize(a: set<nat>, b: set<nat>)
    requires a <= b
    ensures |a| <= |b| && (|a| == |b| <==> a == b)
  {
    assert b == a + (b - a);
  }

  function IndexOf(s: seq<nat>, id: nat): (k: nat)
    requires id in s
    ensures k < |s| && s[k] == id && forall j | 0 <= j < k :: s[j] != id
  {
    if s[0] == id then 0 else 1 + IndexOf(s[1..], id)
  }

  /** `s` with the node `id` unlinked. */
  function Without(s: seq<nat>, id: nat): seq<nat>
    requires id in s
  {
    RemoveAt(s, IndexOf(s, id))
  }

  /** `n` linked in before position `k`. */
  function InsertAt(s: seq<nat>, k: nat, n: nat): seq<nat>
    requires k <= |s|
  {
    s[..k] + [n] + s[k..]
  }

  function RemoveAt(s: seq<nat>, k: nat): seq<nat>
    requires k < |s|
  {
    s[..k] + s[k + 1..]
  }

  lemma RemoveFacts(s: seq<nat>, k: nat)
    requires k < |s| && NoDup(s)
    ensures NoDup(RemoveAt(s, k)) && forall x: nat :: x in RemoveAt(s, k) <==> x in s && x != s[k]
  {
    var w := RemoveAt(s, k);
    forall x: nat
      ensures x in w <==> x in s && x != s[k]
    {
      if x in s && x != s[k] {
        var i :| 0 <= i < |s| && s[i] == x;
        assert if i < k then w[i] == x else w[i - 1] == x;
      }
    }
  }

  lemma InsertFacts(s: seq<nat>, k: nat, n: nat)
    requires k <= |s| && NoDup(s) && n !in s
    ensures NoDup(InsertAt(s, k, n)) && forall x: nat :: x in InsertAt(s, k, n) <==> x in s || x == n
  {
    var w := InsertAt(s, k, n);
    forall x: nat
      ensures x in w <==> x in s || x == n
    {
      if x in s {
        var i :| 0 <= i < |s| && s[i] == x;
        assert if i < k then w[i] == x else w[i + 1] == x;
      }
      if x == n { assert w[k] == n; }
    }
  }

  lemma PushFacts(s: seq<nat>, n: nat)
    requires NoDup(s) && n !in s
    ensures NoDup([n] + s) && forall x: nat :: x in [n] + s <==> x in s || x == n
  {
    InsertFacts(s, 0, n);
    assert InsertAt(s, 0, n) == [n] + s;
  }

  lemma WithoutFacts(s: seq<nat>, id: nat)
    requires NoDup(s) && id in s
    ensures NoDup(Without(s, id)) && forall x: nat :: x in Without(s, id) <==> x in s && x != id
  {
    RemoveFacts(s, IndexOf(s, id));
  }

  // ---- first come, first served ----

  /** `t` is ahead of `u`. */
  ghost predicate Ahead(q: seq<nat>, t: nat, u: nat) { exists i, j | 0 <= i < j < |q| :: q[i] == t && q[j] == u }

  /** What may happen to a queue: nothing, somebody new joins at the end, or somebody leaves. */
  ghost predicate QueueStep(q: seq<nat>, q': seq<nat>) {
    || q' == q
    || (exists x: nat :: x !in q && q' == q + [x])
    || exists k: nat :: k < |q| && q' == RemoveAt(q, k)
  }

  /** The states of a queue, one step after the other. */
  ghost predicate QueueRun(qs: seq<seq<nat>>) { forall i: nat | i + 1 < |qs| :: StepAt(qs, i) }

  ghost predicate StepAt(qs: seq<seq<nat>>, i: nat)
    requires i + 1 < |qs|
  {
    NoDup(qs[i]) && QueueStep(qs[i], qs[i + 1])
  }

  lemma AheadAt(q: seq<nat>, i: nat, j: nat)
    requires i < j < |q|
    ensures Ahead(q, q[i], q[j])
  {
  }

  lemma StaysAhead(q: seq<nat>, q': seq<nat>, t: nat, u: nat)
    requires NoDup(q) && QueueStep(q, q') && t in q && t in q' && u in q' && t != u
    requires u in q ==> Ahead(q, t, u)
    ensures Ahead(q', t, u)
  {
    hide NoDup, Ahead, RemoveAt;
    if q' != q {
      if exists x: nat :: x !in q && q' == q + [x] {
        var x: nat :| x !in q && q' == q + [x];
        AheadOnJoining(q, x, t, u);
      } else {
        var k: nat :| k < |q| && q' == RemoveAt(q, k);
        RemoveFacts(q, k);
        AheadOnLeaving(q, k, t, u);
      }
    }
  }

  lemma AheadOnJoining(q: seq<nat>, x: nat, t: nat, u: nat)
    requires t in q && u in q + [x] && (u in q ==> Ahead(q, t, u))
    ensures Ahead(q + [x], t, u)
  {
    if u in q {
      var a, b :| 0 <= a < b < |q| && q[a] == t && q[b] == u;
      AheadAt(q + [x], a, b);
    } else {
      var a :| 0 <= a < |q| && q[a] == t;
      AheadAt(q + [x], a, |q|);
    }
  }

  lemma AheadOnLeaving(q: seq<nat>, k: nat, t: nat, u: nat)
    requires NoDup(q) && k < |q| && q[k] != t && q[k] != u && Ahead(q, t, u)
    ensures Ahead(RemoveAt(q, k), t, u)
  {
    var a, b :| 0 <= a < b < |q| && q[a] == t && q[b] == u;
    AheadAt(RemoveAt(q, k), if a < k then a else a - 1, if b < k then b else b - 1);
  }

  /** As long as `t` is in the queue, nobody who was behind it or not yet there gets ahead of it. */
  lemma {:induction false} FirstComeFirst(qs: seq<seq<nat>>, i: nat, j: nat, t: nat, u: nat)
    requires QueueRun(qs) && i <= j < |qs| && t != u && u in qs[j]
    requires forall k | i <= k <= j :: t in qs[k]
    requires u in qs[i] ==> Ahead(qs[i], t, u)
    ensures Ahead(qs[j], t, u)
    decreases j
  {
    hide Ahead, QueueStep, NoDup;
    if i < j {
      if u in qs[j - 1] { FirstComeFirst(qs, i, j - 1, t, u); }
      assert StepAt(qs, j - 1);
      StaysAhead(qs[j - 1], qs[j], t, u);
    }
  }

  /** The first of a queue is ahead of everybody else in it. */
  lemma FirstIsAhead(q: seq<nat>, u: nat)
    requires NoDup(q) && q != [] && u in q[1..]
    ensures u != q[0] && Ahead(q, q[0], u)
  {
    var i :| 0 <= i < |q[1..]| && q[1..][i] == u;
    AheadAt(q, 0, i + 1);
  }
}
