/** Whole futex calls: what a wait and a wake do from their first step to their last, in any run. */
module FutexCalls {
  import opened Options
  import opened Lists
  import opened Futex

  /** The states of a run with the labels of its steps. */
  ghost predicate Taken(r: seq<State>, ls: seq<Label>) {
    Run(r) && |r| == |ls| + 1 && forall i: nat | i < |ls| :: StepOf(r[i], ls[i], r[i + 1])
  }

  predicate StepOf(s: State, l: Label, s': State) { Enabled(s, l) && s' == Next(s, l) }

  /** Thread `t` is inside a call in all states from `i` up to `j`, and no longer in `j`. */
  ghost predicate Call(r: seq<State>, t: Tid, i: nat, j: nat)
    requires i < j < |r|
  {
    (forall m | i < m < j :: !At(r[m], t).Outside?) && At(r[j], t).Outside?
  }

  function QueueAt(s: State, e: EntryId): seq<Tid> { if e in s.entries then s.entries[e].queue else [] }

  // ---- a wake ----

  /** The thread that one step takes off the front of the wait list of `e`, if it takes one off: it slept, and is now
      leaving as woken. */
  function TakenOff(s: State, s': State, e: EntryId): seq<Tid> {
    var q := QueueAt(s, e);
    if q != [] && QueueAt(s', e) == q[1..] && At(s, q[0]).Sleeping? && At(s, q[0]).e == e
       && At(s', q[0]) == Leaving(e, true)
    then [q[0]] else []
  }

  /** The threads that the steps from state `i` to state `j` take off the wait list of `e`, in order. */
  function AllTakenOff(r: seq<State>, e: EntryId, i: nat, j: nat): seq<Tid>
    requires i <= j < |r|
    decreases j
  {
    if i == j then [] else AllTakenOff(r, e, i, j - 1) + TakenOff(r[j - 1], r[j], e)
  }

  /** What a step does while thread `t` is waking threads of entry `e`: the waker takes one off, or is done; others at
      most join the wait list. */
  ghost predicate WakeEffect(s: State, s': State, t: Tid, e: EntryId, mine: bool) {
    var q, q', p := QueueAt(s, e), QueueAt(s', e), At(s, t);
    && p.Waking? && p.e == e
    && if mine && p.done < p.count && q != [] then
         TakenOff(s, s', e) == [q[0]] && q' == q[1..] && At(s', t) == Waking(e, p.count, p.done + 1)
       else if mine then
         TakenOff(s, s', e) == [] && q' == q && At(s', t).Outside? && t in s'.answer && s'.answer[t] == Woke(p.done)
       else
         && TakenOff(s, s', e) == [] && At(s', t) == p
         && (q' == q || exists x: Tid :: q' == q + [x])
  }

  lemma WakeStepEffect(s: State, t: Tid)
    requires Inv(s) && Enabled(s, WakeNext(t))
    ensures WakeEffect(s, WakeStep(s, t), t, At(s, t).e, true)
  {
    var e := At(s, t).e;
    var q := s.entries[e].queue;
    assert EntryOk(s, e);
    if q != [] { assert q[0] in q; }
    hide Inv, EntryOk;
  }

  lemma OthersEffect(s: State, l: Label, t: Tid)
    requires Inv(s) && Enabled(s, l) && At(s, t).Waking? && l != WakeNext(t)
    ensures WakeEffect(s, Next(s, l), t, At(s, t).e, false)
  {
    assert ThreadOk(s, t);
    assert l.WakeNext? ==> ThreadOk(s, l.t);
    match l
    case Compare(u) =>
      hide Inv, RegisterNext, ReleaseNext, WakeStep;
    case Write(_, _) =>
      hide Inv, RegisterNext, ReleaseNext, CompareNext, WakeStep;
  }

  /** What has happened after part of a wake. */
  ghost predicate WakeSoFar(r: seq<State>, t: Tid, e: EntryId, n: nat, i: nat, m: nat)
    requires i <= m < |r|
  {
    var taken := AllTakenOff(r, e, i, m);
    && At(r[m], t) == Waking(e, n, |taken|) && |taken| <= n
    && exists joined: seq<Tid> :: QueueAt(r[i], e) + joined == taken + QueueAt(r[m], e)
  }

  lemma SoFarStep(r: seq<State>, ls: seq<Label>, t: Tid, e: EntryId, n: nat, i: nat, m: nat)
    requires Taken(r, ls) && i <= m < |ls| && WakeSoFar(r, t, e, n, i, m) && !At(r[m + 1], t).Outside?
    ensures WakeSoFar(r, t, e, n, i, m + 1)
  {
    hide Inv, Next, Enabled, TakenOff, AllTakenOff, QueueAt, WakeStep;
    Effect(r, ls, t, m);
    Unfold(r, e, i, m + 1);
    var taken, q, q' := AllTakenOff(r, e, i, m), QueueAt(r[m], e), QueueAt(r[m + 1], e);
    var joined: seq<Tid> :| QueueAt(r[i], e) + joined == taken + q;
    Conserved(QueueAt(r[i], e), joined, taken, q, TakenOff(r[m], r[m + 1], e), q');
  }

  lemma Unfold(r: seq<State>, e: EntryId, i: nat, m: nat)
    requires i < m < |r|
    ensures AllTakenOff(r, e, i, m) == AllTakenOff(r, e, i, m - 1) + TakenOff(r[m - 1], r[m], e)
  {
  }

  lemma Conserved(q0: seq<Tid>, joined: seq<Tid>, taken: seq<Tid>, q: seq<Tid>, off: seq<Tid>, q': seq<Tid>)
    requires q0 + joined == taken + q
    requires (q != [] && off == [q[0]] && q' == q[1..]) || (off == [] && (q' == q || exists x: Tid :: q' == q + [x]))
    ensures exists j: seq<Tid> :: q0 + j == (taken + off) + q'
  {
    if off != [] {
      assert q0 + joined == (taken + off) + q';
    } else if q' == q {
      assert q0 + joined == (taken + off) + q';
    } else {
      var x: Tid :| q' == q + [x];
      assert q0 + (joined + [x]) == (q0 + joined) + [x] == (taken + off) + q';
    }
  }

  lemma Effect(r: seq<State>, ls: seq<Label>, t: Tid, m: nat)
    requires Taken(r, ls) && m < |ls| && At(r[m], t).Waking?
    ensures WakeEffect(r[m], r[m + 1], t, At(r[m], t).e, ls[m] == WakeNext(t))
  {
    hide Inv, TakenOff, QueueAt, WakeStep, WakeEffect;
    RunInv(r, m);
    assert StepOf(r[m], ls[m], r[m + 1]);
    if ls[m] == WakeNext(t) { WakeStepEffect(r[m], t); } else { OthersEffect(r[m], ls[m], t); }
  }

  lemma {:induction false} SoFar(r: seq<State>, ls: seq<Label>, t: Tid, e: EntryId, n: nat, i: nat, m: nat)
    requires Taken(r, ls) && i <= m < |r| && At(r[i], t) == Waking(e, n, 0)
    requires forall k | i <= k <= m :: !At(r[k], t).Outside?
    ensures WakeSoFar(r, t, e, n, i, m)
    decreases m
  {
    hide Run, WakeSoFar;
    if m == i {
      NoneYet(r, t, e, n, i);
    } else {
      SoFar(r, ls, t, e, n, i, m - 1);
      SoFarStep(r, ls, t, e, n, i, m - 1);
    }
  }

  lemma NoneYet(r: seq<State>, t: Tid, e: EntryId, n: nat, i: nat)
    requires i < |r| && At(r[i], t) == Waking(e, n, 0)
    ensures WakeSoFar(r, t, e, n, i, i)
  {
    assert QueueAt(r[i], e) + [] == [] + QueueAt(r[i], e);
  }

  /** A wake of `n` threads on a key that has waiters takes exactly `n` of them off the front of their list, in order,
      or all that are there, and returns how many. What joins the list meanwhile joins at its end. */
  lemma WakeTakes(r: seq<State>, ls: seq<Label>, t: Tid, k: Key, n: nat, i: nat, j: nat)
    requires Taken(r, ls) && i < j < |r| && ls[i] == WakeBegin(t, k, n) && k in r[i].tree && Call(r, t, i, j)
    ensures var e := r[i].tree[k];
            var taken := AllTakenOff(r, e, i + 1, j);
            && t in r[j].answer && r[j].answer[t] == Woke(|taken|) && |taken| <= n
            && (|taken| < n ==> QueueAt(r[j], e) == [])
            && exists joined: seq<Tid> :: QueueAt(r[i], e) + joined == taken + QueueAt(r[j], e)
  {
    hide Inv, Enabled, TakenOff, AllTakenOff, QueueAt, WakeStep, Run;
    var e := r[i].tree[k];
    Begins(r, ls, t, k, n, i);
    assert j > i + 1;
    SoFar(r, ls, t, e, n, i + 1, j - 1);
    Effect(r, ls, t, j - 1);
    Unfold(r, e, i + 1, j);
    var taken := AllTakenOff(r, e, i + 1, j - 1);
    assert taken + [] == taken;
  }

  lemma Begins(r: seq<State>, ls: seq<Label>, t: Tid, k: Key, n: nat, i: nat)
    requires Taken(r, ls) && i < |ls| && ls[i] == WakeBegin(t, k, n)
    ensures k in r[i].tree ==>
              && At(r[i + 1], t) == Waking(r[i].tree[k], n, 0)
              && QueueAt(r[i + 1], r[i].tree[k]) == QueueAt(r[i], r[i].tree[k])
    ensures k !in r[i].tree ==> At(r[i + 1], t).Outside? && t in r[i + 1].answer && r[i + 1].answer[t] == Woke(0)
  {
    assert StepOf(r[i], ls[i], r[i + 1]);
  }

  /** A wake of a key without an entry wakes nobody, there being nobody. */
  lemma WakeOfNobody(r: seq<State>, ls: seq<Label>, t: Tid, k: Key, n: nat, i: nat, u: Tid)
    requires Taken(r, ls) && i < |ls| && ls[i] == WakeBegin(t, k, n) && k !in r[i].tree
    ensures At(r[i + 1], t).Outside? && t in r[i + 1].answer && r[i + 1].answer[t] == Woke(0)
    ensures forall v: nat :: !SleepsOn(r[i], u, k, v)
  {
    Begins(r, ls, t, k, n, i);
    RunInv(r, i);
  }

  // ---- a wait ----

  /** Step `a`, after step `i`, is the comparison of thread `t`. */
  predicate ComparesAt(ls: seq<Label>, t: Tid, i: nat, a: nat, m: nat) { i < a < m <= |ls| && ls[a] == Compare(t) }

  /** The step from state `b` takes thread `t` off the wait list of `e`. */
  predicate TakenAt(r: seq<State>, t: Tid, e: EntryId, b: nat) {
    b + 1 < |r| && TakenOff(r[b], r[b + 1], e) == [t]
  }

  /** Some step from `a` up to `m` takes thread `t` off the wait list of `e`. */
  ghost predicate TakenSince(r: seq<State>, t: Tid, e: EntryId, a: nat, m: nat)
    requires m < |r|
  {
    exists b: nat :: a < b < m && TakenAt(r, t, e, b)
  }

  /** What has happened after part of a wait for the word at `k` to be other than `v`; `a` is the step of the
      comparison, once it has been made. */
  ghost predicate WaitSoFar(r: seq<State>, ls: seq<Label>, t: Tid, k: Key, v: nat, i: nat, a: nat, m: nat)
    requires |r| == |ls| + 1 && m < |r|
  {
    var p := At(r[m], t);
    && (p.Registered? || p.Sleeping? || p.Leaving?) && p.e in r[m].entries && r[m].entries[p.e].key == k
    && (p.Registered? || p.Sleeping? ==> p.expected == v)
    && (!p.Registered? ==> ComparesAt(ls, t, i, a, m))
    && (p.Sleeping? ==> Word(r[a], k) == v)
    && (p.Leaving? ==> if p.woken then Word(r[a], k) == v && TakenSince(r, t, p.e, a, m) else Word(r[a], k) != v)
  }

  lemma WaitBegins(r: seq<State>, ls: seq<Label>, t: Tid, k: Key, v: nat, room: EntryId, i: nat)
    requires Taken(r, ls) && i < |ls| && ls[i] == Register(t, k, v, room)
    ensures WaitSoFar(r, ls, t, k, v, i, 0, i + 1)
  {
    RunInv(r, i);
    assert StepOf(r[i], ls[i], r[i + 1]);
    hide EntryOk, ThreadOk;
  }

  lemma WaitCompares(s: State, t: Tid, k: Key, v: nat)
    requires Inv(s) && Enabled(s, Compare(t)) && At(s, t).expected == v && s.entries[At(s, t).e].key == k
    ensures var s', e := CompareNext(s, t), At(s, t).e;
            && At(s', t) == (if Word(s, k) == v then Sleeping(e, v) else Leaving(e, false))
            && e in s'.entries && s'.entries[e].key == k
  {
    hide Inv;
  }

  /** While others run, a waiter stays where it is, or is taken off its wait list. */
  lemma WaitKeeps(s: State, l: Label, t: Tid, k: Key)
    requires Inv(s) && Enabled(s, l) && (At(s, t).Registered? || At(s, t).Sleeping? || At(s, t).Leaving?)
    requires l != Compare(t) && l != Release(t) && At(s, t).e in s.entries && s.entries[At(s, t).e].key == k
    ensures var s', e := Next(s, l), At(s, t).e;
            && e in s'.entries && s'.entries[e].key == k
            && (At(s', t) == At(s, t)
                || (At(s, t).Sleeping? && At(s', t) == Leaving(e, true) && TakenOff(s, s', e) == [t]))
  {
    if l.WakeNext? {
      WakeKeeps(s, l.t, t);
    } else {
      OtherKeeps(s, l, t);
    }
  }

  lemma WakeKeeps(s: State, u: Tid, t: Tid)
    requires Inv(s) && Enabled(s, WakeNext(u))
    requires (At(s, t).Registered? || At(s, t).Sleeping? || At(s, t).Leaving?) && At(s, t).e in s.entries
    ensures var s', e := WakeStep(s, u), At(s, t).e;
            && e in s'.entries && s'.entries[e].key == s.entries[e].key
            && (At(s', t) == At(s, t)
                || (At(s, t).Sleeping? && At(s', t) == Leaving(e, true) && TakenOff(s, s', e) == [t]))
  {
    var e := At(s, u).e;
    var q := s.entries[e].queue;
    assert EntryOk(s, e);
    if q != [] { assert q[0] in q; }
    hide Inv, EntryOk;
  }

  lemma OtherKeeps(s: State, l: Label, t: Tid)
    requires Inv(s) && Enabled(s, l) && !l.WakeNext? && l != Compare(t) && l != Release(t) && !At(s, t).Outside?
    requires At(s, t).e in s.entries && !At(s, t).Waking?
    ensures var s', e := Next(s, l), At(s, t).e;
            e in s'.entries && s'.entries[e].key == s.entries[e].key && At(s', t) == At(s, t)
  {
    match l
    case Release(u) =>
      ReleaseKeeps(s, u, t);
      hide Inv;
    case Register(u, k, v, room) => RegisterKeeps(s, u, k, v, room, t);
    case _ =>
      hide Inv, RegisterNext, WakeStep, ReleaseNext;
  }

  lemma RegisterKeeps(s: State, u: Tid, k: Key, v: nat, room: EntryId, t: Tid)
    requires Enabled(s, Register(u, k, v, room)) && !At(s, t).Outside? && At(s, t).e in s.entries
    ensures var s', e := RegisterNext(s, u, k, v, room), At(s, t).e;
            e in s'.entries && s'.entries[e].key == s.entries[e].key && At(s', t) == At(s, t)
  {
  }

  lemma ReleaseKeeps(s: State, u: Tid, t: Tid)
    requires Inv(s) && Enabled(s, Release(u)) && u != t && !At(s, t).Outside? && At(s, t).e in s.entries
    ensures At(s, t).e in ReleaseNext(s, u).entries
  {
    ReleaseInv(s, u);
    assert ThreadOk(ReleaseNext(s, u), t);
    hide Inv;
  }

  lemma WaitStep(r: seq<State>, ls: seq<Label>, t: Tid, k: Key, v: nat, i: nat, a: nat, m: nat) returns (a': nat)
    requires Taken(r, ls) && i < m < |ls| && WaitSoFar(r, ls, t, k, v, i, a, m) && !At(r[m + 1], t).Outside?
    ensures WaitSoFar(r, ls, t, k, v, i, a', m + 1)
  {
    hide Inv, Run, TakenOff;
    RunInv(r, m);
    var s, l, s' := r[m], ls[m], r[m + 1];
    assert StepOf(s, l, s');
    if l == Compare(t) {
      a' := m;
      WaitCompares(s, t, k, v);
    } else {
      a' := a;
      hide Next, Enabled, Word;
      NotReleased(s, l, t, s');
      WaitKeeps(s, l, t, k);
      if At(s', t) != At(s, t) {
        assert TakenAt(r, t, At(s, t).e, m);
        assert TakenSince(r, t, At(s, t).e, a, m + 1);
      }
    }
  }

  lemma NotReleased(s: State, l: Label, t: Tid, s': State)
    requires StepOf(s, l, s') && !At(s', t).Outside?
    ensures l != Release(t)
  {
  }

  lemma {:induction false} WaitRuns(r: seq<State>, ls: seq<Label>, t: Tid, k: Key, v: nat, room: EntryId, i: nat,
                                    m: nat) returns (a: nat)
    requires Taken(r, ls) && i < m < |r| && ls[i] == Register(t, k, v, room)
    requires forall n | i < n <= m :: !At(r[n], t).Outside?
    ensures WaitSoFar(r, ls, t, k, v, i, a, m)
    decreases m
  {
    hide Run, WaitSoFar;
    if m == i + 1 {
      WaitBegins(r, ls, t, k, v, room, i);
      a := 0;
    } else {
      a := WaitRuns(r, ls, t, k, v, room, i, m - 1);
      a := WaitStep(r, ls, t, k, v, i, a, m - 1);
    }
  }

  /** A wait compares the word at its key with the value given, once, at step `a`. It returns EAGAIN exactly if the word
      was different then; otherwise it returns only after a wake has taken it off the list. */
  lemma WaitReturns(r: seq<State>, ls: seq<Label>, t: Tid, k: Key, v: nat, room: EntryId, i: nat, j: nat)
      returns (a: nat, e: EntryId)
    requires Taken(r, ls) && i + 1 < j < |r| && ls[i] == Register(t, k, v, room) && Call(r, t, i, j)
    ensures ComparesAt(ls, t, i, a, j) && t in r[j].answer
    ensures r[j].answer[t] == if Word(r[a], k) != v then Again else Ok
    ensures Word(r[a], k) == v ==> TakenSince(r, t, e, a, j)
  {
    hide Inv, Run, TakenOff, Word, Next, Enabled;
    a := WaitRuns(r, ls, t, k, v, room, i, j - 1);
    e := At(r[j - 1], t).e;
    RunInv(r, j - 1);
    assert StepOf(r[j - 1], ls[j - 1], r[j]);
    Released(r[j - 1], ls[j - 1], t, k);
    if At(r[j - 1], t).woken { TakenLater(r, t, e, a, j - 1); }
  }

  lemma TakenLater(r: seq<State>, t: Tid, e: EntryId, a: nat, m: nat)
    requires m + 1 < |r| && TakenSince(r, t, e, a, m)
    ensures TakenSince(r, t, e, a, m + 1)
  {
    hide TakenAt;
    var b: nat :| a < b < m && TakenAt(r, t, e, b);
  }

  lemma Released(s: State, l: Label, t: Tid, k: Key)
    requires Inv(s) && Enabled(s, l) && (At(s, t).Registered? || At(s, t).Sleeping? || At(s, t).Leaving?)
    requires At(s, t).e in s.entries && s.entries[At(s, t).e].key == k && At(Next(s, l), t).Outside?
    ensures var s' := Next(s, l);
            At(s, t).Leaving? && t in s'.answer && s'.answer[t] == if At(s, t).woken then Ok else Again
  {
    if l != Release(t) && l != Compare(t) {
      hide Inv, Next, Enabled;
      WaitKeeps(s, l, t, k);
    } else {
      hide Inv;
    }
  }

  // ---- order and progress ----

  /** The wait list of a key. */
  function Sleepers(s: State, k: Key): seq<Tid> { if k in s.tree then QueueAt(s, s.tree[k]) else [] }

  lemma SleepersStep(s: State, l: Label, k: Key)
    requires Inv(s) && Enabled(s, l)
    ensures NoDup(Sleepers(s, k)) && QueueStep(Sleepers(s, k), Sleepers(Next(s, l), k))
  {
    if k in s.tree { assert EntryOk(s, s.tree[k]); }
    match l
    case Register(t, _, _, _) =>
      assert Sleepers(Next(s, l), k) == Sleepers(s, k);
    case Compare(t) => CompareJoins(s, t, k);
    case WakeNext(t) => WakeLeaves(s, t, k);
    case Release(t) => ReleaseLeaves(s, t, k);
    case _ =>
  }

  lemma CompareJoins(s: State, t: Tid, k: Key)
    requires Inv(s) && Enabled(s, Compare(t))
    ensures QueueStep(Sleepers(s, k), Sleepers(CompareNext(s, t), k))
  {
    var q, q', e := Sleepers(s, k), Sleepers(CompareNext(s, t), k), At(s, t).e;
    assert EntryOk(s, e);
    assert t !in s.entries[e].queue;
    hide Inv, EntryOk;
    if q' != q { assert q' == q + [t]; }
  }

  lemma WakeLeaves(s: State, t: Tid, k: Key)
    requires Inv(s) && Enabled(s, WakeNext(t))
    ensures QueueStep(Sleepers(s, k), Sleepers(WakeStep(s, t), k))
  {
    var q, q' := Sleepers(s, k), Sleepers(WakeStep(s, t), k);
    if q' != q { assert q' == RemoveAt(q, 0); }
  }

  lemma ReleaseLeaves(s: State, t: Tid, k: Key)
    requires Inv(s) && Enabled(s, Release(t))
    ensures Sleepers(s, k) == Sleepers(ReleaseNext(s, t), k)
  {
    LastLeaves(s, t);
    assert EntryOk(s, At(s, t).e);
    if k in s.tree { assert EntryOk(s, s.tree[k]); }
    hide Inv, EntryOk;
  }

  /** An entry that is freed has nobody on its list. */
  lemma LastLeaves(s: State, t: Tid)
    requires Inv(s) && Enabled(s, Release(t))
    ensures At(s, t).e !in ReleaseNext(s, t).entries ==> QueueAt(s, At(s, t).e) == []
  {
    var e := At(s, t).e;
    assert EntryOk(s, e);
    var q := s.entries[e].queue;
    if q != [] && e !in ReleaseNext(s, t).entries {
      assert q[0] in q;
      assert {t, q[0]} <= Users(s.pc, e);
      assert |{t, q[0]}| == 2;
      SubsetSize({t, q[0]}, Users(s.pc, e));
      assert false;
    }
  }

  /** As long as a thread sleeps on a key, no thread that was behind it or came later gets ahead of it. */
  lemma SleepersFifo(r: seq<State>, i: nat, j: nat, k: Key, t: Tid, u: Tid)
    requires Run(r) && i <= j < |r| && t != u && u in Sleepers(r[j], k)
    requires forall m | i <= m <= j :: t in Sleepers(r[m], k)
    requires u in Sleepers(r[i], k) ==> Ahead(Sleepers(r[i], k), t, u)
    ensures Ahead(Sleepers(r[j], k), t, u)
  {
    hide Inv, Ahead, Next, Enabled, QueueStep, NoDup, Sleepers;
    var qs := seq(|r|, m requires 0 <= m < |r| => Sleepers(r[m], k));
    forall m: nat | m + 1 < |qs|
      ensures StepAt(qs, m)
    {
      RunInv(r, m);
      assert Step(r[m], r[m + 1]);
      var l: Label :| Enabled(r[m], l) && r[m + 1] == Next(r[m], l);
      SleepersStep(r[m], l, k);
    }
    FirstComeFirst(qs, i, j, t, u);
  }

  /** How far a thread is from the end of its call. */
  function ToGo(p: Pc): nat {
    match p
    case Outside => 0
    case Registered(_, _) => 3
    case Sleeping(_, _) => 2
    case Leaving(_, _) => 1
    case Waking(_, count, done) => if done < count then count - done + 1 else 1
  }

  function Actor(l: Label): Option<Tid> {
    match l
    case Write(_, _) => None
    case Register(t, _, _, _) => Some(t)
    case Compare(t) => Some(t)
    case Release(t) => Some(t)
    case WakeBegin(t, _, _) => Some(t)
    case WakeNext(t) => Some(t)
  }

  /** Every step of a thread inside a call brings it closer to the end. */
  lemma OwnStepAdvances(s: State, l: Label, t: Tid)
    requires Inv(s) && Enabled(s, l) && Actor(l) == Some(t) && !At(s, t).Outside?
    ensures ToGo(At(Next(s, l), t)) < ToGo(At(s, t))
  {
    if l.WakeNext? {
      WakeStepEffect(s, t);
      hide Inv, WakeStep;
    } else {
      hide Inv;
    }
  }
}
