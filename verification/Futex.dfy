/** The futex registry and its waiters and wakers, as a system of interleaved steps of any number of threads. */
module Futex {
  import opened Options
  import opened Lists

  type Tid = nat
  type Key = nat
  type EntryId = nat

  /** A registry entry: the word's physical address, the number of waiters that refer to it, and its wait list. */
  datatype Entry = Entry(key: Key, refcnt: nat, queue: seq<Tid>)

  /** Where a thread is in `syscall_futex_wait` or `syscall_futex_wake`. */
  datatype Pc =
    | Outside
    | Registered(e: EntryId, expected: nat)  // counted in the entry; about to compare the word
    | Sleeping(e: EntryId, expected: nat)    // in the entry's wait list
    | Leaving(e: EntryId, woken: bool)       // woken, or the word differed; about to give the entry up
    | Waking(e: EntryId, count: nat, done: nat)  // holds the registry lock; has woken `done` of `count` threads

  /** What a call returns: a wait that was woken, a wait that found another word, or the number of threads woken. */
  datatype Answer = Ok | Again | Woke(n: nat)

  /** `lock` is the thread that holds the registry lock from one step to the next, and `answer` what the last call of
      each thread returned. */
  datatype State = State(mem: map<Key, nat>, tree: map<Key, EntryId>, entries: map<EntryId, Entry>, lock: Option<Tid>,
                         pc: map<Tid, Pc>, answer: map<Tid, Answer>)

  function Word(s: State, k: Key): nat { if k in s.mem then s.mem[k] else 0 }

  function At(s: State, t: Tid): Pc { if t in s.pc then s.pc[t] else Outside }

  function Go(s: State, t: Tid, p: Pc): State { s.(pc := s.pc[t := p]) }

  /** Thread `t` returns from its call. */
  function Return(s: State, t: Tid, a: Answer): State { Go(s.(answer := s.answer[t := a]), t, Outside) }

  function Init(): State { State(map[], map[], map[], None, map[], map[]) }

  // ---- steps ----

  datatype Label =
    | Register(t: Tid, k: Key, v: nat, room: EntryId)  // `room` is where a new entry would be allocated
    | Compare(t: Tid)
    | Release(t: Tid)
    | WakeBegin(t: Tid, k: Key, n: nat)
    | WakeNext(t: Tid)
    | Write(k: Key, x: nat)

  predicate Enabled(s: State, l: Label) {
    match l
    case Register(t, k, v, room) => At(s, t).Outside? && s.lock.None? && room !in s.entries
    case Compare(t) => At(s, t).Registered? && At(s, t).e in s.entries
    case Release(t) => At(s, t).Leaving? && s.lock.None? && At(s, t).e in s.entries && s.entries[At(s, t).e].refcnt > 0
    case WakeBegin(t, k, n) => At(s, t).Outside? && s.lock.None? && (k in s.tree ==> s.tree[k] in s.entries)
    case WakeNext(t) => At(s, t).Waking? && At(s, t).e in s.entries
    case Write(_, _) => true
  }

  function RegisterNext(s: State, t: Tid, k: Key, v: nat, room: EntryId): State {
    if k in s.tree && s.tree[k] in s.entries then
      var e := s.tree[k];
      Go(s.(entries := s.entries[e := s.entries[e].(refcnt := s.entries[e].refcnt + 1)]), t, Registered(e, v))
    else
      Go(s.(tree := s.tree[k := room], entries := s.entries[room := Entry(k, 1, [])]), t, Registered(room, v))
  }

  function CompareNext(s: State, t: Tid): State
    requires Enabled(s, Compare(t))
  {
    var e, v := At(s, t).e, At(s, t).expected;
    if Word(s, s.entries[e].key) != v then Go(s, t, Leaving(e, false))
    else Go(s.(entries := s.entries[e := s.entries[e].(queue := s.entries[e].queue + [t])]), t, Sleeping(e, v))
  }

  function ReleaseNext(s: State, t: Tid): State
    requires Enabled(s, Release(t))
  {
    var e, a := At(s, t).e, if At(s, t).woken then Ok else Again;
    var n := s.entries[e].refcnt - 1;
    if n == 0 then Return(s.(tree := s.tree - {s.entries[e].key}, entries := s.entries - {e}), t, a)
    else Return(s.(entries := s.entries[e := s.entries[e].(refcnt := n)]), t, a)
  }

  /** The wakeup loop: it stops when it has woken enough threads or finds no more. */
  function WakeStep(s: State, t: Tid): State
    requires Enabled(s, WakeNext(t))
  {
    var e, count, done := At(s, t).e, At(s, t).count, At(s, t).done;
    var q := s.entries[e].queue;
    if count <= done || q == [] then Return(s.(lock := None), t, Woke(done))
    else
      Go(Go(s.(entries := s.entries[e := s.entries[e].(queue := q[1..])]), q[0], Leaving(e, true)), t,
         Waking(e, count, done + 1))
  }

  function Next(s: State, l: Label): State
    requires Enabled(s, l)
  {
    match l
    case Register(t, k, v, room) => RegisterNext(s, t, k, v, room)
    case Compare(t) => CompareNext(s, t)
    case Release(t) => ReleaseNext(s, t)
    case WakeBegin(t, k, n) =>
      if k in s.tree then Go(s.(lock := Some(t)), t, Waking(s.tree[k], n, 0)) else Return(s, t, Woke(0))
    case WakeNext(t) => WakeStep(s, t)
    case Write(k, x) => s.(mem := s.mem[k := x])
  }

  ghost predicate Step(s: State, s': State) { exists l: Label :: Enabled(s, l) && s' == Next(s, l) }

  ghost predicate Run(r: seq<State>) {
    r != [] && r[0] == Init() && forall i, j | 0 <= i < j < |r| && j == i + 1 :: Step(r[i], r[j])
  }

  // ---- the invariant ----

  /** The thread refers to entry `e` as a waiter. */
  predicate Uses(p: Pc, e: EntryId) { (p.Registered? || p.Sleeping? || p.Leaving?) && p.e == e }

  function Users(pc: map<Tid, Pc>, e: EntryId): set<Tid> { set t | t in pc && Uses(pc[t], e) }

  /** The tree has one entry for each key, and every entry is in the tree. */
  ghost predicate TreeOk(s: State) {
    && (forall k: Key | k in s.tree :: s.tree[k] in s.entries && s.entries[s.tree[k]].key == k)
    && (forall e: EntryId | e in s.entries :: s.entries[e].key in s.tree && s.tree[s.entries[e].key] == e)
  }

  /** An entry counts exactly the waiters that refer to it, and queues exactly those that sleep. */
  ghost predicate EntryOk(s: State, e: EntryId)
    requires e in s.entries
  {
    && s.entries[e].refcnt == |Users(s.pc, e)| > 0
    && NoDup(s.entries[e].queue) && forall t: Tid :: t in s.entries[e].queue <==> At(s, t).Sleeping? && At(s, t).e == e
  }

  ghost predicate ThreadOk(s: State, t: Tid) {
    && (!At(s, t).Outside? ==> At(s, t).e in s.entries)
    && (At(s, t).Waking? <==> s.lock == Some(t))
  }

  ghost predicate Inv(s: State) {
    && TreeOk(s) && (forall e: EntryId | e in s.entries :: EntryOk(s, e))
    && forall t: Tid :: ThreadOk(s, t)
  }

  lemma InitInv()
    ensures Inv(Init())
  {
  }

  function PcAt(pc: map<Tid, Pc>, t: Tid): Pc { if t in pc then pc[t] else Outside }

  lemma UsersIs(pc: map<Tid, Pc>, e: EntryId, x: Tid)
    ensures x in Users(pc, e) <==> Uses(PcAt(pc, x), e)
  {
  }

  lemma UsersSet(pc: map<Tid, Pc>, t: Tid, p: Pc, e: EntryId)
    ensures Users(pc[t := p], e) == if Uses(p, e) then Users(pc, e) + {t} else Users(pc, e) - {t}
  {
    var u, u' := Users(pc, e), Users(pc[t := p], e);
    var w := if Uses(p, e) then u + {t} else u - {t};
    hide Users, Uses;
    forall x: Tid
      ensures x in u' <==> x in w
    {
      UsersIs(pc, e, x);
      UsersIs(pc[t := p], e, x);
    }
  }

  /** How one thread's move changes who uses an entry. */
  lemma UsersMove(pc: map<Tid, Pc>, t: Tid, p: Pc, e: EntryId)
    ensures |Users(pc[t := p], e)|
            == |Users(pc, e)| + (if Uses(p, e) then 1 else 0) - (if Uses(PcAt(pc, t), e) then 1 else 0)
  {
    hide Users, Uses;
    UsersSet(pc, t, p, e);
    UsersIs(pc, e, t);
  }

  lemma NobodyUses(s: State, e: EntryId)
    requires Inv(s) && e !in s.entries
    ensures Users(s.pc, e) == {} && forall t: Tid :: !(At(s, t).Sleeping? && At(s, t).e == e)
  {
    forall t: Tid
      ensures !Uses(At(s, t), e)
    {
      assert ThreadOk(s, t);
    }
    assert forall t | t in s.pc :: !Uses(At(s, t), e);
  }

  // ---- each step keeps it ----

  lemma RegisterEntry(s: State, t: Tid, k: Key, v: nat, room: EntryId, e: EntryId)
    requires Inv(s) && Enabled(s, Register(t, k, v, room)) && e in RegisterNext(s, t, k, v, room).entries
    ensures EntryOk(RegisterNext(s, t, k, v, room), e)
  {
    var s' := RegisterNext(s, t, k, v, room);
    UsersMove(s.pc, t, s'.pc[t], e);
    if e in s.entries { assert EntryOk(s, e); } else { NobodyUses(s, e); }
    var nobody: seq<Tid> := [];
    assert NoDup(nobody);
    assert forall x: Tid | x != t :: At(s', x) == At(s, x);
    hide Users, NoDup, TreeOk, Inv;
  }

  lemma RegisterTree(s: State, t: Tid, k: Key, v: nat, room: EntryId)
    requires Inv(s) && Enabled(s, Register(t, k, v, room))
    ensures TreeOk(RegisterNext(s, t, k, v, room))
  {
    hide EntryOk, ThreadOk;
  }

  lemma RegisterInv(s: State, t: Tid, k: Key, v: nat, room: EntryId)
    requires Inv(s) && Enabled(s, Register(t, k, v, room))
    ensures Inv(RegisterNext(s, t, k, v, room))
  {
    var s' := RegisterNext(s, t, k, v, room);
    RegisterTree(s, t, k, v, room);
    hide EntryOk, TreeOk;
    forall e: EntryId | e in s'.entries
      ensures EntryOk(s', e)
    {
      RegisterEntry(s, t, k, v, room, e);
    }
    forall u: Tid
      ensures ThreadOk(s', u)
    {
      assert ThreadOk(s, u);
    }
  }

  lemma CompareEntry(s: State, t: Tid, e: EntryId)
    requires Inv(s) && Enabled(s, Compare(t)) && e in s.entries
    ensures EntryOk(CompareNext(s, t), e)
  {
    var s' := CompareNext(s, t);
    UsersMove(s.pc, t, s'.pc[t], e);
    assert EntryOk(s, e);
    QueueBack(s.entries[e].queue, t);
    hide Users, NoDup, TreeOk, Inv;
  }

  lemma CompareInv(s: State, t: Tid)
    requires Inv(s) && Enabled(s, Compare(t))
    ensures Inv(CompareNext(s, t))
  {
    var s' := CompareNext(s, t);
    CompareTree(s, t);
    hide EntryOk, ThreadOk, TreeOk, CompareNext;
    forall e: EntryId | e in s'.entries
      ensures EntryOk(s', e)
    {
      CompareEntry(s, t, e);
    }
    forall u: Tid
      ensures ThreadOk(s', u)
    {
      CompareThread(s, t, u);
    }
  }

  lemma CompareTree(s: State, t: Tid)
    requires Inv(s) && Enabled(s, Compare(t))
    ensures TreeOk(CompareNext(s, t)) && CompareNext(s, t).entries.Keys == s.entries.Keys
  {
    hide EntryOk, ThreadOk;
  }

  lemma CompareThread(s: State, t: Tid, u: Tid)
    requires Inv(s) && Enabled(s, Compare(t))
    ensures ThreadOk(CompareNext(s, t), u)
  {
    assert ThreadOk(s, u) && ThreadOk(s, t);
    hide Inv, EntryOk, TreeOk;
  }

  lemma QueueBack(q: seq<Tid>, t: Tid)
    ensures NoDup(q) && t !in q ==> NoDup(q + [t])
    ensures forall x: Tid :: x in q + [t] <==> x in q || x == t
  {
  }

  lemma ReleaseEntry(s: State, t: Tid, e: EntryId)
    requires Inv(s) && Enabled(s, Release(t)) && e in ReleaseNext(s, t).entries
    ensures EntryOk(ReleaseNext(s, t), e)
  {
    UsersMove(s.pc, t, Outside, e);
    assert EntryOk(s, e);
    hide Users, NoDup, TreeOk, Inv;
  }

  /** Nobody else refers to an entry that is freed. */
  lemma ReleaseThread(s: State, t: Tid, u: Tid)
    requires Inv(s) && Enabled(s, Release(t))
    ensures ThreadOk(ReleaseNext(s, t), u)
  {
    var s', e := ReleaseNext(s, t), At(s, t).e;
    assert ThreadOk(s, u);
    assert EntryOk(s, e);
    UsersMove(s.pc, t, Outside, e);
    if u != t && Uses(At(s, u), e) { assert u in Users(s'.pc, e); }
    hide EntryOk, Users, Inv;
  }

  lemma ReleaseTree(s: State, t: Tid)
    requires Inv(s) && Enabled(s, Release(t))
    ensures TreeOk(ReleaseNext(s, t))
  {
    hide EntryOk, ThreadOk;
  }

  lemma ReleaseInv(s: State, t: Tid)
    requires Inv(s) && Enabled(s, Release(t))
    ensures Inv(ReleaseNext(s, t))
  {
    var s' := ReleaseNext(s, t);
    hide EntryOk, ThreadOk, TreeOk, ReleaseNext;
    ReleaseTree(s, t);
    forall e: EntryId | e in s'.entries
      ensures EntryOk(s', e)
    {
      ReleaseEntry(s, t, e);
    }
    forall u: Tid
      ensures ThreadOk(s', u)
    {
      ReleaseThread(s, t, u);
    }
  }

  predicate Pops(s: State, t: Tid)
    requires Enabled(s, WakeNext(t))
  {
    At(s, t).done < At(s, t).count && s.entries[At(s, t).e].queue != []
  }

  lemma PopEntry(s: State, t: Tid, e: EntryId)
    requires Inv(s) && Enabled(s, WakeNext(t)) && Pops(s, t) && e in s.entries
    ensures EntryOk(WakeStep(s, t), e)
  {
    var e0 := At(s, t).e;
    var q := s.entries[e0].queue;
    var u := q[0];
    assert EntryOk(s, e0) && EntryOk(s, e) && u in q && q == [u] + q[1..];
    UsersMove(s.pc, u, Leaving(e0, true), e);
    UsersMove(s.pc[u := Leaving(e0, true)], t, Waking(e0, At(s, t).count, At(s, t).done + 1), e);
    assert NoDup(q[1..]) && u !in q[1..] && forall x: Tid :: x in q <==> x == u || x in q[1..];
    hide Users, NoDup, TreeOk, Inv, ThreadOk;
  }

  lemma DoneEntry(s: State, t: Tid, e: EntryId)
    requires Inv(s) && Enabled(s, WakeNext(t)) && !Pops(s, t) && e in s.entries
    ensures EntryOk(WakeStep(s, t), e)
  {
    UsersMove(s.pc, t, Outside, e);
    assert EntryOk(s, e);
    hide Users, NoDup, TreeOk, Inv, ThreadOk;
  }

  lemma WakeThread(s: State, t: Tid, u: Tid)
    requires Inv(s) && Enabled(s, WakeNext(t))
    ensures ThreadOk(WakeStep(s, t), u)
  {
    assert ThreadOk(s, u) && ThreadOk(s, t);
    var q := s.entries[At(s, t).e].queue;
    assert EntryOk(s, At(s, t).e);
    if q != [] {
      assert q[0] in q;
      assert ThreadOk(s, q[0]);
    }
    hide EntryOk, Users, Inv, TreeOk;
  }

  lemma WakeStepInv(s: State, t: Tid)
    requires Inv(s) && Enabled(s, WakeNext(t))
    ensures Inv(WakeStep(s, t))
  {
    var s' := WakeStep(s, t);
    assert s'.entries.Keys == s.entries.Keys && TreeOk(s');
    hide EntryOk, ThreadOk, TreeOk, WakeStep;
    forall e: EntryId | e in s'.entries
      ensures EntryOk(s', e)
    {
      if Pops(s, t) { PopEntry(s, t, e); } else { DoneEntry(s, t, e); }
    }
    forall u: Tid
      ensures ThreadOk(s', u)
    {
      WakeThread(s, t, u);
    }
  }

  lemma WakeBeginInv(s: State, t: Tid, k: Key, n: nat)
    requires Inv(s) && Enabled(s, WakeBegin(t, k, n))
    ensures Inv(Next(s, WakeBegin(t, k, n)))
  {
    var s' := Next(s, WakeBegin(t, k, n));
    forall e: EntryId | e in s'.entries
      ensures EntryOk(s', e)
    {
      UsersMove(s.pc, t, s'.pc[t], e);
      assert EntryOk(s, e);
    }
    forall u: Tid
      ensures ThreadOk(s', u)
    {
      assert ThreadOk(s, u);
    }
  }

  lemma WriteInv(s: State, k: Key, x: nat)
    requires Inv(s)
    ensures Inv(s.(mem := s.mem[k := x]))
  {
    var s' := s.(mem := s.mem[k := x]);
    forall e: EntryId | e in s'.entries
      ensures EntryOk(s', e)
    {
      assert EntryOk(s, e);
    }
    forall u: Tid
      ensures ThreadOk(s', u)
    {
      assert ThreadOk(s, u);
    }
  }

  lemma StepInv(s: State, l: Label)
    requires Inv(s) && Enabled(s, l)
    ensures Inv(Next(s, l))
  {
    hide Inv, RegisterNext, CompareNext, ReleaseNext, WakeStep;
    match l
    case Register(t, k, v, room) => RegisterInv(s, t, k, v, room);
    case Compare(t) => CompareInv(s, t);
    case Release(t) => ReleaseInv(s, t);
    case WakeBegin(t, k, n) => WakeBeginInv(s, t, k, n);
    case WakeNext(t) => WakeStepInv(s, t);
    case Write(k, x) => WriteInv(s, k, x);
  }

  lemma {:induction false} RunInv(r: seq<State>, i: nat)
    requires Run(r) && i < |r|
    ensures Inv(r[i])
    decreases i
  {
    hide Inv, Next, Enabled;
    if i == 0 {
      InitInv();
    } else {
      RunInv(r, i - 1);
      assert Step(r[i - 1], r[i]);
      var l: Label :| Enabled(r[i - 1], l) && r[i] == Next(r[i - 1], l);
      StepInv(r[i - 1], l);
    }
  }

  // ---- what follows for every run ----

  /** There is one entry for each key, and it counts exactly its waiters. */
  lemma OneCountedEntry(r: seq<State>, i: nat, e: EntryId, f: EntryId)
    requires Run(r) && i < |r| && e in r[i].entries && f in r[i].entries
    ensures r[i].entries[e].key == r[i].entries[f].key ==> e == f
    ensures r[i].entries[e].refcnt == |Users(r[i].pc, e)| > 0
  {
    RunInv(r, i);
    assert EntryOk(r[i], e);
  }

  /** A thread that refers to an entry, as a waiter or as a waker, refers to one that has not been freed. */
  lemma NoUseAfterFree(r: seq<State>, i: nat, t: Tid)
    requires Run(r) && i < |r| && !At(r[i], t).Outside?
    ensures At(r[i], t).e in r[i].entries
  {
    RunInv(r, i);
    assert ThreadOk(r[i], t);
  }

  /** An entry is freed by its last waiter, and by then no waker has it. */
  lemma FreedByTheLast(r: seq<State>, i: nat, t: Tid)
    requires Run(r) && i < |r| && Enabled(r[i], Release(t))
    ensures var e := At(r[i], t).e; e !in Next(r[i], Release(t)).entries <==> Users(r[i].pc, e) == {t}
    ensures forall u: Tid :: !At(r[i], u).Waking?
  {
    RunInv(r, i);
    var s, e := r[i], At(r[i], t).e;
    assert EntryOk(s, e);
    assert t in Users(s.pc, e);
    if |Users(s.pc, e)| == 1 { OnlyMember(Users(s.pc, e), t); }
    forall u: Tid
      ensures !At(s, u).Waking?
    {
      assert ThreadOk(s, u);
    }
  }

  lemma OnlyMember(u: set<Tid>, t: Tid)
    requires t in u && |u| == 1
    ensures u == {t}
  {
    assert |u - {t}| == 0;
    assert u == {t} + (u - {t});
  }

  /** Thread `t` sleeps until the word at `k` is no longer `v`. */
  predicate SleepsOn(s: State, t: Tid, k: Key, v: nat) {
    At(s, t).Sleeping? && At(s, t).expected == v && At(s, t).e in s.entries && s.entries[At(s, t).e].key == k
  }

  /** The step is a wake of `k` that finds nobody, or nobody any more. */
  predicate FindsNobody(s: State, l: Label, k: Key) {
    || (l.WakeBegin? && l.k == k && k !in s.tree)
    || (l.WakeNext? && At(s, l.t).Waking? && At(s, l.t).e in s.entries && s.entries[At(s, l.t).e].key == k
        && s.entries[At(s, l.t).e].queue == [])
  }

  lemma NobodyFound(s: State, l: Label, k: Key, v: nat, t: Tid)
    requires Inv(s) && Enabled(s, l) && FindsNobody(s, l, k)
    ensures !SleepsOn(Next(s, l), t, k, v)
  {
    assert ThreadOk(s, t);
    assert !SleepsOn(s, t, k, v);
    hide EntryOk, Inv;
  }

  /** Only its own comparison sends a thread to sleep. */
  lemma StaysAsleep(s: State, l: Label, t: Tid)
    requires Inv(s) && Enabled(s, l) && l != Compare(t) && At(Next(s, l), t).Sleeping?
    ensures At(s, t) == At(Next(s, l), t)
  {
    hide Inv;
  }

  lemma KeysKept(s: State, l: Label, e: EntryId)
    requires Enabled(s, l) && e in s.entries && e in Next(s, l).entries
    ensures Next(s, l).entries[e].key == s.entries[e].key
  {
  }

  /** A thread goes to sleep only on finding the word as expected. */
  lemma FallsAsleep(s: State, l: Label, k: Key, v: nat, t: Tid)
    requires Inv(s) && Enabled(s, l) && SleepsOn(Next(s, l), t, k, v)
    ensures SleepsOn(s, t, k, v) || Word(s, k) == v
  {
    if l != Compare(t) {
      assert ThreadOk(s, t);
      hide Inv, Next, Enabled;
      StaysAsleep(s, l, t);
      KeysKept(s, l, At(s, t).e);
    }
  }

  /** No wakeup is missed: once a wake of `k` has found nobody left, nobody sleeps on a value that the word has not had
      since. So a waiter either sees a value that was changed before the wake, or was queued in time for it. */
  lemma {:induction false} NoMissedWake(r: seq<State>, i: nat, l: Label, j: nat, k: Key, v: nat, t: Tid)
    requires Run(r) && i < j < |r| && Enabled(r[i], l) && r[i + 1] == Next(r[i], l) && FindsNobody(r[i], l, k)
    requires forall m | i < m < j :: Word(r[m], k) != v
    ensures !SleepsOn(r[j], t, k, v)
    decreases j
  {
    hide Inv, Next, Enabled, FindsNobody, SleepsOn, Word;
    if j == i + 1 {
      RunInv(r, i);
      NobodyFound(r[i], l, k, v, t);
    } else {
      NoMissedWake(r, i, l, j - 1, k, v, t);
      RunInv(r, j - 1);
      assert Step(r[j - 1], r[j]);
      var l': Label :| Enabled(r[j - 1], l') && r[j] == Next(r[j - 1], l');
      if SleepsOn(r[j], t, k, v) { FallsAsleep(r[j - 1], l', k, v, t); }
    }
  }

  // ---- a word that is registered under another address ----

  /** After any wake of `k` that finds nobody left, nobody sleeps under `k` on a value that the word at `a` has not had
      since. */
  ghost predicate NoneMissedAt(k: Key, a: Key) {
    forall r: seq<State>, i: nat, l: Label, j: nat, v: nat, t: Tid | Woken(r, i, l, j, k) && NotSince(r, i, j, a, v) ::
      !SleepsOn(r[j], t, k, v)
  }

  /** Step `i` of the run is a wake of `k` that finds nobody left. */
  ghost predicate Woken(r: seq<State>, i: nat, l: Label, j: nat, k: Key) {
    Run(r) && i < j < |r| && Enabled(r[i], l) && r[i + 1] == Next(r[i], l) && FindsNobody(r[i], l, k)
  }

  /** The word at `a` is not `v` between states `i` and `j`. */
  ghost predicate NotSince(r: seq<State>, i: nat, j: nat, a: Key, v: nat)
    requires i < j < |r|
  {
    forall m | i < m < j :: Word(r[m], a) != v
  }

  /** No wakeup of a word at `a` that is registered under the key `k` is missed, in any run, if and only if the key is
      the address. */
  lemma NoneMissedIff(k: Key, a: Key)
    ensures NoneMissedAt(k, a) <==> k == a
  {
    if k == a {
      forall r: seq<State>, i: nat, l: Label, j: nat, v: nat, t: Tid | Woken(r, i, l, j, k) && NotSince(r, i, j, a, v)
        ensures !SleepsOn(r[j], t, k, v)
      {
        NoMissedWake(r, i, l, j, k, v, t);
      }
    } else {
      var r := MissedRun(k, a);
      MissedRunIs(k, a);
      assert Woken(r, 1, WakeBegin(0, k, 1), 4, k) && NotSince(r, 1, 4, a, 0) && SleepsOn(r[4], 1, k, 0);
    }
  }

  /** The word at `a` is set to 1, a wake of `k` finds nobody, and then a thread waits under `k` for a word of 0, and
      sleeps, the word at `k` being 0. */
  function MissedRun(k: Key, a: Key): seq<State> {
    var s1 := Init().(mem := map[a := 1]);
    var s2 := Return(s1, 0, Woke(0));
    var s3 := RegisterNext(s2, 1, k, 0, 0);
    [Init(), s1, s2, s3, Go(s3.(entries := s3.entries[0 := Entry(k, 1, [1])]), 1, Sleeping(0, 0))]
  }

  lemma MissedRunIs(k: Key, a: Key)
    requires k != a
    ensures var r := MissedRun(k, a);
            Woken(r, 1, WakeBegin(0, k, 1), 4, k) && NotSince(r, 1, 4, a, 0) && SleepsOn(r[4], 1, k, 0)
  {
    var r := MissedRun(k, a);
    var l1, l2, l3, l4 := Write(a, 1), WakeBegin(0, k, 1), Register(1, k, 0, 0), Compare(1);
    assert Enabled(r[0], l1) && r[1] == Next(r[0], l1);
    assert Enabled(r[1], l2) && r[2] == Next(r[1], l2);
    assert Enabled(r[2], l3) && r[3] == Next(r[2], l3);
    assert [] + [1] == [1];
    assert Enabled(r[3], l4) && r[4] == Next(r[3], l4);
    assert Step(r[0], r[1]) && Step(r[1], r[2]) && Step(r[2], r[3]) && Step(r[3], r[4]);
  }
}
