/** The hand-off mutex as a system of interleaved steps of any number of threads. */
module HandOffMutex {
  import opened Lists

  type Tid = nat

  /** The lock word. */
  datatype Word = Unlocked | Locked | LockedWaiters | UnlockedWaiters

  /** Where a thread is in `mutex_lock` or `mutex_unlock`. */
  datatype Pc =
    | Outside        // not holding the mutex and not after it
    | Locking        // about to read the word
    | SawUnlocked    // about to try the uncontended compare-exchange
    | Claiming       // about to take the wait-list lock and exchange the word
    | ClaimWon       // under the wait-list lock, the exchange having found the word unlocked
    | ClaimLost      // under the wait-list lock, about to queue up
    | Parked         // in the wait list
    | Woken          // taken off the wait list, about to store the word
    | Holding
    | Unlocking      // about to try the uncontended compare-exchange
    | Reserving      // about to store UNLOCKED_WAITERS
    | Waking         // about to take a thread off the wait list
    | Releasing      // found none; about to try the second compare-exchange
    | Rewaking       // the second compare-exchange failed

  /** `waitLock` holds the thread that is inside the wait-list lock between two steps. */
  datatype State = State(word: Word, queue: seq<Tid>, waitLock: set<Tid>, pc: map<Tid, Pc>)

  function At(s: State, t: Tid): Pc { if t in s.pc then s.pc[t] else Outside }

  function Go(s: State, t: Tid, p: Pc): State { s.(pc := s.pc[t := p]) }

  function Init(): State { State(Unlocked, [], {}, map[]) }

  /** Takes the first waiter off the list, `t` being the unlocker. */
  function Pop(s: State, t: Tid): State
    requires s.queue != []
  {
    Go(Go(s.(queue := s.queue[1..]), s.queue[0], Woken), t, Outside)
  }

  /** Thread `t` can take a step: a parked thread waits to be woken, and some steps need the wait-list lock. */
  predicate Enabled(s: State, t: Tid) {
    match At(s, t)
    case Parked => false
    case Claiming => s.waitLock == {}
    case Waking => s.waitLock == {}
    case Rewaking => s.waitLock == {}
    case _ => true
  }

  /** The step of thread `t`. */
  function Next(s: State, t: Tid): State
    requires Enabled(s, t)
  {
    match At(s, t)
    case Outside => Go(s, t, Locking)
    case Locking => Go(s, t, if s.word == Unlocked then SawUnlocked else Claiming)
    case SawUnlocked => if s.word == Unlocked then Go(s.(word := Locked), t, Holding) else Go(s, t, Claiming)
    case Claiming =>
      Go(s.(word := LockedWaiters, waitLock := {t}), t, if s.word == Unlocked then ClaimWon else ClaimLost)
    case ClaimWon => Go(s.(word := if s.queue == [] then Locked else s.word, waitLock := {}), t, Holding)
    case ClaimLost => Go(s.(queue := s.queue + [t], waitLock := {}), t, Parked)
    case Woken => Go(s.(word := LockedWaiters), t, Holding)
    case Holding => Go(s, t, Unlocking)
    case Unlocking => if s.word == Locked then Go(s.(word := Unlocked), t, Outside) else Go(s, t, Reserving)
    case Reserving => Go(s.(word := UnlockedWaiters), t, Waking)
    case Waking => if s.queue == [] then Go(s, t, Releasing) else Pop(s, t)
    case Releasing => if s.word == UnlockedWaiters then Go(s.(word := Unlocked), t, Outside) else Go(s, t, Rewaking)
    case Rewaking => if s.queue == [] then Go(s, t, Outside) else Pop(s, t)
  }

  ghost predicate Step(s: State, s': State) { exists t: Tid :: Enabled(s, t) && s' == Next(s, t) }

  /** A run: a sequence of states from the initial one, each a step from the last. */
  ghost predicate Run(r: seq<State>) {
    r != [] && r[0] == Init() && forall i, j | 0 <= i < j < |r| && j == i + 1 :: Step(r[i], r[j])
  }

  // ---- invariant ----

  /** The thread owns the mutex. */
  predicate Owns(p: Pc) { p.ClaimWon? || p.Holding? || p.Unlocking? || p.Reserving? }

  /** The thread owns the mutex or is passing it on. */
  predicate Carries(p: Pc) { Owns(p) || p.Waking? || p.Releasing? || p.Rewaking? || p.Woken? }

  predicate InSection(p: Pc) { p.ClaimWon? || p.ClaimLost? }

  datatype Who = Nobody | Is(t: Tid)

  /** A waiter is queued or on its way into the queue; `l` is inside the wait-list lock. */
  ghost predicate Waiter(s: State, l: Who) { s.queue != [] || (l.Is? && At(s, l.t).ClaimLost?) }

  /** What the word must be for the carrier's place in the code. */
  ghost predicate WordFits(s: State, l: Who, p: Pc) {
    match p
    case ClaimWon => s.word == LockedWaiters
    case Holding => s.word == Locked || s.word == LockedWaiters
    case Unlocking => s.word == Locked || s.word == LockedWaiters
    case Reserving => s.word == LockedWaiters
    case Waking => s.word == UnlockedWaiters || (s.word == LockedWaiters && Waiter(s, l))
    case Releasing => (s.word == UnlockedWaiters && !Waiter(s, l)) || (s.word == LockedWaiters && Waiter(s, l))
    case Rewaking => s.word == LockedWaiters && Waiter(s, l)
    case Woken => s.word == UnlockedWaiters || s.word == LockedWaiters
    case _ => false
  }

  /** The queue holds exactly the parked threads, each once. */
  ghost predicate QueueOk(s: State) {
    NoDup(s.queue) && forall t: Tid :: t in s.queue <==> At(s, t).Parked?
  }

  /** `c` is the only thread that owns or passes on the mutex. */
  ghost predicate CarrierIs(s: State, c: Who) { forall t: Tid :: Carries(At(s, t)) <==> c == Is(t) }

  ghost predicate SectionIs(s: State, l: Who) {
    && s.waitLock == (if l.Is? then {l.t} else {})
    && forall t: Tid :: InSection(At(s, t)) <==> l == Is(t)
  }

  ghost predicate WordOk(s: State, c: Who, l: Who) {
    && (s.word == Unlocked <==> c == Nobody)
    && (s.word == Unlocked || s.word == Locked ==> !Waiter(s, l))
    && (c.Is? ==> WordFits(s, l, At(s, c.t)))
    && (c.Is? && At(s, c.t).ClaimWon? ==> s.queue == [])
  }

  ghost predicate InvWith(s: State, c: Who, l: Who) {
    QueueOk(s) && CarrierIs(s, c) && SectionIs(s, l) && WordOk(s, c, l)
  }

  ghost predicate Inv(s: State) { exists c: Who, l: Who :: InvWith(s, c, l) }

  ghost function NextCarrier(s: State, t: Tid, c: Who): Who
    requires Enabled(s, t)
  {
    var p := At(s, t);
    if (p.Waking? || p.Rewaking?) && s.queue != [] then Is(s.queue[0])
    else if Carries(At(Next(s, t), t)) then Is(t)
    else if Carries(p) then Nobody
    else c
  }

  ghost function NextSection(s: State, t: Tid, l: Who): Who
    requires Enabled(s, t)
  {
    if At(s, t).Claiming? then Is(t) else if InSection(At(s, t)) then Nobody else l
  }

  lemma InitInv()
    ensures InvWith(Init(), Nobody, Nobody)
  {
  }

  /** What a step does to the queue: nothing, or the thread parks itself at the end, or the first thread is woken. */
  lemma QueueChange(s: State, t: Tid)
    requires Enabled(s, t)
    ensures var s', p := Next(s, t), At(s, t);
            && !p.Parked?
            && if p.ClaimLost? then
                 s'.queue == s.queue + [t] && forall u: Tid :: At(s', u).Parked? <==> At(s, u).Parked? || u == t
               else if (p.Waking? || p.Rewaking?) && s.queue != [] then
                 s'.queue == s.queue[1..]
                 && forall u: Tid :: At(s', u).Parked? <==> At(s, u).Parked? && u != s.queue[0]
               else
                 s'.queue == s.queue && forall u: Tid :: At(s', u).Parked? <==> At(s, u).Parked?
  {
  }

  lemma StepQueue(s: State, t: Tid, c: Who, l: Who)
    requires InvWith(s, c, l) && Enabled(s, t)
    ensures QueueOk(Next(s, t))
  {
    hide WordOk, CarrierIs, SectionIs;
    var s' := Next(s, t);
    QueueChange(s, t);
    hide Next, Enabled;
    if s.queue != [] { assert s.queue == [s.queue[0]] + s.queue[1..]; }
    forall u: Tid
      ensures u in s'.queue <==> At(s', u).Parked?
    {
      assert u in s.queue <==> At(s, u).Parked?;
      assert t in s.queue <==> At(s, t).Parked?;
    }
  }

  lemma StepCarrier(s: State, t: Tid, c: Who, l: Who)
    requires InvWith(s, c, l) && Enabled(s, t)
    ensures CarrierIs(Next(s, t), NextCarrier(s, t, c))
  {
    hide SectionIs;
    var s', c' := Next(s, t), NextCarrier(s, t, c);
    forall u: Tid
      ensures Carries(At(s', u)) <==> c' == Is(u)
    {
      assert Carries(At(s, u)) <==> c == Is(u);
      assert Carries(At(s, t)) <==> c == Is(t);
    }
  }

  lemma StepSection(s: State, t: Tid, c: Who, l: Who)
    requires InvWith(s, c, l) && Enabled(s, t)
    ensures SectionIs(Next(s, t), NextSection(s, t, l))
  {
    hide WordOk, CarrierIs;
    var s', l' := Next(s, t), NextSection(s, t, l);
    forall u: Tid
      ensures InSection(At(s', u)) <==> l' == Is(u)
    {
      assert InSection(At(s, u)) <==> l == Is(u);
      assert InSection(At(s, t)) <==> l == Is(t);
      if s.queue != [] { assert s.queue[0] in s.queue; }
    }
  }

  predicate Entering(p: Pc) {
    p.Outside? || p.Locking? || p.SawUnlocked? || p.Claiming? || p.ClaimWon? || p.ClaimLost?
  }

  lemma WordWhileEntering(s: State, t: Tid, c: Who, l: Who)
    requires InvWith(s, c, l) && Enabled(s, t) && Entering(At(s, t))
    ensures WordOk(Next(s, t), NextCarrier(s, t, c), NextSection(s, t, l))
  {
    assert Carries(At(s, t)) <==> c == Is(t);
    assert InSection(At(s, t)) <==> l == Is(t);
    assert c.Is? ==> Carries(At(s, c.t));
    assert l.Is? ==> InSection(At(s, l.t));
    hide QueueOk, CarrierIs, SectionIs;
  }

  lemma WordWhileLeaving(s: State, t: Tid, c: Who, l: Who)
    requires InvWith(s, c, l) && Enabled(s, t) && !Entering(At(s, t))
    ensures WordOk(Next(s, t), NextCarrier(s, t, c), NextSection(s, t, l))
  {
    assert c == Is(t) by { assert Carries(At(s, t)); }
    assert InSection(At(s, t)) <==> l == Is(t);
    if l.Is? { assert InSection(At(s, l.t)); }
    if s.queue != [] { assert s.queue[0] in s.queue; }
  }

  lemma StepInv(s: State, t: Tid)
    requires Inv(s) && Enabled(s, t)
    ensures Inv(Next(s, t))
  {
    var c: Who, l: Who :| InvWith(s, c, l);
    StepQueue(s, t, c, l);
    StepCarrier(s, t, c, l);
    StepSection(s, t, c, l);
    if Entering(At(s, t)) { WordWhileEntering(s, t, c, l); } else { WordWhileLeaving(s, t, c, l); }
    assert InvWith(Next(s, t), NextCarrier(s, t, c), NextSection(s, t, l));
  }

  /** Every state of every run satisfies the invariant. */
  lemma {:induction false} RunInv(r: seq<State>, i: nat)
    requires Run(r) && i < |r|
    ensures Inv(r[i])
    decreases i
  {
    if i == 0 {
      InitInv();
    } else {
      RunInv(r, i - 1);
      assert Step(r[i - 1], r[i]);
      var t: Tid :| Enabled(r[i - 1], t) && r[i] == Next(r[i - 1], t);
      StepInv(r[i - 1], t);
    }
  }

  // ---- what follows for every run ----

  /** At most one thread owns the mutex, and none does while it is being passed on. */
  lemma MutualExclusion(r: seq<State>, i: nat, t: Tid, u: Tid)
    requires Run(r) && i < |r| && Carries(At(r[i], t)) && Carries(At(r[i], u))
    ensures t == u
  {
    RunInv(r, i);
    var c: Who, l: Who :| InvWith(r[i], c, l);
    assert c == Is(t) && c == Is(u);
  }

  /** Nobody is queued while the word says there are no waiters, and whenever somebody is queued there is a thread
      that owns the mutex or is passing it on. */
  lemma NoStrandedWaiter(r: seq<State>, i: nat)
    requires Run(r) && i < |r|
    ensures r[i].word == Unlocked || r[i].word == Locked ==> r[i].queue == []
    ensures r[i].queue != [] ==> exists t: Tid :: Carries(At(r[i], t))
    ensures r[i].word == Unlocked <==> forall t: Tid :: !Carries(At(r[i], t))
  {
    RunInv(r, i);
    var c: Who, l: Who :| InvWith(r[i], c, l);
    if c.Is? { assert Carries(At(r[i], c.t)); }
  }

  /** The threads never block each other for good: while somebody is queued, the thread in charge of the mutex, or
      the one inside the wait-list lock, can take a step. */
  lemma NoDeadlock(r: seq<State>, i: nat)
    requires Run(r) && i < |r| && r[i].queue != []
    ensures exists t: Tid :: Enabled(r[i], t) && (Carries(At(r[i], t)) || InSection(At(r[i], t)))
  {
    var s := r[i];
    RunInv(r, i);
    var c: Who, l: Who :| InvWith(s, c, l);
    if l.Is? {
      assert InSection(At(s, l.t));
      assert Enabled(s, l.t);
    } else {
      assert Carries(At(s, c.t));
      assert Enabled(s, c.t);
    }
  }

  /** While threads are queued, the only one that can come into the mutex is the first of them. */
  lemma NoBarging(r: seq<State>, i: nat, t: Tid, u: Tid)
    requires Run(r) && i < |r| && Enabled(r[i], t) && r[i].queue != []
    requires !Carries(At(r[i], u)) && Carries(At(Next(r[i], t), u))
    ensures u == r[i].queue[0] && Next(r[i], t).queue == r[i].queue[1..]
  {
    RunInv(r, i);
    var c: Who, l: Who :| InvWith(r[i], c, l);
    assert Carries(At(r[i], t)) <==> c == Is(t);
  }

  /** If the second compare-exchange of an unlock fails then the word is LOCKED_WAITERS, and the wakeup that follows
      finds a waiter and hands the mutex to it. */
  lemma SecondWakeup(r: seq<State>, i: nat, t: Tid)
    requires Run(r) && i < |r|
    ensures At(r[i], t).Releasing? && r[i].word != UnlockedWaiters ==> r[i].word == LockedWaiters
    ensures At(r[i], t).Rewaking? && Enabled(r[i], t) ==>
              r[i].queue != [] && Next(r[i], t).queue == r[i].queue[1..] && At(Next(r[i], t), r[i].queue[0]).Woken?
  {
    RunInv(r, i);
    var s := r[i];
    var c: Who, l: Who :| InvWith(s, c, l);
    assert Carries(At(s, t)) <==> c == Is(t);
    if l.Is? { assert InSection(At(s, l.t)); }
    if s.queue != [] {
      assert s.queue[0] in s.queue;
    }
  }

  lemma InvQueue(s: State)
    requires Inv(s)
    ensures QueueOk(s)
  {
  }

  lemma QueueMoves(s: State, t: Tid)
    requires QueueOk(s) && Enabled(s, t)
    ensures NoDup(s.queue) && QueueStep(s.queue, Next(s, t).queue)
  {
    QueueChange(s, t);
    hide Next, Enabled;
    var q, q' := s.queue, Next(s, t).queue;
    if q != [] { assert q[1..] == RemoveAt(q, 0); }
    assert t in q <==> At(s, t).Parked?;
  }

  /** Hand-over is first come, first served: as long as a waiter stays queued, nobody who was behind it or came later
      gets ahead of it. */
  lemma Fifo(r: seq<State>, i: nat, j: nat, t: Tid, u: Tid)
    requires Run(r) && i <= j < |r| && t != u && u in r[j].queue
    requires forall k | i <= k <= j :: t in r[k].queue
    requires u in r[i].queue ==> Ahead(r[i].queue, t, u)
    ensures Ahead(r[j].queue, t, u)
  {
    hide Inv, Ahead, Next, Enabled, QueueOk, QueueStep, NoDup;
    var qs := seq(|r|, k requires 0 <= k < |r| => r[k].queue);
    forall k: nat | k + 1 < |qs|
      ensures StepAt(qs, k)
    {
      RunInv(r, k);
      InvQueue(r[k]);
      assert Step(r[k], r[k + 1]);
      var x: Tid :| Enabled(r[k], x) && r[k + 1] == Next(r[k], x);
      QueueMoves(r[k], x);
    }
    FirstComeFirst(qs, i, j, t, u);
  }

  // ---- every call comes to an end ----

  /** How far a thread is from the end of its call. */
  function ToGo(p: Pc): nat {
    match p
    case Outside => 0
    case Locking => 12
    case SawUnlocked => 11
    case Claiming => 10
    case ClaimLost => 9
    case Parked => 8
    case ClaimWon => 8
    case Woken => 7
    case Holding => 6
    case Unlocking => 5
    case Reserving => 4
    case Waking => 3
    case Releasing => 2
    case Rewaking => 1
  }

  /** A step of a thread inside a call brings it closer to the end. */
  lemma OwnStepAdvances(s: State, t: Tid)
    requires Inv(s) && Enabled(s, t) && !At(s, t).Outside?
    ensures ToGo(At(Next(s, t), t)) < ToGo(At(s, t))
  {
    hide Inv;
  }

  /** No step takes another thread back. */
  lemma OthersKeep(s: State, t: Tid, u: Tid)
    requires Inv(s) && Enabled(s, t) && u != t
    ensures ToGo(At(Next(s, t), u)) <= ToGo(At(s, u))
  {
    InvQueue(s);
    hide Inv;
    if s.queue != [] { assert s.queue[0] in s.queue; }
  }

  /** The states of a run with the threads that take its steps. */
  ghost predicate Taken(r: seq<State>, ts: seq<Tid>) {
    && Run(r) && |r| == |ts| + 1
    && forall i: nat | i < |ts| :: StepOf(r[i], ts[i], r[i + 1])
  }

  predicate StepOf(s: State, t: Tid, s': State) { Enabled(s, t) && s' == Next(s, t) }

  function StepsOf(ts: seq<Tid>, t: Tid, i: nat, j: nat): nat
    requires i <= j <= |ts|
    decreases j
  {
    if i == j then 0 else StepsOf(ts, t, i, j - 1) + if ts[j - 1] == t then 1 else 0
  }

  /** In any run a thread takes at most twelve steps from the time it asks for the mutex to the time it has given it
      back, however many others run in between. */
  lemma {:induction false} FewSteps(r: seq<State>, ts: seq<Tid>, t: Tid, i: nat, j: nat)
    requires Taken(r, ts) && i <= j <= |ts| && forall k | i <= k < j :: !At(r[k], t).Outside?
    ensures StepsOf(ts, t, i, j) + ToGo(At(r[j], t)) <= ToGo(At(r[i], t)) <= 12
    decreases j
  {
    hide Inv, Next, Enabled;
    if i < j {
      FewSteps(r, ts, t, i, j - 1);
      RunInv(r, j - 1);
      assert StepOf(r[j - 1], ts[j - 1], r[j]);
      if ts[j - 1] == t { OwnStepAdvances(r[j - 1], t); } else { OthersKeep(r[j - 1], ts[j - 1], t); }
    }
  }

  /** A thread that is done with the mutex while others are queued has passed it on to the first of them. */
  lemma PassesOn(r: seq<State>, i: nat, t: Tid)
    requires Run(r) && i < |r| && Enabled(r[i], t) && r[i].queue != []
    requires Carries(At(r[i], t)) && !Carries(At(Next(r[i], t), t))
    ensures At(Next(r[i], t), r[i].queue[0]).Woken? && Next(r[i], t).queue == r[i].queue[1..]
  {
    RunInv(r, i);
    var s := r[i];
    var c: Who, l: Who :| InvWith(s, c, l);
    assert c == Is(t);
    assert s.queue[0] in s.queue;
  }

  // ---- without contention ----

  /** Thread `t` takes `n` steps alone. */
  function Alone(s: State, t: Tid, n: nat): State
    decreases n
  {
    if n == 0 || !Enabled(s, t) then s else Alone(Next(s, t), t, n - 1)
  }

  /** The steps of a thread alone until it holds an unlocked mutex. */
  function UntilHeld(p: Pc): nat {
    match p
    case Outside => 3
    case Locking => 2
    case SawUnlocked => 1
    case Claiming => 2
    case _ => 0
  }

  /** A thread that finds the mutex unlocked takes it without the wait list, and a thread that had seen it locked but
      then finds it unlocked takes it back off the wait list: in either case the word says that nobody waits. Unlocking
      then takes one exchange and leaves all as it was. */
  lemma Uncontended(s: State, t: Tid)
    requires Inv(s) && s.word == Unlocked && s.waitLock == {} && UntilHeld(At(s, t)) > 0
    ensures var s' := Alone(s, t, UntilHeld(At(s, t)));
            && At(s', t) == Holding && s' == Go(s.(word := Locked), t, Holding)
            && Alone(s', t, 2) == Go(s, t, Outside)
  {
    NoneQueued(s);
    AloneLocks(s, t);
    AloneUnlocks(s, t);
  }

  lemma NoneQueued(s: State)
    requires Inv(s) && s.word == Unlocked
    ensures s.queue == []
  {
    var c: Who, l: Who :| InvWith(s, c, l);
    hide QueueOk, CarrierIs, SectionIs;
  }

  lemma AloneLocks(s: State, t: Tid)
    requires s.queue == [] && s.word == Unlocked && s.waitLock == {} && UntilHeld(At(s, t)) > 0
    ensures Alone(s, t, UntilHeld(At(s, t))) == Go(s.(word := Locked), t, Holding)
  {
    Unroll(s, t, UntilHeld(At(s, t)));
    hide Alone;
  }

  lemma AloneUnlocks(s: State, t: Tid)
    requires s.word == Unlocked
    ensures Alone(Go(s.(word := Locked), t, Holding), t, 2) == Go(s, t, Outside)
  {
    Unroll(Go(s.(word := Locked), t, Holding), t, 2);
    hide Alone;
  }

  lemma Unroll(s: State, t: Tid, n: nat)
    requires 0 < n <= 3 && Enabled(s, t)
    ensures n == 1 ==> Alone(s, t, n) == Next(s, t)
    ensures n == 2 && Enabled(Next(s, t), t) ==> Alone(s, t, n) == Next(Next(s, t), t)
    ensures n == 3 && Enabled(Next(s, t), t) && Enabled(Next(Next(s, t), t), t) ==>
              Alone(s, t, n) == Next(Next(Next(s, t), t), t)
  {
    hide Next, Enabled;
    assert n >= 2 && Enabled(Next(s, t), t) ==> Alone(Next(s, t), t, n - 1) == Alone(Next(Next(s, t), t), t, n - 2);
  }

  /** A thread that finds the mutex taken goes to the wait list at once. */
  lemma Contended(s: State, t: Tid)
    requires s.word != Unlocked && At(s, t).Locking?
    ensures Next(s, t) == Go(s, t, Claiming)
  {
  }
}
