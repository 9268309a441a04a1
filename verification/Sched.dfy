/** Blocking, waking and switching threads, as a system of interleaved steps of any number of threads and CPUs. */
module Scheduling {
  import opened Lists

  type Tid = nat
  type Cpu = nat
  type Object = nat
  type Agent = nat

  datatype ThreadState = Running | Runable | Blocking | Blocked | Idle

  /** What a thread waits for: a waitable object, a timeout, or both. */
  datatype Wait = OnObject(obj: Object, timed: bool) | OnTimeout

  predicate Timed(w: Wait) { w.OnTimeout? || w.timed }

  /** Where a thread is in `wait_impl`. */
  datatype Pc =
    | Normal
    | Entering(w: Wait)    // state is BLOCKING, preemption off; about to look at the condition
    | Met(w: Wait)         // the condition was met; about to store RUNNING
    | Arming(w: Wait)      // the token is queued; about to insert into the timeouts
    | Registered(w: Wait)  // preemption on again; about to call schedule
    | Away(w: Wait)        // inside schedule
    | Disarming(w: Wait)   // resumed; about to leave the timeouts
    | Untokening(w: Wait)  // about to leave the object's list

  /** Where a CPU is in `schedule` and `schedule_finalize`. */
  datatype CpuPc =
    | Exec
    | Popped(next: Tid)
    | Switched(prev: Tid)
    | Loaded(prev: Tid, seen: ThreadState)

  /** A waker, in `sched_wakeup_n_threads` or `sched_handle_timeouts`: it takes a thread off a list, then exchanges
      the thread's state, then queues the thread. */
  datatype AgentPc = Free | Got(t: Tid) | Put(t: Tid)

  /** What a wait returns. */
  datatype Status = ConditionMet | Woken | TimedOut

  /** `status` is what the last wait of a thread returned, or, once it is Untokening, what it would return as yet. */
  datatype State = State(
    st: map<Tid, ThreadState>, pc: map<Tid, Pc>, status: map<Tid, Status>,
    cur: map<Cpu, Tid>, queue: map<Cpu, seq<Tid>>, cpc: map<Cpu, CpuPc>, idle: map<Cpu, Tid>,
    tokens: map<Object, seq<Tid>>, timeouts: set<Tid>, agents: map<Agent, AgentPc>)

  function TokensOf(s: State, o: Object): seq<Tid> { if o in s.tokens then s.tokens[o] else [] }

  function AgentAt(s: State, a: Agent): AgentPc { if a in s.agents then s.agents[a] else Free }

  // ---- steps ----

  datatype ThreadMove =
    | BeginWait(w: Wait) | FindMet | PushToken | SkipObject | StoreRunning | Arm | Resume | Disarm | Untoken

  datatype CpuMove =
    | Schedule   // the thread calls schedule from wait_impl
    | Preempt    // an interrupt calls schedule
    | Install | Load | Commit

  datatype WakeMove = PopToken(o: Object) | PopTimeout(t: Tid) | Exchange | Enqueue(c: Cpu)

  datatype Label =
    | ThreadStep(c: Cpu, move: ThreadMove)
    | CpuStep(c: Cpu, go: CpuMove)
    | WakeStep(a: Agent, wake: WakeMove)

  predicate Cpus(s: State, c: Cpu) { c in s.cur && c in s.queue && c in s.cpc && c in s.idle }

  /** CPU `c` is executing the code of a thread that is not its idle thread. */
  predicate Executing(s: State, c: Cpu) {
    Cpus(s, c) && s.cpc[c].Exec? && s.cur[c] != s.idle[c] && s.cur[c] in s.pc && s.cur[c] in s.st
  }

  predicate Preemptible(p: Pc) { !p.Entering? && !p.Met? && !p.Arming? && !p.Away? }

  predicate CanMove(p: Pc, m: ThreadMove) {
    match m
    case BeginWait(_) => p.Normal?
    case FindMet => p.Entering? && p.w.OnObject?
    case PushToken => p.Entering? && p.w.OnObject?
    case SkipObject => p.Entering? && p.w.OnTimeout?
    case StoreRunning => p.Met?
    case Arm => p.Arming?
    case Resume => p.Away?
    case Disarm => p.Disarming?
    case Untoken => p.Untokening?
  }

  function NewPc(p: Pc, m: ThreadMove): Pc
    requires CanMove(p, m)
  {
    match m
    case BeginWait(w) => Entering(w)
    case FindMet => Met(p.w)
    case PushToken => Arming(p.w)
    case SkipObject => Arming(p.w)
    case StoreRunning => Normal
    case Arm => Registered(p.w)
    case Resume => Disarming(p.w)
    case Disarm => Untokening(p.w)
    case Untoken => Normal
  }

  function NewState(x: ThreadState, m: ThreadMove): ThreadState {
    if m.BeginWait? then Blocking else if m.StoreRunning? then Running else x
  }

  function Remove(q: seq<Tid>, t: Tid): seq<Tid> {
    if q == [] then [] else if q[0] == t then q[1..] else [q[0]] + Remove(q[1..], t)
  }

  function NewTokens(s: State, t: Tid, p: Pc, m: ThreadMove): map<Object, seq<Tid>>
    requires CanMove(p, m)
  {
    if m.PushToken? then s.tokens[p.w.obj := TokensOf(s, p.w.obj) + [t]]
    else if m.Untoken? && p.w.OnObject? then s.tokens[p.w.obj := Remove(TokensOf(s, p.w.obj), t)]
    else s.tokens
  }

  function NewTimeouts(s: State, t: Tid, p: Pc, m: ThreadMove): set<Tid>
    requires CanMove(p, m)
  {
    if m.Arm? && Timed(p.w) then s.timeouts + {t} else if m.Disarm? && Timed(p.w) then s.timeouts - {t} else s.timeouts
  }

  /** A thread that finds itself gone from the timeouts has timed out; but if it waits on an object, it has timed out
      if it finds itself still on the object's list. */
  function NewStatus(s: State, t: Tid, p: Pc, m: ThreadMove): map<Tid, Status>
    requires CanMove(p, m)
  {
    if m.StoreRunning? then s.status[t := ConditionMet]
    else if m.Disarm? then s.status[t := if Timed(p.w) && t !in s.timeouts then TimedOut else Woken]
    else if m.Untoken? && p.w.OnObject? then s.status[t := if t in TokensOf(s, p.w.obj) then TimedOut else Woken]
    else s.status
  }

  /** A step of `wait_impl` by the thread on CPU `c`. */
  function ThreadNext(s: State, c: Cpu, m: ThreadMove): State
    requires Executing(s, c) && CanMove(s.pc[s.cur[c]], m)
  {
    var t := s.cur[c];
    var p := s.pc[t];
    s.(st := s.st[t := NewState(s.st[t], m)], pc := s.pc[t := NewPc(p, m)], status := NewStatus(s, t, p, m),
       tokens := NewTokens(s, t, p, m), timeouts := NewTimeouts(s, t, p, m))
  }

  predicate CanSwitch(s: State, c: Cpu, m: CpuMove) {
    && Cpus(s, c)
    && match m
       case Schedule => Executing(s, c) && s.pc[s.cur[c]].Registered?
       case Preempt =>
         s.cpc[c].Exec? && (s.cur[c] == s.idle[c] || (Executing(s, c) && Preemptible(s.pc[s.cur[c]])))
       case Install => s.cpc[c].Popped? && s.cpc[c].next in s.st
       case Load => s.cpc[c].Switched? && s.cpc[c].prev in s.st
       case Commit => s.cpc[c].Loaded? && s.cpc[c].prev in s.st
  }

  /** Picks the next thread: the head of the run queue, or the idle thread; an idling CPU with an empty queue stays. */
  function PickNext(s: State, c: Cpu): State
    requires Cpus(s, c)
  {
    if s.queue[c] == [] then
      if s.cur[c] == s.idle[c] then s else s.(cpc := s.cpc[c := Popped(s.idle[c])])
    else s.(cpc := s.cpc[c := Popped(s.queue[c][0])], queue := s.queue[c := s.queue[c][1..]])
  }

  /** The thread that was switched away from, its state having been read as `seen` and being `now`, goes back to the run
      queue: it was running, or it was woken before it could be committed as blocked. A `seen` of BLOCKED is the panic,
      which `NoPanic` shows is never reached. */
  predicate Requeues(seen: ThreadState, now: ThreadState) {
    seen == Running || ((seen == Blocking || seen == Runable) && now != Blocking)
  }

  function Settled(seen: ThreadState, now: ThreadState): ThreadState {
    if seen == Running then Runable
    else if (seen == Blocking || seen == Runable) && now == Blocking then Blocked
    else now
  }

  function CommitPrev(s: State, c: Cpu): State
    requires CanSwitch(s, c, Commit)
  {
    var prev, seen := s.cpc[c].prev, s.cpc[c].seen;
    s.(cpc := s.cpc[c := Exec], st := s.st[prev := Settled(seen, s.st[prev])],
       queue := if Requeues(seen, s.st[prev]) then s.queue[c := s.queue[c] + [prev]] else s.queue)
  }

  /** A step of `schedule` or `schedule_finalize` on CPU `c`. */
  function CpuNext(s: State, c: Cpu, m: CpuMove): State
    requires CanSwitch(s, c, m)
  {
    match m
    case Schedule => PickNext(s.(pc := s.pc[s.cur[c] := Away(s.pc[s.cur[c]].w)]), c)
    case Preempt => PickNext(s, c)
    case Install =>
      var prev, next := s.cur[c], s.cpc[c].next;
      s.(cur := s.cur[c := next], cpc := s.cpc[c := Switched(prev)],
         st := if s.st[next] == Idle then s.st else s.st[next := Running])
    case Load => s.(cpc := s.cpc[c := Loaded(s.cpc[c].prev, s.st[s.cpc[c].prev])])
    case Commit => CommitPrev(s, c)
  }

  predicate CanWake(s: State, a: Agent, m: WakeMove) {
    match m
    case PopToken(o) => AgentAt(s, a).Free? && TokensOf(s, o) != []
    case PopTimeout(t) => AgentAt(s, a).Free? && t in s.timeouts
    case Exchange => AgentAt(s, a).Got? && AgentAt(s, a).t in s.st
    case Enqueue(c) => AgentAt(s, a).Put? && Cpus(s, c)
  }

  /** A step of a waker. */
  function WakeNext(s: State, a: Agent, m: WakeMove): State
    requires CanWake(s, a, m)
  {
    match m
    case PopToken(o) =>
      s.(tokens := s.tokens[o := TokensOf(s, o)[1..]], agents := s.agents[a := Got(TokensOf(s, o)[0])])
    case PopTimeout(t) => s.(timeouts := s.timeouts - {t}, agents := s.agents[a := Got(t)])
    case Exchange =>
      var t := AgentAt(s, a).t;
      s.(st := s.st[t := Runable], agents := s.agents[a := if s.st[t] == Blocked then Put(t) else Free])
    case Enqueue(c) => s.(queue := s.queue[c := s.queue[c] + [AgentAt(s, a).t]], agents := s.agents[a := Free])
  }

  predicate Enabled(s: State, l: Label) {
    match l
    case ThreadStep(c, m) => Executing(s, c) && CanMove(s.pc[s.cur[c]], m)
    case CpuStep(c, m) => CanSwitch(s, c, m)
    case WakeStep(a, m) => CanWake(s, a, m)
  }

  function Next(s: State, l: Label): State
    requires Enabled(s, l)
  {
    match l
    case ThreadStep(c, m) => ThreadNext(s, c, m)
    case CpuStep(c, m) => CpuNext(s, c, m)
    case WakeStep(a, m) => WakeNext(s, a, m)
  }

  ghost predicate Step(s: State, s': State) { exists l: Label :: Enabled(s, l) && s' == Next(s, l) }

  // ---- the invariant ----

  /** Where a live thread is. */
  datatype Place = OnCpu(c: Cpu) | Incoming(c: Cpu) | Leaving(c: Cpu) | Queued(c: Cpu) | Parked | Carried(a: Agent)

  type Places = map<Tid, Place>

  predicate Waits(p: Pc) { p.Registered? || p.Away? }

  /** Thread `t` can still be woken: it is on its object's list, among the timeouts, or in a waker's hand. */
  ghost predicate Sourced(s: State, t: Tid) {
    (exists o: Object :: t in TokensOf(s, o)) || t in s.timeouts || exists a: Agent :: AgentAt(s, a) == Got(t)
  }

  predicate StateFits(x: ThreadState, p: Pc) {
    match x
    case Running => true
    case Runable => true
    case Blocking => p.Entering? || p.Met? || p.Arming? || Waits(p)
    case Blocked => Waits(p)
    case Idle => false
  }

  /** The thread may be blocked for as long as nobody wakes it. */
  predicate MaySleep(x: ThreadState, p: Pc) {
    (x == Blocking || x == Blocked) && (Waits(p) || (p.Arming? && p.w.OnObject?))
  }

  ghost predicate PlaceFits(s: State, t: Tid, p: Place)
    requires t in s.st && t in s.pc
  {
    match p
    case OnCpu(c) =>
      && Cpus(s, c) && s.cur[c] == t && s.st[t] != Blocked
      && (s.pc[t].Away? && s.st[t] == Blocking ==> s.cpc[c].Popped?)
      && (s.cpc[c].Popped? ==> Preemptible(s.pc[t]) || s.pc[t].Away?)
    case Incoming(c) => Cpus(s, c) && s.cpc[c] == Popped(t) && s.st[t] == Runable
    case Leaving(c) =>
      Cpus(s, c) && (s.cpc[c].Switched? || s.cpc[c].Loaded?) && s.cpc[c].prev == t && s.st[t] != Blocked
    case Queued(c) => Cpus(s, c) && t in s.queue[c] && s.st[t] == Runable
    case Parked => s.st[t] == Blocked
    case Carried(a) => AgentAt(s, a) == Put(t) && s.st[t] == Runable
  }

  ghost predicate ThreadOk(s: State, P: Places, t: Tid) {
    && t in P && t in s.st && t in s.pc && StateFits(s.st[t], s.pc[t]) && PlaceFits(s, t, P[t])
    && (s.pc[t].Entering? || s.pc[t].Met? || s.pc[t].Arming? ==> P[t].OnCpu?)
    && (MaySleep(s.st[t], s.pc[t]) ==> Sourced(s, t))
  }

  /** A thread the CPU deals with is its idle thread or has the place that says so. */
  ghost predicate At(s: State, P: Places, c: Cpu, t: Tid, p: Place)
    requires Cpus(s, c)
  {
    if t == s.idle[c] then t in s.st && s.st[t] == Idle else t in P && P[t] == p
  }

  ghost predicate CpuOk(s: State, P: Places, c: Cpu) {
    && Cpus(s, c) && s.idle[c] !in P && At(s, P, c, s.cur[c], OnCpu(c))
    && s.idle[c] in s.st && s.st[s.idle[c]] == Idle
    && NoDup(s.queue[c]) && (forall t | t in s.queue[c] :: t in P && P[t] == Queued(c))
    && (match s.cpc[c]
        case Exec => true
        case Popped(n) => At(s, P, c, n, Incoming(c)) && n != s.cur[c]
        case Switched(p) => At(s, P, c, p, Leaving(c)) && p != s.cur[c]
        case Loaded(p, x) =>
          && At(s, P, c, p, Leaving(c)) && p != s.cur[c] && p in s.st
          && (if p == s.idle[c] then x == Idle
              else x != Blocked && x != Idle && (s.st[p] == x || s.st[p] == Runable)))
  }

  ghost predicate AgentOk(s: State, P: Places, a: Agent) {
    match AgentAt(s, a)
    case Free => true
    case Got(t) => t in P
    case Put(t) => t in P && P[t] == Carried(a)
  }

  predicate Tokened(p: Pc, o: Object) {
    (p.Arming? || p.Registered? || p.Away? || p.Disarming? || p.Untokening?) && p.w.OnObject? && p.w.obj == o
  }

  predicate Armed(p: Pc) { (p.Registered? || p.Away? || p.Disarming?) && Timed(p.w) }

  ghost predicate TokenOk(s: State, P: Places, o: Object) {
    NoDup(TokensOf(s, o)) && forall t | t in TokensOf(s, o) :: t in P && t in s.pc && Tokened(s.pc[t], o)
  }

  ghost predicate TimeoutOk(s: State, P: Places, t: Tid) { t in s.timeouts ==> t in P && t in s.pc && Armed(s.pc[t]) }

  ghost predicate InvWith(s: State, P: Places) {
    && (forall t: Tid | t in P :: ThreadOk(s, P, t))
    && (forall c: Cpu | c in s.cur :: CpuOk(s, P, c))
    && (forall a: Agent :: AgentOk(s, P, a))
    && (forall o: Object :: TokenOk(s, P, o))
    && (forall t: Tid :: TimeoutOk(s, P, t))
  }

  // ---- steps inside wait_impl ----

  /** Only thread `t`, its token and its timeout have changed. */
  ghost predicate OnlyThread(s: State, s': State, t: Tid) {
    && s'.cur == s.cur && s'.queue == s.queue && s'.cpc == s.cpc && s'.idle == s.idle && s'.agents == s.agents
    && t in s.st && t in s.pc && t in s'.st && t in s'.pc && s'.st == s.st[t := s'.st[t]]
    && s'.pc == s.pc[t := s'.pc[t]]
    && (forall o: Object, u: Tid | u != t :: u in TokensOf(s', o) <==> u in TokensOf(s, o))
    && (forall u: Tid | u != t :: u in s'.timeouts <==> u in s.timeouts)
  }

  lemma {:induction false} RemoveFacts(q: seq<Tid>, t: Tid)
    ensures forall x: Tid :: x != t ==> (x in Remove(q, t) <==> x in q)
    ensures t in Remove(q, t) ==> t in q
    ensures NoDup(q) ==> NoDup(Remove(q, t)) && t !in Remove(q, t)
  {
    if q != [] {
      var r := q[1..];
      RemoveFacts(r, t);
      assert q == [q[0]] + r;
      if NoDup(q) {
        assert NoDup(r) by { assert forall i | 0 <= i < |r| :: r[i] == q[i + 1]; }
        assert q[0] !in r;
        if q[0] != t {
          assert q[0] !in Remove(r, t);
          assert NoDup([q[0]] + Remove(r, t));
        }
      }
    }
  }

  lemma TokensMove(s: State, t: Tid, p: Pc, m: ThreadMove, o: Object)
    requires CanMove(p, m)
    ensures var q, q' := TokensOf(s, o), TokensOf(s.(tokens := NewTokens(s, t, p, m)), o);
            && (forall u: Tid | u != t :: u in q' <==> u in q)
            && (NoDup(q) && (m.PushToken? ==> t !in q) ==> NoDup(q'))
            && (t in q' ==> t in q || (m.PushToken? && o == p.w.obj))
            && (m.Untoken? && p.w.OnObject? && o == p.w.obj && NoDup(q) ==> t !in q')
            && (m.PushToken? && o == p.w.obj ==> t in q')
            && (!m.PushToken? && !m.Untoken? ==> q' == q)
  {
    if m.Untoken? && p.w.OnObject? { RemoveFacts(TokensOf(s, p.w.obj), t); }
  }

  lemma ThreadIsLocal(s: State, c: Cpu, m: ThreadMove)
    requires Executing(s, c) && CanMove(s.pc[s.cur[c]], m)
    ensures OnlyThread(s, ThreadNext(s, c, m), s.cur[c])
  {
    hide NewPc, NewState, NewTokens, Remove;
    var t, s' := s.cur[c], ThreadNext(s, c, m);
    forall o: Object, u: Tid | u != t
      ensures u in TokensOf(s', o) <==> u in TokensOf(s, o)
    {
      TokensMove(s, t, s.pc[t], m, o);
    }
  }

  lemma OtherThread(s: State, s': State, P: Places, t: Tid, u: Tid)
    requires OnlyThread(s, s', t) && ThreadOk(s, P, u) && u != t
    ensures ThreadOk(s', P, u)
  {
    if Sourced(s, u) {
      if o: Object :| u in TokensOf(s, o) {
        assert u in TokensOf(s', o);
      } else if a: Agent :| AgentAt(s, a) == Got(u) {
        assert AgentAt(s', a) == Got(u);
      }
      assert Sourced(s', u);
    }
  }

  lemma OtherParts(s: State, s': State, P: Places, t: Tid)
    requires OnlyThread(s, s', t) && InvWith(s, P) && t in P && P[t].OnCpu?
    ensures forall c: Cpu | c in s'.cur :: CpuOk(s', P, c)
    ensures forall a: Agent :: AgentOk(s', P, a)
  {
    forall c: Cpu | c in s'.cur
      ensures CpuOk(s', P, c)
    {
      assert CpuOk(s, P, c);
    }
    forall a: Agent
      ensures AgentOk(s', P, a)
    {
      assert AgentOk(s, P, a);
    }
  }

  lemma MoveFits(x: ThreadState, p: Pc, m: ThreadMove)
    requires StateFits(x, p) && CanMove(p, m) && x != Blocked && (p.Away? ==> x != Blocking)
    ensures var x', p' := NewState(x, m), NewPc(p, m);
            && StateFits(x', p') && x' != Blocked && !p'.Away?
            && (MaySleep(x', p') ==>
                  x == x' == Blocking && (m.PushToken? || (m.Arm? && (p.w.OnObject? ==> MaySleep(x, p)))))
  {
  }

  lemma OwnThread(s: State, P: Places, c: Cpu, m: ThreadMove)
    requires InvWith(s, P) && Executing(s, c) && CanMove(s.pc[s.cur[c]], m)
    ensures var t := s.cur[c]; t in P && P[t] == OnCpu(c) && ThreadOk(ThreadNext(s, c, m), P, t)
  {
    var t := s.cur[c];
    assert CpuOk(s, P, c);
    assert ThreadOk(s, P, t);
    hide InvWith, CpuOk, NewTokens, NewPc, NewState, NewTimeouts, StateFits, CanMove, MaySleep, Sourced;
    MoveFits(s.st[t], s.pc[t], m);
    if MaySleep(NewState(s.st[t], m), NewPc(s.pc[t], m)) { NowSourced(s, c, m); }
  }

  lemma NowSourced(s: State, c: Cpu, m: ThreadMove)
    requires Executing(s, c) && CanMove(s.pc[s.cur[c]], m) && (m.PushToken? || m.Arm?)
    requires m.Arm? && s.pc[s.cur[c]].w.OnObject? && s.st[s.cur[c]] == Blocking ==> Sourced(s, s.cur[c])
    ensures s.st[s.cur[c]] == Blocking ==> Sourced(ThreadNext(s, c, m), s.cur[c])
  {
    var t, s' := s.cur[c], ThreadNext(s, c, m);
    var w := s.pc[t].w;
    if m.PushToken? {
      TokensMove(s, t, s.pc[t], m, w.obj);
      assert t in TokensOf(s', w.obj);
    } else if w.OnObject? && Sourced(s, t) {
      if o: Object :| t in TokensOf(s, o) {
        assert t in TokensOf(s', o);
      } else if a: Agent :| AgentAt(s, a) == Got(t) {
        assert AgentAt(s', a) == Got(t);
      }
    }
  }

  lemma TokenedMoves(p: Pc, m: ThreadMove, o: Object)
    requires CanMove(p, m)
    ensures Tokened(p, o) && !m.Untoken? ==> Tokened(NewPc(p, m), o)
    ensures m.PushToken? ==> Tokened(NewPc(p, m), p.w.obj) && !Tokened(p, o)
    ensures Tokened(p, o) && m.Untoken? ==> p.w.OnObject? && o == p.w.obj
  {
  }

  lemma OwnTokens(s: State, P: Places, c: Cpu, m: ThreadMove, o: Object)
    requires InvWith(s, P) && Executing(s, c) && CanMove(s.pc[s.cur[c]], m)
    ensures TokenOk(ThreadNext(s, c, m), P, o)
  {
    var t, s' := s.cur[c], ThreadNext(s, c, m);
    assert t in P by { assert CpuOk(s, P, c); }
    assert TokenOk(s, P, o);
    hide InvWith, NewTokens, NoDup, NewPc, NewState, NewTimeouts, CanMove, Tokened;
    assert TokensOf(s', o) == TokensOf(s.(tokens := NewTokens(s, t, s.pc[t], m)), o);
    TokensMove(s, t, s.pc[t], m, o);
    TokenedMoves(s.pc[t], m, o);
  }

  lemma OwnTimeout(s: State, P: Places, c: Cpu, m: ThreadMove, u: Tid)
    requires InvWith(s, P) && Executing(s, c) && CanMove(s.pc[s.cur[c]], m)
    ensures TimeoutOk(ThreadNext(s, c, m), P, u)
  {
    assert CpuOk(s, P, c);
    assert TimeoutOk(s, P, u);
    hide InvWith, CpuOk, NewTokens;
  }

  lemma ThreadInv(s: State, P: Places, c: Cpu, m: ThreadMove)
    requires InvWith(s, P) && Executing(s, c) && CanMove(s.pc[s.cur[c]], m)
    ensures InvWith(ThreadNext(s, c, m), P)
  {
    var t, s' := s.cur[c], ThreadNext(s, c, m);
    OwnThread(s, P, c, m);
    ThreadIsLocal(s, c, m);
    OtherParts(s, s', P, t);
    hide ThreadOk, CpuOk, AgentOk, TokenOk, TimeoutOk, OnlyThread, ThreadNext;
    forall u: Tid | u in P
      ensures ThreadOk(s', P, u)
    {
      if u != t { OtherThread(s, s', P, t, u); }
    }
    forall o: Object
      ensures TokenOk(s', P, o)
    {
      OwnTokens(s, P, c, m, o);
    }
    forall u: Tid
      ensures TimeoutOk(s', P, u)
    {
      OwnTimeout(s, P, c, m, u);
    }
  }

  // ---- steps of the wakers ----

  function WakePlaces(s: State, P: Places, a: Agent, m: WakeMove): Places
    requires CanWake(s, a, m)
  {
    match m
    case Exchange => if s.st[AgentAt(s, a).t] == Blocked then P[AgentAt(s, a).t := Carried(a)] else P
    case Enqueue(c) => P[AgentAt(s, a).t := Queued(c)]
    case _ => P
  }

  lemma WakeSourced(s: State, a: Agent, m: WakeMove, u: Tid)
    requires CanWake(s, a, m) && Sourced(s, u) && !(m.Exchange? && AgentAt(s, a).t == u)
    ensures Sourced(WakeNext(s, a, m), u)
  {
    var s' := WakeNext(s, a, m);
    if o: Object :| u in TokensOf(s, o) {
      if m.PopToken? && m.o == o && TokensOf(s, o)[0] == u {
        assert AgentAt(s', a) == Got(u);
      } else {
        if m.PopToken? && m.o == o { assert TokensOf(s, o) == [TokensOf(s, o)[0]] + TokensOf(s', o); }
        assert u in TokensOf(s', o);
      }
    } else if u in s.timeouts {
      if m == PopTimeout(u) { assert AgentAt(s', a) == Got(u); }
    } else {
      var b: Agent :| AgentAt(s, b) == Got(u);
      assert AgentAt(s', b) == Got(u);
    }
  }

  predicate Pops(m: WakeMove) { m.PopToken? || m.PopTimeout? }

  lemma PopThread(s: State, P: Places, a: Agent, m: WakeMove, u: Tid)
    requires ThreadOk(s, P, u) && CanWake(s, a, m) && Pops(m)
    ensures ThreadOk(WakeNext(s, a, m), P, u)
  {
    hide Sourced, MaySleep, StateFits;
    if MaySleep(s.st[u], s.pc[u]) { WakeSourced(s, a, m, u); }
  }

  lemma ExchangeThread(s: State, P: Places, a: Agent, u: Tid)
    requires ThreadOk(s, P, u) && CanWake(s, a, Exchange)
    ensures ThreadOk(WakeNext(s, a, Exchange), WakePlaces(s, P, a, Exchange), u)
  {
    hide Sourced;
    if MaySleep(s.st[u], s.pc[u]) && AgentAt(s, a).t != u { WakeSourced(s, a, Exchange, u); }
  }

  lemma EnqueueThread(s: State, P: Places, a: Agent, c: Cpu, u: Tid)
    requires ThreadOk(s, P, u) && CanWake(s, a, Enqueue(c)) && AgentOk(s, P, a)
    ensures ThreadOk(WakeNext(s, a, Enqueue(c)), WakePlaces(s, P, a, Enqueue(c)), u)
  {
    hide Sourced, MaySleep, StateFits;
    if MaySleep(s.st[u], s.pc[u]) { WakeSourced(s, a, Enqueue(c), u); }
  }

  lemma WakeThread(s: State, P: Places, a: Agent, m: WakeMove, u: Tid)
    requires InvWith(s, P) && CanWake(s, a, m) && u in P
    ensures ThreadOk(WakeNext(s, a, m), WakePlaces(s, P, a, m), u)
  {
    assert ThreadOk(s, P, u);
    assert AgentOk(s, P, a);
    hide InvWith, ThreadOk, AgentOk, WakeNext, CanWake;
    match m
    case PopToken(_) => PopThread(s, P, a, m, u);
    case PopTimeout(_) => PopThread(s, P, a, m, u);
    case Exchange => ExchangeThread(s, P, a, u);
    case Enqueue(c) => EnqueueThread(s, P, a, c, u);
  }

  lemma PopCpu(s: State, P: Places, a: Agent, m: WakeMove, c: Cpu)
    requires CpuOk(s, P, c) && CanWake(s, a, m) && Pops(m)
    ensures CpuOk(WakeNext(s, a, m), P, c)
  {
  }

  lemma ExchangeCpu(s: State, P: Places, a: Agent, c: Cpu)
    requires CpuOk(s, P, c) && CanWake(s, a, Exchange) && ThreadOk(s, P, AgentAt(s, a).t)
    ensures CpuOk(WakeNext(s, a, Exchange), WakePlaces(s, P, a, Exchange), c)
  {
    hide Sourced, MaySleep, StateFits, NoDup;
  }

  lemma EnqueueCpu(s: State, P: Places, a: Agent, d: Cpu, c: Cpu)
    requires CpuOk(s, P, c) && CanWake(s, a, Enqueue(d)) && AgentOk(s, P, a)
    ensures CpuOk(WakeNext(s, a, Enqueue(d)), WakePlaces(s, P, a, Enqueue(d)), c)
  {
    var t, s' := AgentAt(s, a).t, WakeNext(s, a, Enqueue(d));
    assert t !in s.queue[c];
    if c == d { Appended(s.queue[c], t); }
    hide NoDup;
  }

  lemma Appended(q: seq<Tid>, t: Tid)
    requires NoDup(q) && t !in q
    ensures NoDup(q + [t]) && forall x: Tid :: x in q + [t] <==> x in q || x == t
  {
  }

  lemma WakeCpu(s: State, P: Places, a: Agent, m: WakeMove, c: Cpu)
    requires InvWith(s, P) && CanWake(s, a, m) && c in s.cur
    ensures CpuOk(WakeNext(s, a, m), WakePlaces(s, P, a, m), c)
  {
    assert CpuOk(s, P, c);
    assert AgentOk(s, P, a);
    if m.Exchange? { assert ThreadOk(s, P, AgentAt(s, a).t); }
    hide InvWith, ThreadOk, AgentOk, CpuOk, WakeNext;
    match m
    case PopToken(_) => PopCpu(s, P, a, m, c);
    case PopTimeout(_) => PopCpu(s, P, a, m, c);
    case Exchange => ExchangeCpu(s, P, a, c);
    case Enqueue(d) => EnqueueCpu(s, P, a, d, c);
  }

  lemma WakeAgent(s: State, P: Places, a: Agent, m: WakeMove, b: Agent)
    requires InvWith(s, P) && CanWake(s, a, m)
    ensures AgentOk(WakeNext(s, a, m), WakePlaces(s, P, a, m), b)
  {
    assert AgentOk(s, P, a) && AgentOk(s, P, b);
    if m.Exchange? || m.Enqueue? { assert ThreadOk(s, P, AgentAt(s, a).t); }
    if m.PopToken? {
      assert TokenOk(s, P, m.o);
      assert TokensOf(s, m.o)[0] in TokensOf(s, m.o);
    }
    if m.PopTimeout? { assert TimeoutOk(s, P, m.t); }
  }

  lemma WakeLists(s: State, P: Places, a: Agent, m: WakeMove)
    requires InvWith(s, P) && CanWake(s, a, m)
    ensures forall o: Object :: TokenOk(WakeNext(s, a, m), WakePlaces(s, P, a, m), o)
    ensures forall u: Tid :: TimeoutOk(WakeNext(s, a, m), WakePlaces(s, P, a, m), u)
  {
    var s', P' := WakeNext(s, a, m), WakePlaces(s, P, a, m);
    forall o: Object
      ensures TokenOk(s', P', o)
    {
      assert TokenOk(s, P, o);
    }
    forall u: Tid
      ensures TimeoutOk(s', P', u)
    {
      assert TimeoutOk(s, P, u);
    }
  }

  lemma WakeInv(s: State, P: Places, a: Agent, m: WakeMove)
    requires InvWith(s, P) && CanWake(s, a, m)
    ensures InvWith(WakeNext(s, a, m), WakePlaces(s, P, a, m))
  {
    var s', P' := WakeNext(s, a, m), WakePlaces(s, P, a, m);
    assert s'.cur == s.cur;
    assert P'.Keys == P.Keys by { assert AgentOk(s, P, a); }
    WakeLists(s, P, a, m);
    hide *;
    forall u: Tid | u in P'
      ensures ThreadOk(s', P', u)
    {
      WakeThread(s, P, a, m, u);
    }
    forall c: Cpu | c in s'.cur
      ensures CpuOk(s', P', c)
    {
      WakeCpu(s, P, a, m, c);
    }
    forall b: Agent
      ensures AgentOk(s', P', b)
    {
      WakeAgent(s, P, a, m, b);
    }
    Assemble(s', P');
  }

  lemma Assemble(s: State, P: Places)
    requires forall t: Tid | t in P :: ThreadOk(s, P, t)
    requires forall c: Cpu | c in s.cur :: CpuOk(s, P, c)
    requires forall a: Agent :: AgentOk(s, P, a)
    requires forall o: Object :: TokenOk(s, P, o)
    requires forall t: Tid :: TimeoutOk(s, P, t)
    ensures InvWith(s, P)
  {
  }

  // ---- steps of the CPUs ----

  function CpuPlaces(s: State, P: Places, c: Cpu, m: CpuMove): Places
    requires CanSwitch(s, c, m)
  {
    match m
    case Schedule => if s.queue[c] == [] then P else P[s.queue[c][0] := Incoming(c)]
    case Preempt => if s.queue[c] == [] then P else P[s.queue[c][0] := Incoming(c)]
    case Install =>
      var prev, next := s.cur[c], s.cpc[c].next;
      var Q := if prev == s.idle[c] then P else P[prev := Leaving(c)];
      if next == s.idle[c] then Q else Q[next := OnCpu(c)]
    case Load => P
    case Commit =>
      var prev := s.cpc[c].prev;
      if prev == s.idle[c] then P
      else P[prev := if s.cpc[c].seen != Running && s.st[prev] == Blocking then Parked else Queued(c)]
  }

  predicate Picks(m: CpuMove) { m.Schedule? || m.Preempt? }

  /** Whether a thread can be woken does not depend on the CPUs. */
  lemma SameSources(s: State, s': State, u: Tid)
    requires s'.tokens == s.tokens && s'.timeouts == s.timeouts && s'.agents == s.agents
    ensures Sourced(s', u) <==> Sourced(s, u)
  {
    assert forall o: Object :: TokensOf(s', o) == TokensOf(s, o);
    assert forall a: Agent :: AgentAt(s', a) == AgentAt(s, a);
  }

  ghost predicate SameLists(s: State, s': State) {
    s'.tokens == s.tokens && s'.timeouts == s.timeouts && s'.agents == s.agents
  }

  /** A thread whose state and place are as before, and fit. */
  lemma SamePlace(s: State, s': State, P: Places, P': Places, u: Tid)
    requires ThreadOk(s, P, u) && u in P' && P'[u] == P[u] && SameLists(s, s')
    requires u in s'.st && u in s'.pc && s'.st[u] == s.st[u] && s'.pc[u] == s.pc[u] && PlaceFits(s', u, P[u])
    ensures ThreadOk(s', P', u)
  {
    SameSources(s, s', u);
    hide Sourced, PlaceFits, StateFits, MaySleep;
  }

  lemma InQueue(q: seq<Tid>)
    requires q != []
    ensures q[0] in q && forall u: Tid | u != q[0] :: u in q <==> u in q[1..]
    ensures NoDup(q) ==> NoDup(q[1..]) && q[0] !in q[1..]
  {
    assert q == [q[0]] + q[1..];
  }

  // picking the next thread

  lemma PickKeeps(s: State, c: Cpu)
    requires Cpus(s, c)
    ensures var s' := PickNext(s, c);
            && SameLists(s, s') && s'.st == s.st && s'.pc == s.pc && s'.cur == s.cur && s'.idle == s.idle
            && (forall d: Cpu | Cpus(s, d) && d != c ::
                  Cpus(s', d) && s'.cpc[d] == s.cpc[d] && s'.queue[d] == s.queue[d])
            && Cpus(s', c)
            && (s.queue[c] != [] ==> s'.cpc[c] == Popped(s.queue[c][0]) && s'.queue[c] == s.queue[c][1..])
            && (s.queue[c] == [] ==> s'.queue[c] == [])
            && (s.queue[c] == [] ==> s'.cpc[c] == if s.cur[c] == s.idle[c] then s.cpc[c] else Popped(s.idle[c]))
  {
  }

  function PickPlaces(s: State, P: Places, c: Cpu): Places
    requires Cpus(s, c)
  {
    if s.queue[c] == [] then P else P[s.queue[c][0] := Incoming(c)]
  }

  /** The CPU is about to pick: it executes, and its thread, if any, may be switched away. */
  ghost predicate MayPick(s: State, P: Places, c: Cpu) {
    && CpuOk(s, P, c) && s.cpc[c].Exec?
    && (s.cur[c] == s.idle[c] || (s.cur[c] in s.pc && (Preemptible(s.pc[s.cur[c]]) || s.pc[s.cur[c]].Away?)))
  }

  /** As `ThreadOk`, but that a thread inside schedule need not have picked yet. */
  ghost predicate AlmostOk(s: State, P: Places, c: Cpu, t: Tid) {
    && t in P && t in s.st && t in s.pc && StateFits(s.st[t], s.pc[t])
    && (s.pc[t].Entering? || s.pc[t].Met? || s.pc[t].Arming? ==> P[t].OnCpu?)
    && (MaySleep(s.st[t], s.pc[t]) ==> Sourced(s, t))
    && if P[t] == OnCpu(c) then Cpus(s, c) && s.cur[c] == t && s.st[t] != Blocked else PlaceFits(s, t, P[t])
  }

  lemma PickThread(s: State, P: Places, c: Cpu, u: Tid)
    requires MayPick(s, P, c) && AlmostOk(s, P, c, u)
    ensures ThreadOk(PickNext(s, c), PickPlaces(s, P, c), u)
  {
    var s', P' := PickNext(s, c), PickPlaces(s, P, c);
    PickKeeps(s, c);
    SameSources(s, s', u);
    if s.queue[c] != [] { InQueue(s.queue[c]); }
    hide Sourced, PickNext, NoDup, StateFits, MaySleep, Preemptible;
    assert PlaceFits(s', u, P'[u]);
  }

  lemma PickCpu(s: State, P: Places, c: Cpu, d: Cpu)
    requires MayPick(s, P, c) && CpuOk(s, P, d)
    ensures CpuOk(PickNext(s, c), PickPlaces(s, P, c), d)
  {
    PickKeeps(s, c);
    if s.queue[c] != [] { InQueue(s.queue[c]); }
    hide PickNext, NoDup, Preemptible;
  }

  /** Wakers and lists do not mind which CPU a thread is at. */
  lemma ListsKept(s: State, s': State, P: Places, P': Places)
    requires InvWith(s, P) && SameLists(s, s') && P'.Keys == P.Keys && s'.pc.Keys == s.pc.Keys
    requires forall t: Tid | t in P && P[t].Carried? :: P'[t] == P[t]
    requires forall t: Tid, o: Object | t in s.pc && Tokened(s.pc[t], o) :: Tokened(s'.pc[t], o)
    requires forall t: Tid | t in s.pc && Armed(s.pc[t]) :: Armed(s'.pc[t])
    ensures forall a: Agent :: AgentOk(s', P', a)
    ensures forall o: Object :: TokenOk(s', P', o)
    ensures forall t: Tid :: TimeoutOk(s', P', t)
  {
    forall a: Agent
      ensures AgentOk(s', P', a)
    {
      assert AgentOk(s, P, a);
    }
    forall o: Object
      ensures TokenOk(s', P', o)
    {
      assert TokenOk(s, P, o);
    }
    forall t: Tid
      ensures TimeoutOk(s', P', t)
    {
      assert TimeoutOk(s, P, t);
    }
  }

  /** The state in which the thread on CPU `c` is inside schedule, about to pick. */
  function Calls(s: State, c: Cpu, m: CpuMove): State
    requires CanSwitch(s, c, m)
  {
    if m.Schedule? then s.(pc := s.pc[s.cur[c] := Away(s.pc[s.cur[c]].w)]) else s
  }

  lemma CallsMayPick(s: State, P: Places, c: Cpu, m: CpuMove)
    requires CpuOk(s, P, c) && CanSwitch(s, c, m) && Picks(m)
    ensures MayPick(Calls(s, c, m), P, c) && CpuNext(s, c, m) == PickNext(Calls(s, c, m), c)
    ensures PickPlaces(Calls(s, c, m), P, c) == PickPlaces(s, P, c) && SameLists(s, Calls(s, c, m))
  {
    hide NoDup;
  }

  lemma CallsAlmostOk(s: State, P: Places, c: Cpu, m: CpuMove, u: Tid)
    requires CpuOk(s, P, c) && ThreadOk(s, P, u) && CanSwitch(s, c, m) && Picks(m)
    ensures AlmostOk(Calls(s, c, m), P, c, u)
  {
    SameSources(s, Calls(s, c, m), u);
    hide Sourced, NoDup;
  }

  lemma CallsCpu(s: State, P: Places, c: Cpu, m: CpuMove, d: Cpu)
    requires CpuOk(s, P, d) && CanSwitch(s, c, m)
    ensures CpuOk(Calls(s, c, m), P, d)
  {
    hide NoDup;
  }

  lemma PickMoves(s: State, P: Places, c: Cpu)
    requires CpuOk(s, P, c)
    ensures PickPlaces(s, P, c).Keys == P.Keys
    ensures forall t: Tid | t in P && P[t].Carried? :: PickPlaces(s, P, c)[t] == P[t]
  {
    if s.queue[c] != [] { InQueue(s.queue[c]); }
  }

  lemma CallsPcs(s: State, c: Cpu, m: CpuMove)
    requires CanSwitch(s, c, m)
    ensures var s1 := Calls(s, c, m);
            && s1.pc.Keys == s.pc.Keys
            && (forall t: Tid, o: Object | t in s.pc && Tokened(s.pc[t], o) :: Tokened(s1.pc[t], o))
            && (forall t: Tid | t in s.pc && Armed(s.pc[t]) :: Armed(s1.pc[t]))
            && s1.cur == s.cur
  {
  }

  lemma PickLists(s: State, P: Places, c: Cpu, m: CpuMove)
    requires InvWith(s, P) && CanSwitch(s, c, m) && Picks(m)
    ensures var s', P' := CpuNext(s, c, m), PickPlaces(s, P, c);
            && s'.cur == s.cur && P'.Keys == P.Keys
            && (forall a: Agent :: AgentOk(s', P', a)) && (forall o: Object :: TokenOk(s', P', o))
            && (forall t: Tid :: TimeoutOk(s', P', t))
  {
    assert CpuOk(s, P, c);
    var s1, s' := Calls(s, c, m), CpuNext(s, c, m);
    CallsMayPick(s, P, c, m);
    CallsPcs(s, c, m);
    hide PickNext, CpuNext, CpuOk, MayPick, Calls, PickPlaces, ThreadOk, AgentOk, TokenOk, TimeoutOk, Tokened, Armed;
    PickKeeps(s1, c);
    PickMoves(s, P, c);
    ListsKept(s, s', P, PickPlaces(s, P, c));
  }

  lemma PickInv(s: State, P: Places, c: Cpu, m: CpuMove)
    requires InvWith(s, P) && CanSwitch(s, c, m) && Picks(m)
    ensures InvWith(CpuNext(s, c, m), PickPlaces(s, P, c))
  {
    assert CpuOk(s, P, c);
    var s1, s', P' := Calls(s, c, m), CpuNext(s, c, m), PickPlaces(s, P, c);
    hide ThreadOk, CpuOk, AgentOk, TokenOk, TimeoutOk, PickNext, CpuNext, CanSwitch, AlmostOk, MayPick, PickPlaces;
    hide SameLists, Calls;
    CallsMayPick(s, P, c, m);
    PickLists(s, P, c, m);
    forall u: Tid | u in P'
      ensures ThreadOk(s', P', u)
    {
      CallsAlmostOk(s, P, c, m, u);
      PickThread(s1, P, c, u);
    }
    forall d: Cpu | d in s'.cur
      ensures CpuOk(s', P', d)
    {
      CallsCpu(s, P, c, m, d);
      PickCpu(s1, P, c, d);
    }
  }

  // switching to it

  lemma InstallThread(s: State, P: Places, c: Cpu, u: Tid)
    requires CpuOk(s, P, c) && ThreadOk(s, P, u) && CanSwitch(s, c, Install)
    ensures ThreadOk(CpuNext(s, c, Install), CpuPlaces(s, P, c, Install), u)
  {
    SameSources(s, CpuNext(s, c, Install), u);
    hide Sourced, NoDup;
  }

  predicate AtCpu(p: Place, d: Cpu) { p == OnCpu(d) || p == Incoming(d) || p == Leaving(d) || p == Queued(d) }

  /** A CPU that the step does not touch. */
  lemma OtherCpu(s: State, s': State, P: Places, P': Places, d: Cpu)
    requires CpuOk(s, P, d) && Cpus(s', d) && P'.Keys == P.Keys && s'.st.Keys == s.st.Keys
    requires s'.cur[d] == s.cur[d] && s'.cpc[d] == s.cpc[d] && s'.queue[d] == s.queue[d] && s'.idle[d] == s.idle[d]
    requires forall t: Tid | t in P && AtCpu(P[t], d) :: P'[t] == P[t]
    requires forall t: Tid | t in P && P[t] == Leaving(d) && t in s.st :: s'.st[t] == s.st[t]
    requires s'.st[s.idle[d]] == Idle
    ensures CpuOk(s', P', d)
  {
    hide NoDup;
  }

  lemma InstallOwn(s: State, P: Places, c: Cpu)
    requires CpuOk(s, P, c) && CanSwitch(s, c, Install)
    ensures CpuOk(CpuNext(s, c, Install), CpuPlaces(s, P, c, Install), c)
  {
    hide NoDup;
  }

  lemma InstallOther(s: State, P: Places, c: Cpu, d: Cpu)
    requires CpuOk(s, P, c) && CpuOk(s, P, d) && CanSwitch(s, c, Install) && d != c
    ensures CpuOk(CpuNext(s, c, Install), CpuPlaces(s, P, c, Install), d)
  {
    var s', P' := CpuNext(s, c, Install), CpuPlaces(s, P, c, Install);
    FinalizePlaces(s, P, c, Install);
    assert forall t: Tid | t in P && AtCpu(P[t], d) :: P'[t] == P[t];
    assert s'.st.Keys == s.st.Keys && s'.st[s.idle[d]] == Idle;
    assert forall t: Tid | t in P && P[t] == Leaving(d) && t in s.st :: s'.st[t] == s.st[t];
    assert Cpus(s', d) && s'.cur[d] == s.cur[d] && s'.cpc[d] == s.cpc[d] && s'.queue[d] == s.queue[d]
           && s'.idle[d] == s.idle[d];
    hide CpuOk, CpuNext, CpuPlaces;
    OtherCpu(s, s', P, P', d);
  }

  lemma InstallCpu(s: State, P: Places, c: Cpu, d: Cpu)
    requires CpuOk(s, P, c) && CpuOk(s, P, d) && CanSwitch(s, c, Install)
    ensures CpuOk(CpuNext(s, c, Install), CpuPlaces(s, P, c, Install), d)
  {
    hide *;
    if c == d { InstallOwn(s, P, c); } else { InstallOther(s, P, c, d); }
  }

  lemma LoadThread(s: State, P: Places, c: Cpu, u: Tid)
    requires CpuOk(s, P, c) && ThreadOk(s, P, u) && CanSwitch(s, c, Load)
    ensures ThreadOk(CpuNext(s, c, Load), P, u)
  {
    SameSources(s, CpuNext(s, c, Load), u);
    hide Sourced, NoDup;
  }

  lemma LoadCpu(s: State, P: Places, c: Cpu, d: Cpu)
    requires CpuOk(s, P, c) && CpuOk(s, P, d) && CanSwitch(s, c, Load)
    requires s.cpc[c].prev == s.idle[c] || ThreadOk(s, P, s.cpc[c].prev)
    ensures CpuOk(CpuNext(s, c, Load), P, d)
  {
    hide NoDup, Sourced;
  }

  lemma CommitKeeps(s: State, c: Cpu)
    requires CanSwitch(s, c, Commit)
    ensures var s', prev := CommitPrev(s, c), s.cpc[c].prev;
            && SameLists(s, s') && s'.pc == s.pc && s'.cur == s.cur && s'.idle == s.idle && s'.cpc == s.cpc[c := Exec]
            && prev in s'.st && s'.st == s.st[prev := s'.st[prev]]
            && (s'.queue == s.queue || s'.queue == s.queue[c := s.queue[c] + [prev]])
  {
  }

  lemma CommitOther(s: State, P: Places, c: Cpu, u: Tid)
    requires CpuOk(s, P, c) && ThreadOk(s, P, u) && CanSwitch(s, c, Commit) && u != s.cpc[c].prev
    ensures ThreadOk(CommitPrev(s, c), CpuPlaces(s, P, c, Commit), u)
  {
    var s', P' := CommitPrev(s, c), CpuPlaces(s, P, c, Commit);
    assert u in P' && P'[u] == P[u];
    CommitKeeps(s, c);
    hide CommitPrev, CpuPlaces, NoDup, Sourced, StateFits, MaySleep, SameLists, Preemptible;
    assert PlaceFits(s', u, P[u]);
    SamePlace(s, s', P, P', u);
  }

  lemma CommitOwn(s: State, P: Places, c: Cpu)
    requires CpuOk(s, P, c) && CanSwitch(s, c, Commit) && s.cpc[c].prev != s.idle[c] && ThreadOk(s, P, s.cpc[c].prev)
    ensures ThreadOk(CommitPrev(s, c), CpuPlaces(s, P, c, Commit), s.cpc[c].prev)
  {
    SameSources(s, CommitPrev(s, c), s.cpc[c].prev);
    hide Sourced, NoDup;
  }

  lemma CommitOwnCpu(s: State, P: Places, c: Cpu)
    requires CpuOk(s, P, c) && CanSwitch(s, c, Commit)
    ensures CpuOk(CommitPrev(s, c), CpuPlaces(s, P, c, Commit), c)
  {
    var prev := s.cpc[c].prev;
    if prev != s.idle[c] {
      assert prev !in s.queue[c];
      Appended(s.queue[c], prev);
    }
    hide NoDup;
  }

  lemma CommitOtherCpu(s: State, P: Places, c: Cpu, d: Cpu)
    requires CpuOk(s, P, c) && CpuOk(s, P, d) && CanSwitch(s, c, Commit) && d != c
    ensures CpuOk(CommitPrev(s, c), CpuPlaces(s, P, c, Commit), d)
  {
    var s', P' := CommitPrev(s, c), CpuPlaces(s, P, c, Commit);
    FinalizePlaces(s, P, c, Commit);
    CommitKeeps(s, c);
    assert forall t: Tid | t in P && AtCpu(P[t], d) :: P'[t] == P[t];
    assert s.cpc[c].prev == s.idle[c] ==> s'.st == s.st;
    hide CpuPlaces, CommitPrev, NoDup;
    assert forall t: Tid | t in P && P[t] == Leaving(d) && t in s.st :: s'.st[t] == s.st[t];
    OtherCpu(s, s', P, P', d);
  }

  lemma CommitCpu(s: State, P: Places, c: Cpu, d: Cpu)
    requires CpuOk(s, P, c) && CpuOk(s, P, d) && CanSwitch(s, c, Commit)
    ensures CpuOk(CommitPrev(s, c), CpuPlaces(s, P, c, Commit), d)
  {
    hide *;
    if c == d { CommitOwnCpu(s, P, c); } else { CommitOtherCpu(s, P, c, d); }
  }

  predicate Finalizes(m: CpuMove) { m.Install? || m.Load? || m.Commit? }

  lemma FinalizeThread(s: State, P: Places, c: Cpu, m: CpuMove, u: Tid)
    requires CpuOk(s, P, c) && ThreadOk(s, P, u) && CanSwitch(s, c, m) && Finalizes(m)
    ensures ThreadOk(CpuNext(s, c, m), CpuPlaces(s, P, c, m), u)
  {
    assert u != s.idle[c];
    hide ThreadOk, CommitPrev;
    match m
    case Install => InstallThread(s, P, c, u);
    case Load => LoadThread(s, P, c, u);
    case Commit => if u == s.cpc[c].prev { CommitOwn(s, P, c); } else { CommitOther(s, P, c, u); }
  }

  lemma FinalizeCpu(s: State, P: Places, c: Cpu, m: CpuMove, d: Cpu)
    requires CpuOk(s, P, c) && CpuOk(s, P, d) && CanSwitch(s, c, m) && Finalizes(m)
    requires !m.Install? ==> s.cpc[c].prev == s.idle[c] || ThreadOk(s, P, s.cpc[c].prev)
    ensures CpuOk(CpuNext(s, c, m), CpuPlaces(s, P, c, m), d)
  {
    hide ThreadOk, CpuOk, CommitPrev, CanSwitch;
    match m
    case Install => InstallCpu(s, P, c, d);
    case Load => LoadCpu(s, P, c, d);
    case Commit => CommitCpu(s, P, c, d);
  }

  lemma FinalizePlaces(s: State, P: Places, c: Cpu, m: CpuMove)
    requires CpuOk(s, P, c) && CanSwitch(s, c, m) && Finalizes(m)
    ensures CpuPlaces(s, P, c, m).Keys == P.Keys
    ensures forall t: Tid | t in P && P[t].Carried? :: CpuPlaces(s, P, c, m)[t] == P[t]
  {
    hide NoDup;
  }

  lemma FinalizeSame(s: State, c: Cpu, m: CpuMove)
    requires CanSwitch(s, c, m) && Finalizes(m)
    ensures var s' := CpuNext(s, c, m); SameLists(s, s') && s'.pc == s.pc && s'.cur.Keys == s.cur.Keys
  {
    if m.Commit? { CommitKeeps(s, c); }
  }

  lemma FinalizeLists(s: State, P: Places, c: Cpu, m: CpuMove)
    requires InvWith(s, P) && CanSwitch(s, c, m) && Finalizes(m)
    ensures var s', P' := CpuNext(s, c, m), CpuPlaces(s, P, c, m);
            && s'.cur.Keys == s.cur.Keys && P'.Keys == P.Keys
            && (forall a: Agent :: AgentOk(s', P', a)) && (forall o: Object :: TokenOk(s', P', o))
            && (forall t: Tid :: TimeoutOk(s', P', t))
  {
    assert CpuOk(s, P, c);
    hide CpuNext, CpuPlaces, ThreadOk, AgentOk, TokenOk, TimeoutOk, CpuOk, SameLists;
    FinalizePlaces(s, P, c, m);
    FinalizeSame(s, c, m);
    ListsKept(s, CpuNext(s, c, m), P, CpuPlaces(s, P, c, m));
  }

  lemma PrevOk(s: State, P: Places, c: Cpu, m: CpuMove)
    requires InvWith(s, P) && CanSwitch(s, c, m) && (m.Load? || m.Commit?)
    ensures s.cpc[c].prev == s.idle[c] || ThreadOk(s, P, s.cpc[c].prev)
  {
    assert CpuOk(s, P, c);
  }

  lemma FinalizeInv(s: State, P: Places, c: Cpu, m: CpuMove)
    requires InvWith(s, P) && CanSwitch(s, c, m) && Finalizes(m)
    ensures InvWith(CpuNext(s, c, m), CpuPlaces(s, P, c, m))
  {
    var s', P' := CpuNext(s, c, m), CpuPlaces(s, P, c, m);
    assert CpuOk(s, P, c);
    if !m.Install? { PrevOk(s, P, c, m); }
    hide ThreadOk, CpuOk, AgentOk, TokenOk, TimeoutOk, CpuNext, CpuPlaces;
    FinalizeLists(s, P, c, m);
    forall u: Tid | u in P'
      ensures ThreadOk(s', P', u)
    {
      FinalizeThread(s, P, c, m, u);
    }
    forall d: Cpu | d in s'.cur
      ensures CpuOk(s', P', d)
    {
      FinalizeCpu(s, P, c, m, d);
    }
  }

  // ---- every run ----

  function NextPlaces(s: State, P: Places, l: Label): Places
    requires Enabled(s, l)
  {
    match l
    case ThreadStep(_, _) => P
    case CpuStep(c, m) => CpuPlaces(s, P, c, m)
    case WakeStep(a, m) => WakePlaces(s, P, a, m)
  }

  lemma StepInv(s: State, P: Places, l: Label)
    requires InvWith(s, P) && Enabled(s, l)
    ensures InvWith(Next(s, l), NextPlaces(s, P, l))
  {
    hide InvWith, ThreadNext, CpuNext, WakeNext, CanSwitch, CanWake, CanMove, WakePlaces;
    match l
    case ThreadStep(c, m) => ThreadInv(s, P, c, m);
    case CpuStep(c, m) => if Picks(m) { PickInv(s, P, c, m); } else { FinalizeInv(s, P, c, m); }
    case WakeStep(a, m) => WakeInv(s, P, a, m);
  }

  lemma StepKeepsThreads(s: State, P: Places, l: Label)
    requires InvWith(s, P) && Enabled(s, l)
    ensures NextPlaces(s, P, l).Keys == P.Keys
  {
    hide ThreadOk, TokenOk, TimeoutOk, CpuNext, ThreadNext, WakeNext;
    match l
    case ThreadStep(_, _) =>
    case WakeStep(a, _) => assert AgentOk(s, P, a);
    case CpuStep(c, m) =>
      assert CpuOk(s, P, c);
      if Picks(m) {
        if s.queue[c] != [] { InQueue(s.queue[c]); }
      } else {
        FinalizePlaces(s, P, c, m);
      }
  }

  /** The live threads `T` satisfy the invariant. */
  ghost predicate Inv(s: State, T: set<Tid>) { exists P: Places :: P.Keys == T && InvWith(s, P) }

  /** All CPUs idle, each thread of `T` in one run queue, nobody waiting. */
  ghost predicate Init(s: State, T: set<Tid>) {
    && s.cur == s.idle && s.queue.Keys == s.cpc.Keys == s.idle.Keys
    && s.tokens == map[] && s.timeouts == {} && s.agents == map[]
    && (forall c: Cpu | c in s.idle ::
          s.cpc[c] == Exec && NoDup(s.queue[c]) && s.idle[c] !in T && s.idle[c] in s.st && s.st[s.idle[c]] == Idle)
    && (forall c: Cpu, t: Tid | c in s.queue && t in s.queue[c] :: t in T)
    && (forall c: Cpu, d: Cpu, t: Tid | c in s.queue && d in s.queue && t in s.queue[c] && t in s.queue[d] :: c == d)
    && (forall t: Tid | t in T :: HasHome(s, t) && t in s.st && s.st[t] == Runable && t in s.pc && s.pc[t] == Normal)
  }

  ghost predicate HasHome(s: State, t: Tid) { exists c: Cpu :: c in s.queue && t in s.queue[c] }

  ghost function Home(s: State, t: Tid): (c: Cpu)
    requires HasHome(s, t)
    ensures c in s.queue && t in s.queue[c]
  {
    var c: Cpu :| c in s.queue && t in s.queue[c];
    c
  }

  ghost function Homes(s: State, T: set<Tid>): Places
    requires forall t: Tid | t in T :: HasHome(s, t)
  {
    map t | t in T :: Queued(Home(s, t))
  }

  lemma InitCpu(s: State, T: set<Tid>, c: Cpu)
    requires Init(s, T) && c in s.cur
    ensures CpuOk(s, Homes(s, T), c)
  {
    forall t | t in s.queue[c]
      ensures t in Homes(s, T) && Homes(s, T)[t] == Queued(c)
    {
      assert t in T;
      assert Home(s, t) == c;
    }
    hide NoDup, Homes;
  }

  lemma InitThread(s: State, T: set<Tid>, t: Tid)
    requires Init(s, T) && t in T
    ensures ThreadOk(s, Homes(s, T), t)
  {
    var c := Home(s, t);
    assert Cpus(s, c);
    hide NoDup, Sourced;
  }

  lemma InitInv(s: State, T: set<Tid>)
    requires Init(s, T)
    ensures Inv(s, T)
  {
    var P := Homes(s, T);
    assert P.Keys == T;
    forall c: Cpu | c in s.cur
      ensures CpuOk(s, P, c)
    {
      InitCpu(s, T, c);
    }
    forall t: Tid | t in P
      ensures ThreadOk(s, P, t)
    {
      InitThread(s, T, t);
    }
    assert (forall a: Agent :: AgentOk(s, P, a)) && (forall o: Object :: TokenOk(s, P, o))
           && (forall t: Tid :: TimeoutOk(s, P, t));
    hide *;
    Assemble(s, P);
    Witness(s, T, P);
  }

  lemma Witness(s: State, T: set<Tid>, P: Places)
    requires P.Keys == T && InvWith(s, P)
    ensures Inv(s, T)
  {
  }

  /** A run of the threads `T` from an initial state. */
  ghost predicate Run(r: seq<State>, T: set<Tid>) {
    r != [] && Init(r[0], T) && forall i, j | 0 <= i < j < |r| && j == i + 1 :: Step(r[i], r[j])
  }

  lemma {:induction false} RunInv(r: seq<State>, T: set<Tid>, i: nat)
    requires Run(r, T) && i < |r|
    ensures Inv(r[i], T)
    decreases i
  {
    hide InvWith, Next, Enabled, NextPlaces;
    if i == 0 {
      InitInv(r[0], T);
    } else {
      RunInv(r, T, i - 1);
      assert Step(r[i - 1], r[i]);
      var l: Label :| Enabled(r[i - 1], l) && r[i] == Next(r[i - 1], l);
      var P: Places :| P.Keys == T && InvWith(r[i - 1], P);
      StepInv(r[i - 1], P, l);
      StepKeepsThreads(r[i - 1], P, l);
    }
  }

  /** Thread `t` is found at place `p`. */
  predicate FoundAt(s: State, t: Tid, p: Place) {
    match p
    case OnCpu(c) => c in s.cur && s.cur[c] == t
    case Incoming(c) => c in s.cur && c in s.cpc && s.cpc[c] == Popped(t)
    case Leaving(c) => c in s.cur && c in s.cpc && (s.cpc[c].Switched? || s.cpc[c].Loaded?) && s.cpc[c].prev == t
    case Queued(c) => c in s.cur && c in s.queue && t in s.queue[c]
    case Parked => t in s.st && s.st[t] == Blocked
    case Carried(a) => AgentAt(s, a) == Put(t)
  }

  lemma FoundThere(s: State, P: Places, t: Tid, q: Place)
    requires InvWith(s, P) && t in P
    ensures FoundAt(s, t, q) <==> q == P[t]
  {
    assert ThreadOk(s, P, t);
    match q
    case OnCpu(c) => if c in s.cur { assert CpuOk(s, P, c); }
    case Incoming(c) => if c in s.cur { assert CpuOk(s, P, c); }
    case Leaving(c) => if c in s.cur { assert CpuOk(s, P, c); }
    case Queued(c) => if c in s.cur { assert CpuOk(s, P, c); }
    case Parked =>
    case Carried(a) => assert AgentOk(s, P, a);
  }

  lemma QueuesOnce(s: State, P: Places, c: Cpu)
    requires InvWith(s, P) && c in s.cur
    ensures c in s.queue && NoDup(s.queue[c])
  {
    assert CpuOk(s, P, c);
  }

  /** In every state of every run each thread is in exactly one place, and in a run queue once. */
  lemma ExactlyOnePlace(r: seq<State>, T: set<Tid>, i: nat, t: Tid) returns (p: Place)
    requires Run(r, T) && i < |r| && t in T
    ensures forall q: Place :: FoundAt(r[i], t, q) <==> q == p
    ensures forall c: Cpu | c in r[i].cur :: c in r[i].queue && NoDup(r[i].queue[c])
  {
    hide InvWith, FoundAt, NoDup, Run;
    RunInv(r, T, i);
    var s := r[i];
    var P: Places :| P.Keys == T && InvWith(s, P);
    p := P[t];
    forall q: Place
      ensures FoundAt(s, t, q) <==> q == p
    {
      FoundThere(s, P, t, q);
    }
    forall c: Cpu | c in s.cur
      ensures c in s.queue && NoDup(s.queue[c])
    {
      QueuesOnce(s, P, c);
    }
  }

  /** The scheduler never finds the thread it switches away from already blocked. */
  lemma NoPanic(r: seq<State>, T: set<Tid>, i: nat, c: Cpu)
    requires Run(r, T) && i < |r| && c in r[i].cur
    ensures c in r[i].cpc && (r[i].cpc[c].Loaded? ==> r[i].cpc[c].seen != Blocked)
    ensures r[i].cur[c] in r[i].st && r[i].st[r[i].cur[c]] != Blocked
  {
    RunInv(r, T, i);
    var P: Places :| P.Keys == T && InvWith(r[i], P);
    assert CpuOk(r[i], P, c);
    if r[i].cur[c] in P { assert ThreadOk(r[i], P, r[i].cur[c]); }
  }

  /** No wakeup is lost: a blocked thread is still on its object's list or among the timeouts, or a waker that has
      taken it off is about to exchange its state. */
  lemma NoLostWakeup(r: seq<State>, T: set<Tid>, i: nat, t: Tid)
    requires Run(r, T) && i < |r| && t in T && t in r[i].st && r[i].st[t] == Blocked
    ensures Sourced(r[i], t)
  {
    RunInv(r, T, i);
    var P: Places :| P.Keys == T && InvWith(r[i], P);
    assert ThreadOk(r[i], P, t);
  }

  /** A token on an object's list, and an entry among the timeouts, belongs to a thread that is in `wait_impl` for it:
      neither outlives the call. */
  lemma RegistrationsInScope(r: seq<State>, T: set<Tid>, i: nat, t: Tid, o: Object)
    requires Run(r, T) && i < |r|
    ensures t in TokensOf(r[i], o) ==> t in r[i].pc && Tokened(r[i].pc[t], o)
    ensures t in r[i].timeouts ==> t in r[i].pc && Armed(r[i].pc[t])
  {
    RunInv(r, T, i);
    var P: Places :| P.Keys == T && InvWith(r[i], P);
    assert TokenOk(r[i], P, o);
    assert TimeoutOk(r[i], P, t);
  }
}
