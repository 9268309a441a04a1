/** Order and progress of waiting and switching: wait lists and run queues are first come, first served, and every call
    comes to an end. */
module SchedulingOrder {
  import opened Lists
  import opened Scheduling

  // ---- what a step does to a list ----

  lemma {:induction false} RemoveIsStep(q: seq<Tid>, t: Tid)
    ensures Remove(q, t) == q || exists k: nat :: k < |q| && Remove(q, t) == RemoveAt(q, k)
  {
    if q != [] {
      if q[0] == t {
        assert q[1..] == RemoveAt(q, 0);
      } else {
        hide RemoveAt;
        RemoveIsStep(q[1..], t);
        if Remove(q[1..], t) != q[1..] {
          var k: nat :| k < |q[1..]| && Remove(q[1..], t) == RemoveAt(q[1..], k);
          RemoveNext(q, k);
        }
      }
    }
  }

  lemma RemoveNext(q: seq<Tid>, k: nat)
    requires k + 1 < |q|
    ensures [q[0]] + RemoveAt(q[1..], k) == RemoveAt(q, k + 1)
  {
  }

  lemma JoinIsStep(q: seq<nat>, x: nat)
    requires x !in q
    ensures QueueStep(q, q + [x])
  {
  }

  lemma FirstLeavesIsStep(q: seq<nat>)
    requires q != []
    ensures QueueStep(q, q[1..])
  {
    assert q[1..] == RemoveAt(q, 0);
  }

  lemma TokenStep(s: State, P: Places, l: Label, o: Object)
    requires InvWith(s, P) && Enabled(s, l)
    ensures NoDup(TokensOf(s, o)) && QueueStep(TokensOf(s, o), TokensOf(Next(s, l), o))
  {
    assert TokenOk(s, P, o);
    hide InvWith, NoDup, QueueStep, CpuNext, CanSwitch, WakeNext, CanWake, ThreadNext, CanMove, TokensOf;
    match l
    case CpuStep(c, m) =>
      SwitchKeeps(s, c, m);
      SameTokens(s, CpuNext(s, c, m), o);
    case WakeStep(a, m) => WakeTokens(s, a, m, o);
    case ThreadStep(c, m) => ThreadTokens(s, P, c, m, o);
  }

  lemma SameTokens(s: State, s': State, o: Object)
    requires s'.tokens == s.tokens
    ensures QueueStep(TokensOf(s, o), TokensOf(s', o))
  {
  }

  lemma WakeTokens(s: State, a: Agent, m: WakeMove, o: Object)
    requires CanWake(s, a, m)
    ensures QueueStep(TokensOf(s, o), TokensOf(WakeNext(s, a, m), o))
  {
    hide QueueStep;
    Stays(TokensOf(s, o));
    if m == PopToken(o) { FirstLeavesIsStep(TokensOf(s, o)); }
  }

  lemma ThreadTokens(s: State, P: Places, c: Cpu, m: ThreadMove, o: Object)
    requires Executing(s, c) && CanMove(s.pc[s.cur[c]], m) && TokenOk(s, P, o)
    ensures QueueStep(TokensOf(s, o), TokensOf(ThreadNext(s, c, m), o))
  {
    var q, t := TokensOf(s, o), s.cur[c];
    assert m.PushToken? ==> t !in q;
    hide QueueStep, NoDup, TokenOk;
    Stays(q);
    RemoveStep(q, t);
    if m.PushToken? { JoinIsStep(q, t); }
  }

  lemma RemoveStep(q: seq<Tid>, t: Tid)
    ensures QueueStep(q, Remove(q, t))
  {
    RemoveIsStep(q, t);
  }

  /** A CPU switching threads leaves the wait lists, the wakers and the other CPUs alone. */
  lemma SwitchKeeps(s: State, c: Cpu, m: CpuMove)
    requires CanSwitch(s, c, m)
    ensures var s' := CpuNext(s, c, m);
            && s'.tokens == s.tokens && (forall a: Agent :: AgentAt(s', a) == AgentAt(s, a))
            && forall d: Cpu | d != c :: SwitchOf(s', d) == SwitchOf(s, d)
  {
  }

  lemma RunQueueStep(s: State, P: Places, l: Label, c: Cpu)
    requires InvWith(s, P) && Enabled(s, l) && c in s.cur
    ensures c in s.queue && NoDup(s.queue[c])
    ensures var s' := Next(s, l); c in s'.cur && c in s'.queue && QueueStep(s.queue[c], s'.queue[c])
  {
    assert CpuOk(s, P, c);
    match l
    case ThreadStep(_, _) =>
      hide InvWith, NoDup, QueueStep, CpuOk;
      Stays(s.queue[c]);
    case WakeStep(a, m) =>
      assert AgentOk(s, P, a);
      hide InvWith, NoDup, QueueStep, WakeNext;
      WakeQueue(s, P, a, m, c);
    case CpuStep(d, m) =>
      assert CpuOk(s, P, d);
      hide InvWith, NoDup, QueueStep, CpuNext, CanSwitch;
      if d == c { SwitchQueue(s, P, c, m); } else { OtherQueue(s, d, m, c); }
  }

  lemma WakeQueue(s: State, P: Places, a: Agent, m: WakeMove, c: Cpu)
    requires CanWake(s, a, m) && AgentOk(s, P, a) && CpuOk(s, P, c)
    ensures var s' := WakeNext(s, a, m);
            s'.cur == s.cur && c in s'.queue && QueueStep(s.queue[c], s'.queue[c])
  {
    hide NoDup, QueueStep;
    Stays(s.queue[c]);
    if m == Enqueue(c) { JoinIsStep(s.queue[c], AgentAt(s, a).t); }
  }

  lemma OtherQueue(s: State, d: Cpu, m: CpuMove, c: Cpu)
    requires CanSwitch(s, d, m) && d != c && c in s.cur && c in s.queue
    ensures var s' := CpuNext(s, d, m); c in s'.cur && c in s'.queue && QueueStep(s.queue[c], s'.queue[c])
  {
    hide QueueStep, Settled, Requeues, Executing, Preemptible;
    Stays(s.queue[c]);
    assert CpuNext(s, d, m).queue[c] == s.queue[c];
  }

  lemma Stays(q: seq<nat>)
    ensures QueueStep(q, q)
  {
  }

  lemma SwitchQueue(s: State, P: Places, c: Cpu, m: CpuMove)
    requires CanSwitch(s, c, m) && CpuOk(s, P, c)
    ensures var s' := CpuNext(s, c, m); c in s'.cur && c in s'.queue && QueueStep(s.queue[c], s'.queue[c])
  {
    var q := s.queue[c];
    Stays(q);
    if q != [] { FirstLeavesIsStep(q); }
    if m.Commit? {
      NotQueued(s, P, c);
      if Requeues(s.cpc[c].seen, s.st[s.cpc[c].prev]) { JoinIsStep(q, s.cpc[c].prev); }
    }
    hide CpuOk, QueueStep;
  }

  lemma NotQueued(s: State, P: Places, c: Cpu)
    requires CanSwitch(s, c, Commit) && CpuOk(s, P, c)
    ensures s.cpc[c].prev !in s.queue[c]
  {
    hide NoDup;
  }

  // ---- first come, first served ----

  /** As long as a thread is on the wait list of an object, no thread that was behind it or came later gets ahead of
      it. */
  lemma WaitersFifo(r: seq<State>, T: set<Tid>, i: nat, j: nat, o: Object, t: Tid, u: Tid)
    requires Run(r, T) && i <= j < |r| && t != u && u in TokensOf(r[j], o)
    requires forall k | i <= k <= j :: t in TokensOf(r[k], o)
    requires u in TokensOf(r[i], o) ==> Ahead(TokensOf(r[i], o), t, u)
    ensures Ahead(TokensOf(r[j], o), t, u)
  {
    hide Inv, InvWith, Ahead, Next, Enabled, QueueStep, NoDup, TokensOf, Init;
    var qs := seq(|r|, k requires 0 <= k < |r| => TokensOf(r[k], o));
    forall k: nat | k + 1 < |qs|
      ensures StepAt(qs, k)
    {
      var P, l := Arrived(r, T, k);
      TokenStep(r[k], P, l, o);
    }
    FirstComeFirst(qs, i, j, t, u);
  }

  /** The same for the run queue of a CPU. */
  lemma RunQueueFifo(r: seq<State>, T: set<Tid>, i: nat, j: nat, c: Cpu, t: Tid, u: Tid)
    requires Run(r, T) && i <= j < |r| && c in r[0].cur && t != u && u in QueueOf(r[j], c)
    requires forall k | i <= k <= j :: t in QueueOf(r[k], c)
    requires u in QueueOf(r[i], c) ==> Ahead(QueueOf(r[i], c), t, u)
    ensures Ahead(QueueOf(r[j], c), t, u)
  {
    hide Inv, InvWith, Ahead, Next, Enabled, QueueStep, NoDup, Init;
    var qs := seq(|r|, k requires 0 <= k < |r| => QueueOf(r[k], c));
    forall k: nat | k + 1 < |qs|
      ensures StepAt(qs, k)
    {
      CpusStay(r, T, c, k);
      var P, l := Arrived(r, T, k);
      RunQueueStep(r[k], P, l, c);
    }
    FirstComeFirst(qs, i, j, t, u);
  }

  function QueueOf(s: State, c: Cpu): seq<Tid> { if c in s.queue then s.queue[c] else [] }

  /** How state `k` of a run goes on. */
  lemma Arrived(r: seq<State>, T: set<Tid>, k: nat) returns (P: Places, l: Label)
    requires Run(r, T) && k + 1 < |r|
    ensures P.Keys == T && InvWith(r[k], P) && Enabled(r[k], l) && r[k + 1] == Next(r[k], l)
  {
    hide InvWith, Next, Enabled, Init;
    RunInv(r, T, k);
    P :| P.Keys == T && InvWith(r[k], P);
    assert Step(r[k], r[k + 1]);
    l :| Enabled(r[k], l) && r[k + 1] == Next(r[k], l);
  }

  lemma {:induction false} CpusStay(r: seq<State>, T: set<Tid>, c: Cpu, k: nat)
    requires Run(r, T) && k < |r| && c in r[0].cur
    ensures c in r[k].cur
    decreases k
  {
    hide InvWith, Next, Enabled, Init;
    if k > 0 {
      CpusStay(r, T, c, k - 1);
      var P, l := Arrived(r, T, k - 1);
      RunQueueStep(r[k - 1], P, l, c);
    }
  }

  /** A waker takes the thread that is ahead of all others on the wait list, and leaves those in their order. */
  lemma WakesTheFirst(r: seq<State>, T: set<Tid>, i: nat, a: Agent, o: Object, u: Tid)
    requires Run(r, T) && i < |r| && Enabled(r[i], WakeStep(a, PopToken(o)))
    ensures var s' := Next(r[i], WakeStep(a, PopToken(o)));
            && AgentAt(s', a).Got? && TokensOf(r[i], o) == [AgentAt(s', a).t] + TokensOf(s', o)
            && (u in TokensOf(s', o) ==> Ahead(TokensOf(r[i], o), AgentAt(s', a).t, u))
  {
    RunInv(r, T, i);
    var P: Places :| P.Keys == T && InvWith(r[i], P);
    assert TokenOk(r[i], P, o);
    var q := TokensOf(r[i], o);
    if u in q[1..] { FirstIsAhead(q, u); }
  }

  /** CPU `c` has taken the thread that is ahead of all others in its run queue; it goes idle, or stays so, only if
      there is none. */
  ghost predicate PickedFirst(s: State, s': State, c: Cpu, u: Tid) {
    && Cpus(s, c) && Cpus(s', c)
    && (s.queue[c] != [] ==>
          && s'.cpc[c].Popped? && s.queue[c] == [s'.cpc[c].next] + s'.queue[c]
          && (u in s'.queue[c] ==> Ahead(s.queue[c], s'.cpc[c].next, u)))
    && (s.queue[c] == [] ==>
          s'.queue[c] == [] && s'.cpc[c] == if s.cur[c] == s.idle[c] then Exec else Popped(s.idle[c]))
  }

  lemma PicksTheFirst(r: seq<State>, T: set<Tid>, i: nat, c: Cpu, m: CpuMove, u: Tid)
    requires Run(r, T) && i < |r| && Enabled(r[i], CpuStep(c, m)) && Picks(m)
    ensures PickedFirst(r[i], Next(r[i], CpuStep(c, m)), c, u)
  {
    hide Run, PickedFirst, Init, Inv, InvWith, CpuNext, CanSwitch;
    RunInv(r, T, i);
    QueueOnce(r[i], T, c);
    PickFacts(r[i], c, m, u);
  }

  lemma QueueOnce(s: State, T: set<Tid>, c: Cpu)
    requires Inv(s, T)
    ensures c in s.cur && c in s.queue ==> NoDup(s.queue[c])
  {
    hide InvWith;
    var P: Places :| P.Keys == T && InvWith(s, P);
    if c in s.cur { QueuesOnce(s, P, c); }
  }

  lemma PickFacts(s: State, c: Cpu, m: CpuMove, u: Tid)
    requires CanSwitch(s, c, m) && Picks(m) && (c in s.cur && c in s.queue ==> NoDup(s.queue[c]))
    ensures PickedFirst(s, CpuNext(s, c, m), c, u)
  {
    hide NoDup, Ahead;
    var q := s.queue[c];
    if q != [] && u in q[1..] { FirstIsAhead(q, u); }
  }

  /** The thread that was picked becomes the CPU's current one and is marked as running, unless it is the idle one. */
  lemma PickedRuns(r: seq<State>, T: set<Tid>, i: nat, c: Cpu)
    requires Run(r, T) && i < |r| && Enabled(r[i], CpuStep(c, Install))
    ensures var s, s' := r[i], Next(r[i], CpuStep(c, Install));
            && Cpus(s, c) && Cpus(s', c) && s.cpc[c].Popped? && s'.cur[c] == s.cpc[c].next && s'.cur[c] in s'.st
            && s'.cpc[c] == Switched(s.cur[c])
            && s'.st[s'.cur[c]] == if s'.cur[c] == s.idle[c] then Idle else Running
  {
    hide CpuOk, ThreadOk, Run;
    RunInv(r, T, i);
    var P: Places :| P.Keys == T && InvWith(r[i], P);
    assert CpuOk(r[i], P, c);
    var n := r[i].cpc[c].next;
    assert n in P ==> ThreadOk(r[i], P, n);
    hide InvWith, Enabled, Next;
    Installed(r[i], P, c);
  }

  lemma Installed(s: State, P: Places, c: Cpu)
    requires CanSwitch(s, c, Install) && CpuOk(s, P, c) && (s.cpc[c].next in P ==> ThreadOk(s, P, s.cpc[c].next))
    ensures var s' := CpuNext(s, c, Install);
            && Cpus(s', c) && s'.cur[c] == s.cpc[c].next && s'.cur[c] in s'.st && s'.cpc[c] == Switched(s.cur[c])
            && s'.st[s'.cur[c]] == if s'.cur[c] == s.idle[c] then Idle else Running
  {
    hide NoDup, Sourced, MaySleep, StateFits;
  }

  // ---- every call comes to an end ----

  /** How far a thread is from the end of `wait_impl`. */
  function WaitToGo(p: Pc): nat {
    match p
    case Normal => 0
    case Entering(_) => 7
    case Met(_) => 1
    case Arming(_) => 6
    case Registered(_) => 5
    case Away(_) => 4
    case Disarming(_) => 3
    case Untokening(_) => 2
  }

  /** How far a CPU is from the end of `schedule`. */
  function SwitchToGo(p: CpuPc): nat {
    match p
    case Exec => 0
    case Popped(_) => 3
    case Switched(_) => 2
    case Loaded(_, _) => 1
  }

  /** How far a waker is from the end of its round. */
  function WakeToGo(p: AgentPc): nat {
    match p
    case Free => 0
    case Got(_) => 2
    case Put(_) => 1
  }

  function PcOf(s: State, t: Tid): Pc { if t in s.pc then s.pc[t] else Normal }

  function SwitchOf(s: State, c: Cpu): CpuPc { if c in s.cpc then s.cpc[c] else Exec }

  /** Every step brings the one who takes it closer to the end of its call, and nobody else further from it. */
  lemma StepAdvances(s: State, l: Label)
    requires Enabled(s, l)
    ensures var s' := Next(s, l);
            match l
            case ThreadStep(c, m) =>
              m.BeginWait? || WaitToGo(PcOf(s', s.cur[c])) < WaitToGo(PcOf(s, s.cur[c]))
            case CpuStep(c, m) =>
              if m == Schedule then WaitToGo(PcOf(s', s.cur[c])) < WaitToGo(PcOf(s, s.cur[c]))
              else m == Preempt || SwitchToGo(SwitchOf(s', c)) < SwitchToGo(SwitchOf(s, c))
            case WakeStep(a, m) =>
              m.PopToken? || m.PopTimeout? || WakeToGo(AgentAt(s', a)) < WakeToGo(AgentAt(s, a))
  {
    match l
    case ThreadStep(c, m) => hide WakeNext, CpuNext, NewTokens, NewTimeouts, NewStatus, NewState;
    case CpuStep(c, m) => hide WakeNext, ThreadNext;
    case WakeStep(a, m) => hide ThreadNext, CpuNext, TokensOf;
  }

  lemma OthersKeep(s: State, l: Label, t: Tid, c: Cpu, a: Agent)
    requires Enabled(s, l)
    ensures l.WakeStep? || t != s.cur[l.c] ==> PcOf(Next(s, l), t) == PcOf(s, t)
    ensures !l.CpuStep? || l.c != c ==> SwitchOf(Next(s, l), c) == SwitchOf(s, c)
    ensures !l.WakeStep? || l.a != a ==> AgentAt(Next(s, l), a) == AgentAt(s, a)
  {
    hide ThreadNext, WakeNext, CpuNext, CanSwitch, CanWake, CanMove, Executing, PcOf, SwitchOf, AgentAt;
    match l
    case ThreadStep(d, m) => ThreadOthers(s, d, m, t, c, a);
    case WakeStep(b, m) => WakeOthers(s, b, m, t, c, a);
    case CpuStep(d, m) =>
      AtCpu(s, d, m);
      SwitchKeeps(s, d, m);
      if t != s.cur[d] { OtherThread(s, d, m, t); }
  }

  lemma ThreadOthers(s: State, d: Cpu, m: ThreadMove, t: Tid, c: Cpu, a: Agent)
    requires Executing(s, d) && CanMove(s.pc[s.cur[d]], m)
    ensures t != s.cur[d] ==> PcOf(ThreadNext(s, d, m), t) == PcOf(s, t)
    ensures SwitchOf(ThreadNext(s, d, m), c) == SwitchOf(s, c) && AgentAt(ThreadNext(s, d, m), a) == AgentAt(s, a)
  {
    hide CanMove, NewState, NewPc, NewTokens, NewTimeouts;
  }

  lemma WakeOthers(s: State, b: Agent, m: WakeMove, t: Tid, c: Cpu, a: Agent)
    requires CanWake(s, b, m)
    ensures PcOf(WakeNext(s, b, m), t) == PcOf(s, t) && SwitchOf(WakeNext(s, b, m), c) == SwitchOf(s, c)
    ensures b != a ==> AgentAt(WakeNext(s, b, m), a) == AgentAt(s, a)
  {
    hide TokensOf;
  }

  lemma AtCpu(s: State, c: Cpu, m: CpuMove)
    requires CanSwitch(s, c, m)
    ensures Cpus(s, c)
  {
  }

  lemma OtherThread(s: State, c: Cpu, m: CpuMove, t: Tid)
    requires CanSwitch(s, c, m) && t != s.cur[c]
    ensures PcOf(CpuNext(s, c, m), t) == PcOf(s, t)
  {
  }

  /** No CPU is ever stuck: one inside schedule goes on, and one that executes a thread takes its next step. */
  lemma NeverStuck(s: State, P: Places, c: Cpu) returns (l: Label)
    requires InvWith(s, P) && c in s.cur
    ensures Enabled(s, l) && !l.WakeStep? && l.c == c
  {
    assert CpuOk(s, P, c);
    if s.cpc[c].Exec? && s.cur[c] != s.idle[c] { assert ThreadOk(s, P, s.cur[c]); }
    hide InvWith, ThreadOk, NoDup;
    match s.cpc[c]
    case Popped(_) => l := CpuStep(c, Install);
    case Switched(_) => l := CpuStep(c, Load);
    case Loaded(_, _) => l := CpuStep(c, Commit);
    case Exec =>
      if s.cur[c] == s.idle[c] { l := CpuStep(c, Preempt); } else { l := OwnStep(s, c); }
  }

  lemma OwnStep(s: State, c: Cpu) returns (l: Label)
    requires Executing(s, c)
    ensures Enabled(s, l) && !l.WakeStep? && l.c == c
  {
    match s.pc[s.cur[c]]
    case Normal => l := ThreadStep(c, BeginWait(OnTimeout));
    case Entering(w) => l := ThreadStep(c, if w.OnObject? then PushToken else SkipObject);
    case Met(_) => l := ThreadStep(c, StoreRunning);
    case Arming(_) => l := ThreadStep(c, Arm);
    case Registered(_) => l := CpuStep(c, Schedule);
    case Away(_) => l := ThreadStep(c, Resume);
    case Disarming(_) => l := ThreadStep(c, Disarm);
    case Untokening(_) => l := ThreadStep(c, Untoken);
  }

  /** An idling CPU, or one that executes a thread outside the part of a wait in which preemption is off and outside
      schedule, can be interrupted; then the first thread of its run queue, if there is one, is the next. */
  lemma CanBePreempted(s: State, P: Places, c: Cpu)
    requires InvWith(s, P) && c in s.cur && s.cpc[c].Exec?
    requires s.cur[c] == s.idle[c] || (s.cur[c] in s.pc && PreemptionOn(s.pc[s.cur[c]]))
    ensures Enabled(s, CpuStep(c, Preempt))
    ensures s.queue[c] != [] ==> Next(s, CpuStep(c, Preempt)).cpc[c] == Popped(s.queue[c][0])
  {
    assert CpuOk(s, P, c);
    if s.cur[c] != s.idle[c] { assert ThreadOk(s, P, s.cur[c]); }
    hide InvWith, NoDup, PlaceFits, Sourced;
  }

  predicate PreemptionOn(p: Pc) {
    match p
    case Normal => true
    case Registered(_) => true
    case Disarming(_) => true
    case Untokening(_) => true
    case _ => false
  }
}
