/** What a wait returns, and what has ended it, over all runs of the scheduler. */
module SchedulingCalls {
  import opened Lists
  import opened Scheduling

  ghost predicate StepOf(s: State, l: Label, s': State) { Enabled(s, l) && s' == Next(s, l) }

  /** The run `r` of the threads `T` takes the steps `ls`. */
  ghost predicate Taken(r: seq<State>, T: set<Tid>, ls: seq<Label>) {
    Run(r, T) && |r| == |ls| + 1 && forall m | 0 <= m < |ls| :: StepOf(r[m], ls[m], r[m + 1])
  }

  predicate Waiting(s: State, t: Tid, w: Wait) { t in s.pc && t in s.st && !s.pc[t].Normal? && s.pc[t].w == w }

  /** A waker takes `t` off the list of the object it waits on. */
  predicate TakesToken(s: State, l: Label, t: Tid, w: Wait) {
    w.OnObject? && l.WakeStep? && l.wake == PopToken(w.obj) && TokensOf(s, w.obj) != [] && TokensOf(s, w.obj)[0] == t
  }

  /** A waker takes `t` off the timeouts. */
  predicate TakesTimeout(l: Label, t: Tid) { l.WakeStep? && l.wake == PopTimeout(t) }

  predicate Listed(s: State, t: Tid, w: Wait) { w.OnObject? && t in TokensOf(s, w.obj) }

  /** A waker has taken `t` off a list and is yet to wake it. */
  ghost predicate Held(s: State, t: Tid) { exists a: Agent :: AgentAt(s, a) == Got(t) }

  predicate Mine(s: State, l: Label, t: Tid) { l.ThreadStep? && l.c in s.cur && s.cur[l.c] == t }

  // ---- one step ----

  /** What a step of somebody else does to a waiting thread. */
  ghost predicate Others(s: State, l: Label, s': State, t: Tid, w: Wait) {
    && Waiting(s, t, w) && Waiting(s', t, w)
    && (s'.pc[t] == s.pc[t] || (s.pc[t].Registered? && s'.pc[t].Away?))
    && (t in s.status ==> t in s'.status && s'.status[t] == s.status[t])
    && (Listed(s', t, w) <==> Listed(s, t, w) && !TakesToken(s, l, t, w))
    && (t in s'.timeouts <==> t in s.timeouts && !TakesTimeout(l, t))
  }

  lemma OthersDo(s: State, P: Places, l: Label, t: Tid, w: Wait)
    requires InvWith(s, P) && Enabled(s, l) && Waiting(s, t, w) && !Mine(s, l, t)
    ensures Others(s, l, Next(s, l), t, w)
  {
    match l
    case ThreadStep(c, m) =>
      ThreadIsLocal(s, c, m);
      hide InvWith, CanMove, NewState, NewPc, NewTokens, NewTimeouts, TokensOf;
    case CpuStep(c, m) =>
      SwitchDoes(s, c, m, t, w);
      hide InvWith, CpuNext, CanSwitch;
    case WakeStep(a, m) =>
      if w.OnObject? { assert TokenOk(s, P, w.obj); }
      hide InvWith;
      WakeDoes(s, a, m, t, w);
  }

  lemma SwitchDoes(s: State, c: Cpu, m: CpuMove, t: Tid, w: Wait)
    requires CanSwitch(s, c, m) && Waiting(s, t, w)
    ensures Others(s, CpuStep(c, m), CpuNext(s, c, m), t, w)
  {
    var s' := CpuNext(s, c, m);
    assert s'.tokens == s.tokens && s'.timeouts == s.timeouts && s'.status == s.status;
  }

  lemma WakeDoes(s: State, a: Agent, m: WakeMove, t: Tid, w: Wait)
    requires CanWake(s, a, m) && Waiting(s, t, w) && (w.OnObject? ==> NoDup(TokensOf(s, w.obj)))
    ensures Others(s, WakeStep(a, m), WakeNext(s, a, m), t, w)
  {
    if m.PopToken? {
      var q := TokensOf(s, m.o);
      assert q == [q[0]] + q[1..];
    }
  }

  /** Nobody has taken the thread off a list since it began to wait: it has not been woken, and no waker is about to. */
  ghost predicate Untouched(s: State, t: Tid) {
    && t in s.pc && t in s.st && !Held(s, t) && (s.st[t] == Blocking || s.st[t] == Blocked)
    && !s.pc[t].Normal? && !s.pc[t].Disarming? && !s.pc[t].Untokening?
  }

  lemma StaysUntouched(s: State, P: Places, l: Label, t: Tid, w: Wait)
    requires InvWith(s, P) && t in P && Enabled(s, l) && Waiting(s, t, w) && Untouched(s, t)
    requires !TakesTimeout(l, t) && !TakesToken(s, l, t, w) && (t in Next(s, l).pc ==> !Next(s, l).pc[t].Normal?)
    ensures Untouched(Next(s, l), t)
  {
    assert ThreadOk(s, P, t);
    match l
    case ThreadStep(c, m) =>
      assert CpuOk(s, P, c);
      hide InvWith;
      ThreadTouches(s, P, c, m, t);
    case CpuStep(c, m) =>
      assert CpuOk(s, P, c);
      hide InvWith;
      SwitchTouches(s, P, c, m, t);
    case WakeStep(a, m) =>
      if m.PopToken? { assert TokenOk(s, P, m.o); }
      hide InvWith;
      WakeTouches(s, P, a, m, t, w);
  }

  lemma SameHeld(s: State, s': State, t: Tid)
    requires s'.agents == s.agents
    ensures Held(s', t) <==> Held(s, t)
  {
    assert forall a: Agent :: AgentAt(s', a) == AgentAt(s, a);
  }

  lemma ThreadTouches(s: State, P: Places, c: Cpu, m: ThreadMove, t: Tid)
    requires Executing(s, c) && CanMove(s.pc[s.cur[c]], m) && CpuOk(s, P, c) && ThreadOk(s, P, t) && Untouched(s, t)
    requires !ThreadNext(s, c, m).pc[t].Normal?
    ensures Untouched(ThreadNext(s, c, m), t)
  {
    SameHeld(s, ThreadNext(s, c, m), t);
    hide NewTokens, NewTimeouts, NewStatus, Sourced, Held;
  }

  lemma SwitchTouches(s: State, P: Places, c: Cpu, m: CpuMove, t: Tid)
    requires CanSwitch(s, c, m) && CpuOk(s, P, c) && ThreadOk(s, P, t) && Untouched(s, t)
    ensures Untouched(CpuNext(s, c, m), t)
  {
    SameHeld(s, CpuNext(s, c, m), t);
    hide Sourced, Held, NoDup, MaySleep, StateFits;
  }

  lemma WakeTouches(s: State, P: Places, a: Agent, m: WakeMove, t: Tid, w: Wait)
    requires CanWake(s, a, m) && Waiting(s, t, w) && Untouched(s, t) && (m.PopToken? ==> TokenOk(s, P, m.o))
    requires !TakesTimeout(WakeStep(a, m), t) && !TakesToken(s, WakeStep(a, m), t, w)
    ensures Untouched(WakeNext(s, a, m), t)
  {
    var s' := WakeNext(s, a, m);
    if m.PopToken? { assert TokensOf(s, m.o)[0] in TokensOf(s, m.o); }
    forall b: Agent
      ensures AgentAt(s', b) != Got(t)
    {
      assert AgentAt(s, b) != Got(t);
    }
  }

  // ---- a whole wait ----

  ghost predicate TokenTaken(r: seq<State>, ls: seq<Label>, t: Tid, w: Wait, i: nat, j: nat)
    requires |r| == |ls| + 1 && j <= |ls|
  {
    exists k | i < k < j :: TakesToken(r[k], ls[k], t, w)
  }

  ghost predicate TimeoutTaken(ls: seq<Label>, t: Tid, i: nat, j: nat)
    requires j <= |ls|
  {
    exists k | i < k < j :: TakesTimeout(ls[k], t)
  }

  lemma OneMore(r: seq<State>, ls: seq<Label>, t: Tid, w: Wait, i: nat, m: nat)
    requires |r| == |ls| + 1 && i < m < |ls|
    ensures TokenTaken(r, ls, t, w, i, m + 1) <==> TokenTaken(r, ls, t, w, i, m) || TakesToken(r[m], ls[m], t, w)
    ensures TimeoutTaken(ls, t, i, m + 1) <==> TimeoutTaken(ls, t, i, m) || TakesTimeout(ls[m], t)
  {
    hide TakesToken, TakesTimeout;
  }

  /** The lists show what has been taken since the wait began. */
  ghost predicate Shown(s: State, t: Tid, w: Wait, token: bool, timeout: bool) {
    && Waiting(s, t, w)
    && var p := s.pc[t];
    && (p.Entering? || p.Met? ==> !token && !Listed(s, t, w))
    && (!p.Entering? && !p.Met? && w.OnObject? ==> (Listed(s, t, w) <==> !token))
    && (w.OnTimeout? ==> !token)
    && (p.Entering? || p.Met? || p.Arming? || !Timed(w) ==> !timeout && t !in s.timeouts)
    && ((p.Registered? || p.Away? || p.Disarming?) && Timed(w) ==> (t in s.timeouts <==> !timeout))
    && (p.Untokening? ==> t !in s.timeouts && t in s.status && s.status[t] == if timeout then TimedOut else Woken)
    && (p.Met? ==> w.OnObject?)
  }

  /** What is known in state `s` of a wait, `token` and `timeout` saying what has been taken since it began, and `clean`
      that no waker held the thread then. */
  ghost predicate SoFar(s: State, t: Tid, w: Wait, clean: bool, token: bool, timeout: bool) {
    Shown(s, t, w, token, timeout) && (clean && !token && !timeout ==> Untouched(s, t))
  }

  lemma Begins(s: State, P: Places, c: Cpu, t: Tid, w: Wait)
    requires InvWith(s, P) && Enabled(s, ThreadStep(c, BeginWait(w))) && s.cur[c] == t
    ensures t in P && SoFar(Next(s, ThreadStep(c, BeginWait(w))), t, w, !Held(s, t), false, false)
  {
    var s' := ThreadNext(s, c, BeginWait(w));
    assert CpuOk(s, P, c);
    assert t in P;
    BeginsShown(s, P, c, t, w);
    SameHeld(s, s', t);
    hide InvWith, Shown, CpuOk, Held;
  }

  lemma BeginsShown(s: State, P: Places, c: Cpu, t: Tid, w: Wait)
    requires InvWith(s, P) && Executing(s, c) && s.cur[c] == t && s.pc[t].Normal?
    ensures Shown(ThreadNext(s, c, BeginWait(w)), t, w, false, false)
  {
    hide InvWith, NoDup;
    TimeoutAt(s, P, t);
    if w.OnObject? { TokenAt(s, P, w.obj); }
  }

  lemma TimeoutAt(s: State, P: Places, t: Tid)
    requires InvWith(s, P)
    ensures TimeoutOk(s, P, t)
  {
  }

  lemma TokenAt(s: State, P: Places, o: Object)
    requires InvWith(s, P)
    ensures TokenOk(s, P, o)
  {
  }

  lemma OthersGoOn(s: State, P: Places, l: Label, t: Tid, w: Wait, clean: bool, token: bool, timeout: bool)
    requires InvWith(s, P) && t in P && Enabled(s, l) && !Mine(s, l, t) && SoFar(s, t, w, clean, token, timeout)
    ensures SoFar(Next(s, l), t, w, clean, token || TakesToken(s, l, t, w), timeout || TakesTimeout(l, t))
  {
    hide InvWith, Next, Enabled, Untouched, TakesToken, TakesTimeout, Others;
    OthersDo(s, P, l, t, w);
    var token', timeout' := token || TakesToken(s, l, t, w), timeout || TakesTimeout(l, t);
    if clean && !token' && !timeout' {
      StillWaiting(s, l, Next(s, l), t, w);
      StaysUntouched(s, P, l, t, w);
    }
    MayTake(s, P, l, t, w);
    StillShown(s, l, Next(s, l), t, w, token, timeout);
  }

  lemma StillWaiting(s: State, l: Label, s': State, t: Tid, w: Wait)
    requires Others(s, l, s', t, w)
    ensures t in s'.pc && !s'.pc[t].Normal?
  {
  }

  lemma StillShown(s: State, l: Label, s': State, t: Tid, w: Wait, token: bool, timeout: bool)
    requires Shown(s, t, w, token, timeout) && Others(s, l, s', t, w)
    requires (TakesToken(s, l, t, w) ==> Listed(s, t, w)) && (TakesTimeout(l, t) ==> t in s.timeouts)
    ensures Shown(s', t, w, token || TakesToken(s, l, t, w), timeout || TakesTimeout(l, t))
  {
    hide TakesToken, TakesTimeout;
  }

  /** Only from a list that it is on can a thread be taken. */
  lemma MayTake(s: State, P: Places, l: Label, t: Tid, w: Wait)
    requires InvWith(s, P) && Enabled(s, l)
    ensures TakesToken(s, l, t, w) ==> Listed(s, t, w)
    ensures TakesTimeout(l, t) ==> t in s.timeouts
  {
    if TakesToken(s, l, t, w) { assert TokensOf(s, w.obj)[0] in TokensOf(s, w.obj); }
  }

  lemma OwnGoesOn(s: State, P: Places, c: Cpu, m: ThreadMove, t: Tid, w: Wait, clean: bool, token: bool, timeout: bool)
    requires InvWith(s, P) && t in P && Executing(s, c) && s.cur[c] == t && CanMove(s.pc[t], m)
    requires SoFar(s, t, w, clean, token, timeout) && !ThreadNext(s, c, m).pc[t].Normal?
    ensures SoFar(ThreadNext(s, c, m), t, w, clean, token, timeout)
  {
    assert CpuOk(s, P, c) && ThreadOk(s, P, t);
    if clean && !token && !timeout { ThreadTouches(s, P, c, m, t); }
    OwnShown(s, c, m, t, w, token, timeout);
    hide InvWith, Shown, Untouched, ThreadOk, CpuOk, ThreadNext;
  }

  lemma OwnShown(s: State, c: Cpu, m: ThreadMove, t: Tid, w: Wait, token: bool, timeout: bool)
    requires Executing(s, c) && s.cur[c] == t && CanMove(s.pc[t], m)
    requires Shown(s, t, w, token, timeout) && !ThreadNext(s, c, m).pc[t].Normal?
    ensures Shown(ThreadNext(s, c, m), t, w, token, timeout)
  {
    if w.OnObject? { TokensMove(s, t, s.pc[t], m, w.obj); }
    hide Remove;
  }

  ghost predicate Call(r: seq<State>, t: Tid, i: nat, j: nat)
    requires i < j < |r|
  {
    (forall m | i < m < j :: t in r[m].pc ==> !r[m].pc[t].Normal?) && t in r[j].pc && r[j].pc[t].Normal?
  }

  lemma {:induction false} InTheWait(r: seq<State>, T: set<Tid>, ls: seq<Label>, t: Tid, c: Cpu, w: Wait, i: nat,
                                     m: nat)
    requires Taken(r, T, ls) && i < m < |r| && ls[i] == ThreadStep(c, BeginWait(w))
    requires c in r[i].cur && r[i].cur[c] == t && forall k | i < k <= m :: t in r[k].pc ==> !r[k].pc[t].Normal?
    ensures t in T && SoFar(r[m], t, w, !Held(r[i], t), TokenTaken(r, ls, t, w, i, m), TimeoutTaken(ls, t, i, m))
    decreases m
  {
    hide InvWith, Next, Enabled, SoFar, Run, TakesToken, TakesTimeout, Held;
    RunInv(r, T, m - 1);
    var s, s', l := r[m - 1], r[m], ls[m - 1];
    var P: Places :| P.Keys == T && InvWith(s, P);
    assert StepOf(s, l, s');
    if m == i + 1 {
      Begins(s, P, c, t, w);
    } else {
      InTheWait(r, T, ls, t, c, w, i, m - 1);
      OneMore(r, ls, t, w, i, m - 1);
      GoesOn(s, P, l, t, w, !Held(r[i], t), TokenTaken(r, ls, t, w, i, m - 1), TimeoutTaken(ls, t, i, m - 1));
    }
  }

  lemma GoesOn(s: State, P: Places, l: Label, t: Tid, w: Wait, clean: bool, token: bool, timeout: bool)
    requires InvWith(s, P) && t in P && Enabled(s, l) && SoFar(s, t, w, clean, token, timeout)
    requires t in Next(s, l).pc ==> !Next(s, l).pc[t].Normal?
    ensures SoFar(Next(s, l), t, w, clean, token || TakesToken(s, l, t, w), timeout || TakesTimeout(l, t))
  {
    if Mine(s, l, t) {
      hide InvWith, SoFar, ThreadNext, CanMove;
      OwnGoesOn(s, P, l.c, l.move, t, w, clean, token, timeout);
    } else {
      hide InvWith, SoFar, Next, Enabled;
      OthersGoOn(s, P, l, t, w, clean, token, timeout);
    }
  }

  /** The last step of a wait. */
  lemma Ends(s: State, P: Places, l: Label, t: Tid, w: Wait, clean: bool, token: bool, timeout: bool)
    requires InvWith(s, P) && t in P && Enabled(s, l) && SoFar(s, t, w, clean, token, timeout)
    requires t in Next(s, l).pc && Next(s, l).pc[t].Normal?
    ensures Mine(s, l, t) && t in Next(s, l).status
    ensures match Next(s, l).status[t]
            case ConditionMet => w.OnObject? && !token && !timeout && t in Next(s, l).st && Next(s, l).st[t] == Running
            case Woken => if w.OnObject? then token else !timeout
            case TimedOut => if w.OnObject? then !token else timeout
    ensures Next(s, l).status[t] != ConditionMet && clean ==> token || timeout
    ensures timeout ==> Timed(w)
  {
    if !Mine(s, l, t) { OthersDo(s, P, l, t, w); }
    hide InvWith;
  }

  /** A wait on an object returns that it was woken if and only if a waker took it off the object's list meanwhile, and
      one for a timeout that it timed out if and only if it was taken off the timeouts. And unless a waker of an earlier
      wait still held the thread when the wait began, a wait whose condition was not met ends only if a waker took
      it off its object's list or its timeout passed; so one without a timeout never returns that it timed out. */
  lemma WaitReturns(r: seq<State>, T: set<Tid>, ls: seq<Label>, t: Tid, c: Cpu, w: Wait, i: nat, j: nat)
    requires Taken(r, T, ls) && i < j < |r| && ls[i] == ThreadStep(c, BeginWait(w))
    requires c in r[i].cur && r[i].cur[c] == t && Call(r, t, i, j)
    ensures t in r[j].status
    ensures var status, token, timeout := r[j].status[t], TokenTaken(r, ls, t, w, i, j), TimeoutTaken(ls, t, i, j);
            && (status == ConditionMet ==> w.OnObject? && !token && !timeout && t in r[j].st && r[j].st[t] == Running)
            && (status == Woken ==> if w.OnObject? then token else !timeout)
            && (status == TimedOut ==> if w.OnObject? then !token else timeout)
            && (timeout ==> Timed(w))
            && (!Held(r[i], t) && status != ConditionMet ==> token || timeout)
  {
    hide InvWith, Next, Enabled, SoFar, Run, TakesToken, TakesTimeout, Held;
    RunInv(r, T, j - 1);
    var P: Places :| P.Keys == T && InvWith(r[j - 1], P);
    assert StepOf(r[j - 1], ls[j - 1], r[j]);
    NotAtOnce(r[i], ls[i], r[i + 1], c, t, w) by { assert StepOf(r[i], ls[i], r[i + 1]); }
    assert j > i + 1;
    InTheWait(r, T, ls, t, c, w, i, j - 1);
    OneMore(r, ls, t, w, i, j - 1);
    NotTaken(r[j - 1], ls[j - 1], t, w);
    Ends(r[j - 1], P, ls[j - 1], t, w, !Held(r[i], t), TokenTaken(r, ls, t, w, i, j - 1),
         TimeoutTaken(ls, t, i, j - 1));
  }

  lemma NotAtOnce(s: State, l: Label, s': State, c: Cpu, t: Tid, w: Wait)
    requires StepOf(s, l, s') && l == ThreadStep(c, BeginWait(w)) && s.cur[c] == t
    ensures t in s'.pc && !s'.pc[t].Normal?
  {
  }

  lemma NotTaken(s: State, l: Label, t: Tid, w: Wait)
    ensures l.ThreadStep? ==> !TakesToken(s, l, t, w) && !TakesTimeout(l, t)
  {
  }
}
