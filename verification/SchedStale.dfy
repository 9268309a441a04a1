/** A run in which a waker of one wait ends the next: it takes the thread off the list of the first wait, the timeout of
    that wait then wakes the thread, and only in the next wait does the waker come to exchange the thread's state. */
module SchedulingStale {
  import opened Scheduling
  import opened SchedulingCalls

  /** The part of the state that the CPU does not change. */
  datatype Lists = Lists(status: map<Tid, Status>, tokens: map<Object, seq<Tid>>, timeouts: set<Tid>,
                         agents: map<Agent, AgentPc>)

  /** One CPU with its idle thread 0, and thread 1. */
  function System(x: ThreadState, p: Pc, cur: Tid, queue: seq<Tid>, k: CpuPc, y: Lists): State {
    State(map[0 := Idle, 1 := x], map[1 := p], y.status, map[0 := cur], map[0 := queue], map[0 := k], map[0 := 0],
          y.tokens, y.timeouts, y.agents)
  }

  // ---- one step each ----

  lemma Preempts(p: Pc, y: Lists)
    ensures StepOf(System(Runable, p, 0, [1], Exec, y), CpuStep(0, Preempt), System(Runable, p, 0, [], Popped(1), y))
  {
  }

  lemma InstallsThread(p: Pc, y: Lists)
    ensures StepOf(System(Runable, p, 0, [], Popped(1), y), CpuStep(0, Install),
                   System(Running, p, 1, [], Switched(0), y))
  {
  }

  lemma LoadsIdle(p: Pc, y: Lists)
    ensures StepOf(System(Running, p, 1, [], Switched(0), y), CpuStep(0, Load),
                   System(Running, p, 1, [], Loaded(0, Idle), y))
  {
  }

  lemma CommitsIdle(p: Pc, y: Lists)
    ensures StepOf(System(Running, p, 1, [], Loaded(0, Idle), y), CpuStep(0, Commit),
                   System(Running, p, 1, [], Exec, y))
  {
  }

  lemma Schedules(w: Wait, y: Lists)
    ensures StepOf(System(Runable, Registered(w), 1, [], Exec, y), CpuStep(0, Schedule),
                   System(Runable, Away(w), 1, [], Popped(0), y))
  {
  }

  lemma InstallsIdle(p: Pc, y: Lists)
    ensures StepOf(System(Runable, p, 1, [], Popped(0), y), CpuStep(0, Install),
                   System(Runable, p, 0, [], Switched(1), y))
  {
  }

  lemma LoadsThread(p: Pc, y: Lists)
    ensures StepOf(System(Runable, p, 0, [], Switched(1), y), CpuStep(0, Load),
                   System(Runable, p, 0, [], Loaded(1, Runable), y))
  {
  }

  lemma CommitsThread(p: Pc, y: Lists)
    ensures StepOf(System(Runable, p, 0, [], Loaded(1, Runable), y), CpuStep(0, Commit),
                   System(Runable, p, 0, [1], Exec, y))
  {
    assert [] + [1] == [1];
  }

  /** A step of the thread, which is running. */
  lemma Moves(x: ThreadState, p: Pc, m: ThreadMove, y: Lists)
    requires CanMove(p, m)
    ensures var s := System(x, p, 1, [], Exec, y);
            StepOf(s, ThreadStep(0, m),
                   System(NewState(x, m), NewPc(p, m), 1, [], Exec,
                          Lists(NewStatus(s, 1, p, m), NewTokens(s, 1, p, m), NewTimeouts(s, 1, p, m), y.agents)))
  {
    hide NewStatus, NewTokens, NewTimeouts, NewState, NewPc, CanMove;
  }

  lemma Wakes(x: ThreadState, p: Pc, a: Agent, y: Lists)
    requires a in y.agents && y.agents[a] == Got(1) && x != Blocked
    ensures StepOf(System(x, p, 1, [], Exec, y), WakeStep(a, Exchange),
                   System(Runable, p, 1, [], Exec, y.(agents := y.agents[a := Free])))
  {
  }

  lemma TakesFirst(x: ThreadState, p: Pc, a: Agent, o: Object, y: Lists)
    requires a !in y.agents && o in y.tokens && y.tokens[o] == [1]
    ensures StepOf(System(x, p, 1, [], Exec, y), WakeStep(a, PopToken(o)),
                   System(x, p, 1, [], Exec, y.(tokens := y.tokens[o := []], agents := y.agents[a := Got(1)])))
  {
    assert [1][1..] == [];
  }

  lemma TakesTimer(x: ThreadState, p: Pc, a: Agent, y: Lists)
    requires a !in y.agents && y.timeouts == {1}
    ensures StepOf(System(x, p, 1, [], Exec, y), WakeStep(a, PopTimeout(1)),
                   System(x, p, 1, [], Exec, y.(timeouts := {}, agents := y.agents[a := Got(1)])))
  {
    assert {1} - {1} == {};
  }

  // ---- several steps ----

  /** The steps `ls` lead from `s` to `s'`. */
  ghost predicate Leads(s: State, ls: seq<Label>, s': State)
    decreases |ls|
  {
    if ls == [] then s == s' else Enabled(s, ls[0]) && Leads(Next(s, ls[0]), ls[1..], s')
  }

  lemma {:induction false} LeadsOn(s: State, ls: seq<Label>, s': State, ls': seq<Label>, s'': State)
    requires Leads(s, ls, s') && Leads(s', ls', s'')
    ensures Leads(s, ls + ls', s'')
    decreases |ls|
  {
    hide Next, Enabled;
    if ls == [] {
      assert ls + ls' == ls';
    } else {
      assert (ls + ls')[0] == ls[0] && (ls + ls')[1..] == ls[1..] + ls';
      LeadsOn(Next(s, ls[0]), ls[1..], s', ls', s'');
    }
  }

  lemma LeadsTo(s: State, l: Label, s': State, ls: seq<Label>, s'': State)
    requires StepOf(s, l, s') && Leads(s', ls, s'')
    ensures Leads(s, [l] + ls, s'')
  {
    hide Next, Enabled;
    assert ([l] + ls)[1..] == ls;
  }

  lemma Three(s0: State, l0: Label, s1: State, l1: Label, s2: State, l2: Label, s3: State)
    requires StepOf(s0, l0, s1) && StepOf(s1, l1, s2) && StepOf(s2, l2, s3)
    ensures Leads(s0, [l0, l1, l2], s3)
  {
    hide StepOf;
    LeadsTo(s2, l2, s3, [], s3);
    LeadsTo(s1, l1, s2, [l2], s3);
    LeadsTo(s0, l0, s1, [l1, l2], s3);
    assert [l2] + [] == [l2] && [l1] + [l2] == [l1, l2] && [l0] + [l1, l2] == [l0, l1, l2];
  }

  const FINALIZE: seq<Label> := [CpuStep(0, Install), CpuStep(0, Load), CpuStep(0, Commit)]
  const DISPATCH: seq<Label> := [CpuStep(0, Preempt)] + FINALIZE
  const LEAVE: seq<Label> := [CpuStep(0, Schedule)] + FINALIZE
  const FINISH: seq<Label> := [ThreadStep(0, Resume), ThreadStep(0, Disarm), ThreadStep(0, Untoken)]

  const RETURN: seq<Label> := (LEAVE + DISPATCH) + FINISH

  function Enter(w: Wait): seq<Label> {
    [ThreadStep(0, BeginWait(w)), ThreadStep(0, PushToken), ThreadStep(0, Arm)]
  }

  /** The thread, woken before it could call schedule, goes to the run queue and comes back. */
  lemma GoesAndReturns(w: Wait, y: Lists)
    ensures Leads(System(Runable, Registered(w), 1, [], Exec, y), LEAVE + DISPATCH,
                  System(Running, Away(w), 1, [], Exec, y))
  {
    hide StepOf, Leads, System;
    var p, mid := Away(w), System(Runable, Away(w), 0, [1], Exec, y);
    Schedules(w, y);
    InstallsIdle(p, y);
    LoadsThread(p, y);
    CommitsThread(p, y);
    Three(System(Runable, p, 1, [], Popped(0), y), CpuStep(0, Install), System(Runable, p, 0, [], Switched(1), y),
          CpuStep(0, Load), System(Runable, p, 0, [], Loaded(1, Runable), y), CpuStep(0, Commit), mid);
    LeadsTo(System(Runable, Registered(w), 1, [], Exec, y), CpuStep(0, Schedule),
            System(Runable, p, 1, [], Popped(0), y), FINALIZE, mid);
    Dispatches(p, y);
    LeadsOn(System(Runable, Registered(w), 1, [], Exec, y), LEAVE, mid, DISPATCH,
            System(Running, p, 1, [], Exec, y));
  }

  /** The idle CPU takes the thread from its run queue. */
  lemma Dispatches(p: Pc, y: Lists)
    ensures Leads(System(Runable, p, 0, [1], Exec, y), DISPATCH, System(Running, p, 1, [], Exec, y))
  {
    hide StepOf, Leads, System;
    Preempts(p, y);
    InstallsThread(p, y);
    LoadsIdle(p, y);
    CommitsIdle(p, y);
    Three(System(Runable, p, 0, [], Popped(1), y), CpuStep(0, Install), System(Running, p, 1, [], Switched(0), y),
          CpuStep(0, Load), System(Running, p, 1, [], Loaded(0, Idle), y), CpuStep(0, Commit),
          System(Running, p, 1, [], Exec, y));
    LeadsTo(System(Runable, p, 0, [1], Exec, y), CpuStep(0, Preempt), System(Runable, p, 0, [], Popped(1), y),
            FINALIZE, System(Running, p, 1, [], Exec, y));
  }

  /** The thread begins to wait on an object on whose list nobody is. */
  lemma Enters(w: Wait, y: Lists)
    requires w.OnObject? && w.obj !in y.tokens && y.timeouts == {}
    ensures Leads(System(Running, Normal, 1, [], Exec, y), Enter(w),
                  System(Blocking, Registered(w), 1, [], Exec,
                         y.(tokens := y.tokens[w.obj := [1]], timeouts := if w.timed then {1} else {})))
  {
    hide StepOf, Leads, System;
    var y', y'' := y.(tokens := y.tokens[w.obj := [1]]),
                   y.(tokens := y.tokens[w.obj := [1]], timeouts := if w.timed then {1} else {});
    Begins(w, y);
    PushesToken(w, y);
    Arms(w, y');
    Three(System(Running, Normal, 1, [], Exec, y), ThreadStep(0, BeginWait(w)),
          System(Blocking, Entering(w), 1, [], Exec, y), ThreadStep(0, PushToken),
          System(Blocking, Arming(w), 1, [], Exec, y'), ThreadStep(0, Arm),
          System(Blocking, Registered(w), 1, [], Exec, y''));
  }

  lemma Begins(w: Wait, y: Lists)
    ensures StepOf(System(Running, Normal, 1, [], Exec, y), ThreadStep(0, BeginWait(w)),
                   System(Blocking, Entering(w), 1, [], Exec, y))
  {
    Moves(Running, Normal, BeginWait(w), y);
    hide StepOf;
  }

  lemma PushesToken(w: Wait, y: Lists)
    requires w.OnObject? && w.obj !in y.tokens
    ensures StepOf(System(Blocking, Entering(w), 1, [], Exec, y), ThreadStep(0, PushToken),
                   System(Blocking, Arming(w), 1, [], Exec, y.(tokens := y.tokens[w.obj := [1]])))
  {
    Moves(Blocking, Entering(w), PushToken, y);
    hide StepOf;
    assert [] + [1] == [1];
  }

  lemma Arms(w: Wait, y: Lists)
    requires w.OnObject? && y.timeouts == {}
    ensures StepOf(System(Blocking, Arming(w), 1, [], Exec, y), ThreadStep(0, Arm),
                   System(Blocking, Registered(w), 1, [], Exec, y.(timeouts := if w.timed then {1} else {})))
  {
    Moves(Blocking, Arming(w), Arm, y);
    hide StepOf;
    assert {} + {1} == {1};
  }

  /** The thread ends its wait; it returns that it timed out if it is still on the list. */
  lemma Finishes(w: Wait, y: Lists)
    requires w.OnObject? && w.obj in y.tokens && (y.tokens[w.obj] == [] || y.tokens[w.obj] == [1]) && y.timeouts == {}
    ensures Leads(System(Running, Away(w), 1, [], Exec, y), FINISH,
                  System(Running, Normal, 1, [], Exec,
                         y.(tokens := y.tokens[w.obj := []],
                            status := y.status[1 := if y.tokens[w.obj] == [] then Woken else TimedOut])))
  {
    hide StepOf, Leads, System;
    var y' := y.(status := y.status[1 := if w.timed then TimedOut else Woken]);
    var y'' := y.(tokens := y.tokens[w.obj := []],
                  status := y.status[1 := if y.tokens[w.obj] == [] then Woken else TimedOut]);
    Resumes(w, y);
    Disarms(w, y);
    Untokens(w, y');
    assert y'.(tokens := y''.tokens, status := y'.status[1 := y''.status[1]]) == y'';
    Three(System(Running, Away(w), 1, [], Exec, y), ThreadStep(0, Resume),
          System(Running, Disarming(w), 1, [], Exec, y), ThreadStep(0, Disarm),
          System(Running, Untokening(w), 1, [], Exec, y'), ThreadStep(0, Untoken),
          System(Running, Normal, 1, [], Exec, y''));
  }

  lemma Resumes(w: Wait, y: Lists)
    ensures StepOf(System(Running, Away(w), 1, [], Exec, y), ThreadStep(0, Resume),
                   System(Running, Disarming(w), 1, [], Exec, y))
  {
    Moves(Running, Away(w), Resume, y);
    hide StepOf;
  }

  lemma Disarms(w: Wait, y: Lists)
    requires w.OnObject? && y.timeouts == {}
    ensures StepOf(System(Running, Disarming(w), 1, [], Exec, y), ThreadStep(0, Disarm),
                   System(Running, Untokening(w), 1, [], Exec,
                          y.(status := y.status[1 := if w.timed then TimedOut else Woken])))
  {
    Moves(Running, Disarming(w), Disarm, y);
    hide StepOf;
    assert {} - {1} == {};
  }

  lemma Untokens(w: Wait, y: Lists)
    requires w.OnObject? && w.obj in y.tokens && (y.tokens[w.obj] == [] || y.tokens[w.obj] == [1])
    ensures StepOf(System(Running, Untokening(w), 1, [], Exec, y), ThreadStep(0, Untoken),
                   System(Running, Normal, 1, [], Exec,
                          y.(tokens := y.tokens[w.obj := []],
                             status := y.status[1 := if y.tokens[w.obj] == [] then Woken else TimedOut])))
  {
    Moves(Running, Untokening(w), Untoken, y);
    hide StepOf;
    assert [1][1..] == [];
  }

  /** A thread that was woken before it could call schedule comes to the end of its wait. */
  lemma Returns(w: Wait, y: Lists, y': Lists)
    requires w.OnObject? && w.obj in y.tokens && (y.tokens[w.obj] == [] || y.tokens[w.obj] == [1]) && y.timeouts == {}
    requires y' == y.(tokens := y.tokens[w.obj := []],
                      status := y.status[1 := if y.tokens[w.obj] == [] then Woken else TimedOut])
    ensures Leads(System(Runable, Registered(w), 1, [], Exec, y), RETURN, System(Running, Normal, 1, [], Exec, y'))
  {
    hide StepOf, Leads, System;
    GoesAndReturns(w, y);
    Finishes(w, y);
    LeadsOn(System(Runable, Registered(w), 1, [], Exec, y), LEAVE + DISPATCH, System(Running, Away(w), 1, [], Exec, y),
            FINISH, System(Running, Normal, 1, [], Exec, y'));
  }

  // ---- the run ----

  /** The first wait: it is taken off its object's list by agent 0, which comes no further, and off the timeouts by
      agent 1, which wakes it; so it ends, and agent 0 still holds the thread. */
  lemma FirstWait() returns (ls: seq<Label>)
    ensures Leads(System(Running, Normal, 1, [], Exec, Lists(map[], map[], {}, map[])), ls,
                  System(Running, Normal, 1, [], Exec,
                         Lists(map[1 := Woken], map[0 := []], {}, map[0 := Got(1), 1 := Free])))
  {
    hide StepOf, Leads, System;
    var w, p := OnObject(0, true), Registered(OnObject(0, true));
    var y0 := Lists(map[], map[], {}, map[]);
    var y1 := Lists(map[], map[0 := [1]], {1}, map[]);
    var y2 := Lists(map[], map[0 := []], {1}, map[0 := Got(1)]);
    var y3 := Lists(map[], map[0 := []], {}, map[0 := Got(1), 1 := Got(1)]);
    var y4 := y3.(agents := map[0 := Got(1), 1 := Free]);
    var y5 := y4.(status := map[1 := Woken]);
    var s0, s1 := System(Running, Normal, 1, [], Exec, y0), System(Blocking, p, 1, [], Exec, y1);
    var s2, s3 := System(Blocking, p, 1, [], Exec, y2), System(Blocking, p, 1, [], Exec, y3);
    var s4, s5 := System(Runable, p, 1, [], Exec, y4), System(Running, Normal, 1, [], Exec, y5);
    Enters(w, y0);
    assert y1.tokens[0 := []] == y2.tokens && y1.agents[0 := Got(1)] == y2.agents;
    TakesFirst(Blocking, p, 0, 0, y1);
    assert y2.agents[1 := Got(1)] == y3.agents;
    TakesTimer(Blocking, p, 1, y2);
    assert y3.agents[1 := Free] == y4.agents;
    Wakes(Blocking, p, 1, y3);
    var wakes := [WakeStep(0, PopToken(0)), WakeStep(1, PopTimeout(1)), WakeStep(1, Exchange)];
    Three(s1, wakes[0], s2, wakes[1], s3, wakes[2], s4);
    assert y4.tokens[0 := []] == y4.tokens && y4.status[1 := Woken] == y5.status;
    Returns(w, y4, y5);
    LeadsOn(s0, Enter(w), s1, wakes, s4);
    LeadsOn(s0, Enter(w) + wakes, s4, RETURN, s5);
    ls := Enter(w) + wakes + RETURN;
  }

  /** No waker takes a thread off a list. */
  predicate NoneTaken(ls: seq<Label>) {
    forall k | 0 <= k < |ls| :: ls[k].WakeStep? ==> !ls[k].wake.PopToken? && !ls[k].wake.PopTimeout?
  }

  const EXCHANGE: seq<Label> := [WakeStep(0, Exchange)] + []

  const SECOND: seq<Label> := Enter(OnObject(1, false)) + EXCHANGE + RETURN

  /** The second wait, without a timeout: agent 0 wakes the thread at last. */
  lemma WokenLate()
    ensures var y := Lists(map[1 := Woken], map[0 := []], {}, map[0 := Got(1), 1 := Free]);
            var y' := Lists(map[1 := Woken], map[0 := [], 1 := [1]], {}, map[0 := Free, 1 := Free]);
            Leads(System(Running, Normal, 1, [], Exec, y), Enter(OnObject(1, false)) + EXCHANGE,
                  System(Runable, Registered(OnObject(1, false)), 1, [], Exec, y'))
  {
    hide StepOf, Leads, System;
    var w, p := OnObject(1, false), Registered(OnObject(1, false));
    var y0 := Lists(map[1 := Woken], map[0 := []], {}, map[0 := Got(1), 1 := Free]);
    var y1 := y0.(tokens := map[0 := [], 1 := [1]]);
    var y2 := y1.(agents := map[0 := Free, 1 := Free]);
    var s0, s1 := System(Running, Normal, 1, [], Exec, y0), System(Blocking, p, 1, [], Exec, y1);
    var s2 := System(Runable, p, 1, [], Exec, y2);
    assert y0.tokens[1 := [1]] == y1.tokens;
    Enters(w, y0);
    assert y1.agents[0 := Free] == y2.agents;
    Wakes(Blocking, p, 0, y1);
    LeadsNone(s2);
    LeadsTo(s1, WakeStep(0, Exchange), s2, [], s2);
    LeadsOn(s0, Enter(w), s1, EXCHANGE, s2);
  }

  /** That wait ends although nobody has taken it off a list, and returns that it timed out. */
  lemma SecondWait()
    ensures Leads(System(Running, Normal, 1, [], Exec,
                         Lists(map[1 := Woken], map[0 := []], {}, map[0 := Got(1), 1 := Free])), SECOND,
                  System(Running, Normal, 1, [], Exec,
                         Lists(map[1 := TimedOut], map[0 := [], 1 := []], {}, map[0 := Free, 1 := Free])))
  {
    hide StepOf, Leads, System;
    var w := OnObject(1, false);
    var y0 := Lists(map[1 := Woken], map[0 := []], {}, map[0 := Got(1), 1 := Free]);
    var y2 := Lists(map[1 := Woken], map[0 := [], 1 := [1]], {}, map[0 := Free, 1 := Free]);
    var y3 := Lists(map[1 := TimedOut], map[0 := [], 1 := []], {}, map[0 := Free, 1 := Free]);
    WokenLate();
    assert y2.tokens[1 := []] == y3.tokens && y2.status[1 := TimedOut] == y3.status;
    Returns(w, y2, y3);
    LeadsOn(System(Running, Normal, 1, [], Exec, y0), Enter(w) + EXCHANGE,
            System(Runable, Registered(w), 1, [], Exec, y2), RETURN, System(Running, Normal, 1, [], Exec, y3));
  }

  lemma SecondSteps()
    ensures SECOND != [] && SECOND[0] == ThreadStep(0, BeginWait(OnObject(1, false))) && NoneTaken(SECOND)
  {
    var w := OnObject(1, false);
    PartsTakeNone(w);
    TakeNone(Enter(w), EXCHANGE);
    TakeNone(Enter(w) + EXCHANGE, RETURN);
  }

  lemma PartsTakeNone(w: Wait)
    ensures NoneTaken(Enter(w)) && NoneTaken(EXCHANGE) && NoneTaken(RETURN)
  {
  }

  lemma TakeNone(a: seq<Label>, b: seq<Label>)
    requires NoneTaken(a) && NoneTaken(b)
    ensures NoneTaken(a + b)
  {
  }

  lemma LeadsNone(s: State)
    ensures Leads(s, [], s)
  {
  }

  /** From an initial state, thread 1 can come to begin a wait without a timeout on object 1 that ends although nobody
      takes the thread off any list, and that returns that it timed out: a waker held the thread as it began. */
  lemma StaleWaker() returns (s: State, before: seq<Label>, s': State, wait: seq<Label>, s'': State)
    ensures Init(s, {1}) && Leads(s, before, s') && Held(s', 1)
    ensures wait != [] && wait[0] == ThreadStep(0, BeginWait(OnObject(1, false))) && NoneTaken(wait)
    ensures Leads(s', wait, s'') && 1 in s''.pc && s''.pc[1].Normal? && 1 in s''.status && s''.status[1] == TimedOut
  {
    var y0 := Lists(map[], map[], {}, map[]);
    s, s' := System(Runable, Normal, 0, [1], Exec, y0), System(Running, Normal, 1, [], Exec,
      Lists(map[1 := Woken], map[0 := []], {}, map[0 := Got(1), 1 := Free]));
    s'' := System(Running, Normal, 1, [], Exec,
                  Lists(map[1 := TimedOut], map[0 := [], 1 := []], {}, map[0 := Free, 1 := Free]));
    Starts();
    assert AgentAt(s', 0) == Got(1);
    hide Leads, Init, NoneTaken;
    Dispatches(Normal, y0);
    var first := FirstWait();
    LeadsOn(s, DISPATCH, System(Running, Normal, 1, [], Exec, y0), first, s');
    before := DISPATCH + first;
    SecondWait();
    SecondSteps();
    wait := SECOND;
  }

  lemma Starts()
    ensures Init(System(Runable, Normal, 0, [1], Exec, Lists(map[], map[], {}, map[])), {1})
  {
    var s := System(Runable, Normal, 0, [1], Exec, Lists(map[], map[], {}, map[]));
    assert HasHome(s, 1) by { assert 0 in s.queue && 1 in s.queue[0]; }
  }
}
