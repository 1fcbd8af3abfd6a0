/** Runs of two workers and one fiber, step by step, in which the promises of the sleep protocol fail. */
module SleepWitnesses {

  import opened Wrappers
  import opened SleepProtocol
  import opened SleepOwnership
  import opened SleepExclusion

  // `s` is where a run of two workers gets.
  ghost predicate Reached(ss: seq<State>, actions: seq<Action>, s: State) {
    IsRun(ss, actions) && ss[0] == Initial(2) && ss[|actions|] == s
  }

  lemma {:induction false} Go(ss: seq<State>, actions: seq<Action>, s: State, a: Action)
    returns (ss': seq<State>, actions': seq<Action>, s': State)
    requires Reached(ss, actions, s)
    ensures s' == Step(s, a) && Reached(ss', actions', s')
    ensures Undoubled(ss, actions) && !Doubles(s, a) ==> Undoubled(ss', actions')
  {
    s' := Step(s, a);
    ss', actions' := ss + [s'], actions + [a];
  }

  // Two workers and one fiber.
  function Two(queue: seq<Item>, armed: seq<Armed>, a: Pc, b: Pc, idle0: bool, idle1: bool, st: F.FiberState, life: Life, active: nat, stopping: bool): State {
    State(queue, armed, [a, b], [idle0, idle1], [st], [life], active, stopping, false)
  }

  lemma OneDue(a: Armed)
    requires a.owner.Some?
    ensures DueOwners([a], a.key) == [a.owner.value] && NotDue([a], a.key) == []
  {
    assert [a][1..] == [];
  }

  // ---------------------------------------------------------------- two workers in one fiber

  // Worker 1 goes idle, and a fiber is added; worker 0 runs it.
  lemma {:induction false} Asleep1() returns (ss: seq<State>, actions: seq<Action>, s: State)
    ensures Reached(ss, actions, s) && Undoubled(ss, actions) && s == Two([Run(0)], [], Pick, Poll, false, false, F.INITING, Awake, 0, false)
  {
    ss, actions, s := [Initial(2)], [], Initial(2);
    assert s.workers == [Pick, Pick] && s.idle == [false, false];
    ss, actions, s := Go(ss, actions, s, Work(1, Yields, 0));
    assert s == State([], [], [Pick, NoTask], [false, false], [], [], 0, false, false);
    ss, actions, s := Go(ss, actions, s, Work(1, Yields, 0));
    assert s == State([], [], [Pick, Idle], [false, false], [], [], 0, false, false);
    ss, actions, s := Go(ss, actions, s, Work(1, Yields, 0));
    assert s == State([], [], [Pick, Poll], [false, false], [], [], 0, false, false);
    ss, actions, s := Go(ss, actions, s, Spawn);
  }

  lemma {:induction false} Asleep2() returns (ss: seq<State>, actions: seq<Action>, s: State)
    ensures Reached(ss, actions, s) && Undoubled(ss, actions) && s == Two([], [], Enter(0), Poll, false, false, F.INITING, Awake, 1, false)
  {
    ss, actions, s := Asleep1();
    ss, actions, s := Go(ss, actions, s, Work(0, Yields, 0));
    assert s == Two([], [], Took(Run(0)), Poll, false, false, F.INITING, Awake, 0, false);
    ss, actions, s := Go(ss, actions, s, Work(0, Yields, 0));
    assert s == Two([], [], Raise(0), Poll, false, false, F.INITING, Awake, 0, false);
    ss, actions, s := Go(ss, actions, s, Work(0, Yields, 0));
    assert s == Two([], [], Env(0), Poll, false, false, F.INITING, Awake, 1, false);
    ss, actions, s := Go(ss, actions, s, Work(0, Yields, 0));
  }

  // It arms its timer and stores SLEEPING; its worker has not switched out when the timer fires,
  lemma {:induction false} Asleep3() returns (ss: seq<State>, actions: seq<Action>, s: State)
    ensures Reached(ss, actions, s) && Undoubled(ss, actions) && s == Two([], [Armed(0, Some(0))], Switch(0), Poll, false, false, F.SLEEPING, Waiting, 1, false)
  {
    ss, actions, s := Asleep2();
    ss, actions, s := Go(ss, actions, s, Work(0, Yields, 0));
    assert s == Two([], [], Code(0), Poll, false, false, F.RUNNING, Awake, 1, false);
    ss, actions, s := Go(ss, actions, s, Work(0, Sleeps(0), 0));
    assert s == Two([], [Armed(0, Some(0))], Sleep(0), Poll, false, false, F.RUNNING, Waiting, 1, false);
    ss, actions, s := Go(ss, actions, s, Work(0, Yields, 0));
    assert s == Two([], [Armed(0, Some(0))], Mark(0), Poll, false, false, F.RUNNING, Waiting, 1, false);
    ss, actions, s := Go(ss, actions, s, Work(0, Yields, 0));
  }

  lemma {:induction false} Asleep4() returns (ss: seq<State>, actions: seq<Action>, s: State)
    ensures Reached(ss, actions, s) && Undoubled(ss, actions) && s == Two([], [], Switch(0), Took(Callback(0)), false, false, F.SLEEPING, Waiting, 1, false)
  {
    ss, actions, s := Asleep3();
    OneDue(Armed(0, Some(0)));
    ss, actions, s := Go(ss, actions, s, Work(1, Yields, 0));
    assert s == Two([], [], Switch(0), Expiring([0]), false, false, F.SLEEPING, Waiting, 1, false);
    ss, actions, s := Go(ss, actions, s, Work(1, Yields, 0));
    assert s == Two([Callback(0)], [], Switch(0), Expiring([]), false, false, F.SLEEPING, Waiting, 1, false);
    ss, actions, s := Go(ss, actions, s, Work(1, Yields, 0));
    assert s == Two([Callback(0)], [], Switch(0), Pick, false, false, F.SLEEPING, Waiting, 1, false);
    ss, actions, s := Go(ss, actions, s, Work(1, Yields, 0));
  }

  // and the callback makes it SUSPENDED and queues it.
  lemma {:induction false} WokenBeforeOut() returns (ss: seq<State>, actions: seq<Action>, s: State)
    ensures Reached(ss, actions, s) && Undoubled(ss, actions) && s == Two([Run(0)], [], Switch(0), Pick, false, false, F.SUSPENDED, Waiting, 1, false)
  {
    ss, actions, s := Asleep4();
    ss, actions, s := Go(ss, actions, s, Work(1, Yields, 0));
    assert s == Two([], [], Switch(0), Wake(0), false, false, F.SLEEPING, Waiting, 2, false);
    ss, actions, s := Go(ss, actions, s, Work(1, Yields, 0));
    assert s == Two([], [], Switch(0), Unmark(0), false, false, F.SLEEPING, Waiting, 2, false);
    ss, actions, s := Go(ss, actions, s, Work(1, Yields, 0));
    assert s == Two([], [], Switch(0), Notify(0), false, false, F.SUSPENDED, Waiting, 2, false);
    ss, actions, s := Go(ss, actions, s, Work(1, Yields, 0));
  }

  // Worker 1 resumes the fiber while worker 0 is on its stack, before swap_fiber; no worker found it
  // woken when it was back.
  lemma {:induction false} ResumedBeforeOut() returns (ss: seq<State>, actions: seq<Action>, s: State)
    ensures Reached(ss, actions, s) && Undoubled(ss, actions) && s == Two([], [], Switch(0), Code(0), false, false, F.RUNNING, Awake, 2, false)
    ensures Touch(s.workers[0], 0) + Touch(s.workers[1], 0) == 2
  {
    ss, actions, s := WokenBeforeOut();
    ss, actions, s := Go(ss, actions, s, Work(1, Yields, 0));
    assert s == Two([], [], Switch(0), Took(Run(0)), false, false, F.SUSPENDED, Waiting, 1, false);
    ss, actions, s := Go(ss, actions, s, Work(1, Yields, 0));
    assert s == Two([], [], Switch(0), Raise(0), false, false, F.SUSPENDED, Waiting, 1, false);
    ss, actions, s := Go(ss, actions, s, Work(1, Yields, 0));
    assert s == Two([], [], Switch(0), Env(0), false, false, F.SUSPENDED, Waiting, 2, false);
    ss, actions, s := Go(ss, actions, s, Work(1, Yields, 0));
    assert s == Two([], [], Switch(0), Enter(0), false, false, F.SUSPENDED, Waiting, 2, false);
    ss, actions, s := Go(ss, actions, s, Work(1, Yields, 0));
  }

  // Or worker 0 switches out first, finds the fiber woken, and queues it a second time;
  lemma {:induction false} Doubled1() returns (ss: seq<State>, actions: seq<Action>, s: State)
    ensures Reached(ss, actions, s) && s == Two([Run(0), Run(0)], [], Pick, Pick, false, false, F.SUSPENDED, Waiting, 0, false)
  {
    ss, actions, s := WokenBeforeOut();
    ss, actions, s := Go(ss, actions, s, Work(0, Yields, 0));
    assert s == Two([Run(0)], [], Lower(0, true), Pick, false, false, F.SUSPENDED, Waiting, 1, false);
    ss, actions, s := Go(ss, actions, s, Work(0, Yields, 0));
    assert s == Two([Run(0)], [], Leave(0, true), Pick, false, false, F.SUSPENDED, Waiting, 0, false);
    ss, actions, s := Go(ss, actions, s, Work(0, Yields, 0));
    assert s == Two([Run(0)], [], Readd(0), Pick, false, false, F.SUSPENDED, Waiting, 0, false);
    ss, actions, s := Go(ss, actions, s, Work(0, Yields, 0));
  }

  lemma {:induction false} Doubled2() returns (ss: seq<State>, actions: seq<Action>, s: State)
    ensures Reached(ss, actions, s) && s == Two([], [], Raise(0), Raise(0), false, false, F.SUSPENDED, Waiting, 0, false)
  {
    ss, actions, s := Doubled1();
    ss, actions, s := Go(ss, actions, s, Work(0, Yields, 0));
    assert s == Two([Run(0)], [], Took(Run(0)), Pick, false, false, F.SUSPENDED, Waiting, 0, false);
    ss, actions, s := Go(ss, actions, s, Work(1, Yields, 0));
    assert s == Two([], [], Took(Run(0)), Took(Run(0)), false, false, F.SUSPENDED, Waiting, 0, false);
    ss, actions, s := Go(ss, actions, s, Work(0, Yields, 0));
    assert s == Two([], [], Raise(0), Took(Run(0)), false, false, F.SUSPENDED, Waiting, 0, false);
    ss, actions, s := Go(ss, actions, s, Work(1, Yields, 0));
  }

  lemma {:induction false} Doubled3() returns (ss: seq<State>, actions: seq<Action>, s: State)
    ensures Reached(ss, actions, s) && s == Two([], [], Enter(0), Enter(0), false, false, F.SUSPENDED, Waiting, 2, false)
  {
    ss, actions, s := Doubled2();
    ss, actions, s := Go(ss, actions, s, Work(0, Yields, 0));
    assert s == Two([], [], Env(0), Raise(0), false, false, F.SUSPENDED, Waiting, 1, false);
    ss, actions, s := Go(ss, actions, s, Work(1, Yields, 0));
    assert s == Two([], [], Env(0), Env(0), false, false, F.SUSPENDED, Waiting, 2, false);
    ss, actions, s := Go(ss, actions, s, Work(0, Yields, 0));
    assert s == Two([], [], Enter(0), Env(0), false, false, F.SUSPENDED, Waiting, 2, false);
    ss, actions, s := Go(ss, actions, s, Work(1, Yields, 0));
  }

  // two workers run one fiber at the same time.
  lemma {:induction false} TwoWorkersOneFiber() returns (ss: seq<State>, actions: seq<Action>, s: State)
    ensures Reached(ss, actions, s) && s == Two([], [], Code(0), Code(0), false, false, F.RUNNING, Awake, 2, false)
  {
    ss, actions, s := Doubled3();
    ss, actions, s := Go(ss, actions, s, Work(0, Yields, 0));
    assert s == Two([], [], Code(0), Enter(0), false, false, F.RUNNING, Awake, 2, false);
    ss, actions, s := Go(ss, actions, s, Work(1, Yields, 0));
  }

  // ---------------------------------------------------------------- a sleep that comes too late

  // Worker 0 has popped the only fiber when stop comes, so the idle fiber of worker 1 ends;
  lemma {:induction false} Drain1() returns (ss: seq<State>, actions: seq<Action>, s: State)
    ensures Reached(ss, actions, s) && Undoubled(ss, actions) && s == Two([], [], Took(Run(0)), NoTask, false, false, F.INITING, Awake, 0, true)
  {
    ss, actions, s := [Initial(2)], [], Initial(2);
    assert s.workers == [Pick, Pick] && s.idle == [false, false];
    ss, actions, s := Go(ss, actions, s, Spawn);
    assert s == Two([Run(0)], [], Pick, Pick, false, false, F.INITING, Awake, 0, false);
    ss, actions, s := Go(ss, actions, s, Work(0, Yields, 0));
    assert s == Two([], [], Took(Run(0)), Pick, false, false, F.INITING, Awake, 0, false);
    ss, actions, s := Go(ss, actions, s, Stop);
    assert s == Two([], [], Took(Run(0)), Pick, false, false, F.INITING, Awake, 0, true);
    ss, actions, s := Go(ss, actions, s, Work(1, Yields, 0));
  }

  lemma {:induction false} Drain2() returns (ss: seq<State>, actions: seq<Action>, s: State)
    ensures Reached(ss, actions, s) && Undoubled(ss, actions) && s == Two([], [], Raise(0), Pick, false, true, F.INITING, Awake, 0, true)
  {
    ss, actions, s := Drain1();
    ss, actions, s := Go(ss, actions, s, Work(1, Yields, 0));
    assert s == Two([], [], Took(Run(0)), Idle, false, false, F.INITING, Awake, 0, true);
    ss, actions, s := Go(ss, actions, s, Work(1, Yields, 0));
    assert s == Two([], [], Took(Run(0)), Ask, false, false, F.INITING, Awake, 0, true);
    ss, actions, s := Go(ss, actions, s, Work(1, Yields, 0));
    assert s == Two([], [], Took(Run(0)), Pick, false, true, F.INITING, Awake, 0, true);
    ss, actions, s := Go(ss, actions, s, Work(0, Yields, 0));
  }

  lemma {:induction false} Drain3() returns (ss: seq<State>, actions: seq<Action>, s: State)
    ensures Reached(ss, actions, s) && Undoubled(ss, actions) && s == Two([], [], Lower(0, false), Pick, false, true, F.SUSPENDED, Awake, 1, true)
  {
    ss, actions, s := Drain2();
    ss, actions, s := Go(ss, actions, s, Work(0, Yields, 0));
    assert s == Two([], [], Env(0), Pick, false, true, F.INITING, Awake, 1, true);
    ss, actions, s := Go(ss, actions, s, Work(0, Yields, 0));
    assert s == Two([], [], Enter(0), Pick, false, true, F.INITING, Awake, 1, true);
    ss, actions, s := Go(ss, actions, s, Work(0, Yields, 0));
    assert s == Two([], [], Code(0), Pick, false, true, F.RUNNING, Awake, 1, true);
    ss, actions, s := Go(ss, actions, s, Work(0, Yields, 0));
  }

  // the fiber yields, and is in the hands of worker 1 when the idle fiber of worker 0 ends too.
  lemma {:induction false} Drain4() returns (ss: seq<State>, actions: seq<Action>, s: State)
    ensures Reached(ss, actions, s) && Undoubled(ss, actions) && s == Two([], [], Pick, Took(Run(0)), false, true, F.SUSPENDED, Awake, 0, true)
  {
    ss, actions, s := Drain3();
    ss, actions, s := Go(ss, actions, s, Work(0, Yields, 0));
    assert s == Two([], [], Leave(0, false), Pick, false, true, F.SUSPENDED, Awake, 0, true);
    ss, actions, s := Go(ss, actions, s, Work(0, Yields, 0));
    assert s == Two([], [], Readd(0), Pick, false, true, F.SUSPENDED, Awake, 0, true);
    ss, actions, s := Go(ss, actions, s, Work(0, Yields, 0));
    assert s == Two([Run(0)], [], Pick, Pick, false, true, F.SUSPENDED, Awake, 0, true);
    ss, actions, s := Go(ss, actions, s, Work(1, Yields, 0));
  }

  lemma {:induction false} Drain5() returns (ss: seq<State>, actions: seq<Action>, s: State)
    ensures Reached(ss, actions, s) && Undoubled(ss, actions) && s == Two([], [], Pick, Took(Run(0)), true, true, F.SUSPENDED, Awake, 0, true)
  {
    ss, actions, s := Drain4();
    ss, actions, s := Go(ss, actions, s, Work(0, Yields, 0));
    assert s == Two([], [], NoTask, Took(Run(0)), false, true, F.SUSPENDED, Awake, 0, true);
    ss, actions, s := Go(ss, actions, s, Work(0, Yields, 0));
    assert s == Two([], [], Idle, Took(Run(0)), false, true, F.SUSPENDED, Awake, 0, true);
    ss, actions, s := Go(ss, actions, s, Work(0, Yields, 0));
    assert s == Two([], [], Ask, Took(Run(0)), false, true, F.SUSPENDED, Awake, 0, true);
    ss, actions, s := Go(ss, actions, s, Work(0, Yields, 0));
  }

  lemma {:induction false} Drain6() returns (ss: seq<State>, actions: seq<Action>, s: State)
    ensures Reached(ss, actions, s) && Undoubled(ss, actions) && s == Two([], [], Pick, Code(0), true, true, F.RUNNING, Awake, 1, true)
  {
    ss, actions, s := Drain5();
    ss, actions, s := Go(ss, actions, s, Work(1, Yields, 0));
    assert s == Two([], [], Pick, Raise(0), true, true, F.SUSPENDED, Awake, 0, true);
    ss, actions, s := Go(ss, actions, s, Work(1, Yields, 0));
    assert s == Two([], [], Pick, Env(0), true, true, F.SUSPENDED, Awake, 1, true);
    ss, actions, s := Go(ss, actions, s, Work(1, Yields, 0));
    assert s == Two([], [], Pick, Enter(0), true, true, F.SUSPENDED, Awake, 1, true);
    ss, actions, s := Go(ss, actions, s, Work(1, Yields, 0));
  }

  lemma {:induction false} Drain7() returns (ss: seq<State>, actions: seq<Action>, s: State)
    ensures Reached(ss, actions, s) && Undoubled(ss, actions) && s == Two([], [Armed(0, Some(0))], Pick, Lower(0, true), true, true, F.SLEEPING, Waiting, 1, true)
  {
    ss, actions, s := Drain6();
    ss, actions, s := Go(ss, actions, s, Work(1, Sleeps(0), 0));
    assert s == Two([], [Armed(0, Some(0))], Pick, Sleep(0), true, true, F.RUNNING, Waiting, 1, true);
    ss, actions, s := Go(ss, actions, s, Work(1, Yields, 0));
    assert s == Two([], [Armed(0, Some(0))], Pick, Mark(0), true, true, F.RUNNING, Waiting, 1, true);
    ss, actions, s := Go(ss, actions, s, Work(1, Yields, 0));
    assert s == Two([], [Armed(0, Some(0))], Pick, Switch(0), true, true, F.SLEEPING, Waiting, 1, true);
    ss, actions, s := Go(ss, actions, s, Work(1, Yields, 0));
  }

  lemma {:induction false} Drain8() returns (ss: seq<State>, actions: seq<Action>, s: State)
    ensures Reached(ss, actions, s) && Undoubled(ss, actions) && s == Two([], [Armed(0, Some(0))], Pick, Exit, true, true, F.SLEEPING, Waiting, 0, true)
  {
    ss, actions, s := Drain7();
    ss, actions, s := Go(ss, actions, s, Work(1, Yields, 0));
    assert s == Two([], [Armed(0, Some(0))], Pick, Leave(0, true), true, true, F.SLEEPING, Waiting, 0, true);
    ss, actions, s := Go(ss, actions, s, Work(1, Yields, 0));
    assert s == Two([], [Armed(0, Some(0))], Pick, Pick, true, true, F.SLEEPING, Waiting, 0, true);
    ss, actions, s := Go(ss, actions, s, Work(1, Yields, 0));
    assert s == Two([], [Armed(0, Some(0))], Pick, NoTask, true, true, F.SLEEPING, Waiting, 0, true);
    ss, actions, s := Go(ss, actions, s, Work(1, Yields, 0));
  }

  // It goes to sleep, both workers leave, and nobody expires its timer.
  lemma {:induction false} SleptTooLate() returns (ss: seq<State>, actions: seq<Action>, s: State)
    ensures Reached(ss, actions, s) && Undoubled(ss, actions) && s == Two([], [Armed(0, Some(0))], Exit, Exit, true, true, F.SLEEPING, Waiting, 0, true)
  {
    ss, actions, s := Drain8();
    ss, actions, s := Go(ss, actions, s, Work(0, Yields, 0));
    assert s == Two([], [Armed(0, Some(0))], NoTask, Exit, true, true, F.SLEEPING, Waiting, 0, true);
    ss, actions, s := Go(ss, actions, s, Work(0, Yields, 0));
  }
}
