/**
 One worker in a fiber, with sleepers. A fiber that sleeps arms its timer before it has switched out.
 If the timer fires in between, another worker can resume the fiber while the first is still on its
 stack; here is that this is the only way.
 */
module SleepExclusion {

  import opened SleepProtocol
  import opened SleepOwnership

  // ---------------------------------------------------------------- who touches a fiber

  // The worker is in the fiber's fiber_sleep, or on its way out of it.
  function Out(pc: Pc, f: nat): nat {
    match pc
    case Sleep(g) => One(g == f)
    case Mark(g) => One(g == f)
    case Switch(g) => One(g == f)
    case Lower(g, slept) => One(g == f && slept)
    case Leave(g, slept) => One(g == f && slept)
    case _ => 0
  }

  function Outs(ws: seq<Pc>, f: nat): nat {
    if ws == [] then 0 else Outs(ws[..|ws| - 1], f) + Out(ws[|ws| - 1], f)
  }

  // Queue entries for the fiber or its callback, and workers that hold it or are in it. An armed timer
  // touches nothing.
  function Touching(s: State, f: nat): nat {
    InQueue(s.queue, f) + Weights(s.workers, f) + Outs(s.workers, f)
  }

  // The timer of a sleeper expires while its worker is still on the way out.
  predicate Early(s: State, a: Action, f: nat) {
    && !s.aborted && a.Work? && a.w < |s.workers| && s.workers[a.w] == Poll
    && f in DueOwners(s.armed, a.now) && Outs(s.workers, f) > 0
  }

  lemma {:induction false} MoveOut(ws: seq<Pc>, w: nat, pc: Pc, f: nat)
    requires w < |ws|
    ensures Outs(ws[w := pc], f) + Out(ws[w], f) == Outs(ws, f) + Out(pc, f)
  {
    var n := |ws| - 1;
    if w == n {
      assert ws[w := pc][..n] == ws[..n];
    } else {
      assert ws[w := pc][..n] == ws[..n][w := pc];
      MoveOut(ws[..n], w, pc, f);
    }
  }

  lemma {:induction false} OneOut(ws: seq<Pc>, w: nat, f: nat)
    requires w < |ws|
    ensures Out(ws[w], f) <= Outs(ws, f)
  {
    if w < |ws| - 1 {
      OneOut(ws[..|ws| - 1], w, f);
    }
  }

  lemma {:induction false} TwoOut(ws: seq<Pc>, w: nat, v: nat, f: nat)
    requires w < v < |ws|
    ensures Out(ws[w], f) + Out(ws[v], f) <= Outs(ws, f)
  {
    var n := |ws| - 1;
    if v < n {
      TwoOut(ws[..n], w, v, f);
    } else {
      OneOut(ws[..n], w, f);
    }
  }

  // How much two workers touch a fiber together.
  function Touch(pc: Pc, f: nat): nat {
    Weight(pc, f) + Out(pc, f)
  }

  lemma {:induction false} TwoTouch(s: State, w: nat, v: nat, f: nat)
    requires w < |s.workers| && v < |s.workers| && w != v
    ensures Touch(s.workers[w], f) + Touch(s.workers[v], f) <= Touching(s, f)
  {
    if w < v {
      TwoWorkers(s.workers, w, v, f);
      TwoOut(s.workers, w, v, f);
    } else {
      TwoWorkers(s.workers, v, w, f);
      TwoOut(s.workers, v, w, f);
    }
  }

  // ---------------------------------------------------------------- how a step changes it

  // The part of worker `w`, and of the queue.
  function Part(queue: seq<Item>, pc: Pc, f: nat): nat {
    InQueue(queue, f) + Touch(pc, f)
  }

  lemma {:induction false} PartMoves(s: State, w: nat, choice: Choice, now: nat, f: nat)
    requires w < |s.workers|
    ensures var pc, s' := s.workers[w], Move(s, Work(w, choice, now));
            var pc' := Next(s, w, pc, choice, now);
            Touching(s', f) + Part(s.queue, pc, f) == Touching(s, f) + Part(s'.queue, pc', f)
  {
    var pc' := Next(s, w, s.workers[w], choice, now);
    EffectRest(s, w, s.workers[w], choice, now);
    MoveWorker(s.workers, w, pc', f);
    MoveOut(s.workers, w, pc', f);
  }

  // Only the expiry of a timer adds to it.
  lemma {:induction false} PartKept(s: State, w: nat, pc: Pc, choice: Choice, now: nat, f: nat)
    ensures var s', pc' := Effect(s, w, pc, choice, now), Next(s, w, pc, choice, now);
            Part(s'.queue, pc', f) <= Part(s.queue, pc, f) + if pc.Poll? then InDue(DueOwners(s.armed, now), f) else 0
  {
    if pc.Requeue? || pc.Readd? || pc.Notify? {
      PushQueue(s.queue, Run(pc.fiber), f);
    } else if pc.Expiring? {
      if pc.due != [] {
        PushQueue(s.queue, Callback(pc.due[0]), f);
      }
    } else {
      PartStays(s, w, pc, choice, now, f);
    }
  }

  lemma {:induction false} PartStays(s: State, w: nat, pc: Pc, choice: Choice, now: nat, f: nat)
    requires !(pc.Requeue? || pc.Readd? || pc.Notify? || pc.Expiring?)
    ensures var s', pc' := Effect(s, w, pc, choice, now), Next(s, w, pc, choice, now);
            Part(s'.queue, pc', f) <= Part(s.queue, pc, f) + if pc.Poll? then InDue(DueOwners(s.armed, now), f) else 0
  {
  }

  // ---------------------------------------------------------------- the invariant

  // A worker on its way out of a sleep left the fiber SLEEPING.
  predicate Asleep(pc: Pc, s: State) {
    match pc
    case Switch(g) => StateOf(s, g) == F.SLEEPING
    case Lower(g, slept) => slept ==> StateOf(s, g) == F.SLEEPING
    case Leave(g, slept) => slept ==> StateOf(s, g) == F.SLEEPING
    case _ => true
  }

  ghost predicate AsleepAt(s: State, w: nat) {
    w < |s.workers| && Asleep(s.workers[w], s)
  }

  ghost predicate OneTouches(s: State, f: nat) {
    Touching(s, f) <= 1
  }

  ghost predicate Apart(s: State) {
    && Exclusive(s)
    && (forall f: nat :: OneTouches(s, f))
    && (forall w: nat | w < |s.workers| :: AsleepAt(s, w))
  }

  lemma {:induction false} TouchKept(s: State, w: nat, choice: Choice, now: nat, f: nat)
    requires Apart(s) && w < |s.workers| && !Early(s, Work(w, choice, now), f)
    ensures OneTouches(Move(s, Work(w, choice, now)), f)
  {
    assert OneTouches(s, f) && FiberOk(s, f);
    PartMoves(s, w, choice, now, f);
    PartKept(s, w, s.workers[w], choice, now, f);
    if s.workers[w].Poll? {
      DueIn(DueOwners(s.armed, now), f);
      ExpireTimers(s.armed, now, f);
    }
  }

  // The state under a worker that is on its way out does not change.
  lemma {:induction false} AsleepKept(s: State, w: nat, choice: Choice, now: nat, v: nat)
    requires Apart(s) && w < |s.workers| && v < |s.workers|
    ensures AsleepAt(Move(s, Work(w, choice, now)), v)
  {
    EffectRest(s, w, s.workers[w], choice, now);
    assert AsleepAt(s, v);
    if v == w {
      AsleepGained(s, w, choice, now);
    } else if s.workers[v].Switch? || s.workers[v].Lower? || s.workers[v].Leave? {
      var g := s.workers[v].fiber;
      assert OneTouches(s, g);
      TwoTouch(s, w, v, g);
      StateAfter(s, w, s.workers[w], choice, now, g);
    }
  }

  lemma {:induction false} AsleepGained(s: State, w: nat, choice: Choice, now: nat)
    requires Apart(s) && w < |s.workers|
    ensures AsleepAt(Move(s, Work(w, choice, now)), w)
  {
    var pc := s.workers[w];
    EffectRest(s, w, pc, choice, now);
    assert AsleepAt(s, w);
    if pc.Sleep? || pc.Mark? || pc.Switch? || pc.Lower? {
      WorkerFiber(s, w, pc.fiber);
      StateAfter(s, w, pc, choice, now, pc.fiber);
    }
  }

  // A worker on its way out finds the fiber asleep, so it does not queue it a second time.
  lemma {:induction false} ApartUndoubled(s: State, a: Action)
    requires Apart(s)
    ensures !Doubles(s, a)
  {
    if a.Work? && a.w < |s.workers| {
      assert AsleepAt(s, a.w);
    }
  }

  lemma {:induction false} StepApart(s: State, a: Action)
    requires Apart(s) && forall f: nat :: !Early(s, a, f)
    ensures Apart(Step(s, a))
  {
    ApartUndoubled(s, a);
    StepExclusive(s, a);
    if a.Work? && a.w < |s.workers| {
      WorkApart(s, a.w, a.choice, a.now);
    } else {
      OutsideApart(s, a);
    }
  }

  lemma {:induction false} WorkApart(s: State, w: nat, choice: Choice, now: nat)
    requires Apart(s) && w < |s.workers| && forall f: nat :: !Early(s, Work(w, choice, now), f)
    ensures var s' := Move(s, Work(w, choice, now));
            (forall f: nat :: OneTouches(s', f)) && (forall v: nat | v < |s'.workers| :: AsleepAt(s', v))
  {
    var s' := Move(s, Work(w, choice, now));
    EffectRest(s, w, s.workers[w], choice, now);
    forall f: nat
      ensures OneTouches(s', f)
    {
      TouchKept(s, w, choice, now, f);
    }
    forall v: nat | v < |s'.workers|
      ensures AsleepAt(s', v)
    {
      AsleepKept(s, w, choice, now, v);
    }
  }

  lemma {:induction false} OutsideApart(s: State, a: Action)
    requires Apart(s) && !(a.Work? && a.w < |s.workers|)
    ensures var s' := Move(s, a);
            (forall f: nat :: OneTouches(s', f)) && (forall v: nat | v < |s'.workers| :: AsleepAt(s', v))
  {
    var s' := Move(s, a);
    forall f: nat
      ensures OneTouches(s', f)
    {
      assert OneTouches(s, f) && FiberOk(s, f);
      if a.Spawn? {
        PushQueue(s.queue, Run(|s.fibers|), f);
        if f == |s.fibers| {
          NobodyOut(s, f);
        }
      }
    }
    forall v: nat | v < |s'.workers|
      ensures AsleepAt(s', v)
    {
      assert AsleepAt(s, v);
    }
  }

  // Nobody is in a fiber that does not exist yet.
  lemma {:induction false} NobodyOut(s: State, f: nat)
    requires Apart(s) && f >= |s.fibers|
    ensures Outs(s.workers, f) == 0
  {
    forall w: nat | w < |s.workers|
      ensures Out(s.workers[w], f) == 0
    {
      assert AsleepAt(s, w);
      WorkerFiber(s, w, f);
    }
    NoOuts(s.workers, f);
  }

  lemma {:induction false} NoOuts(ws: seq<Pc>, f: nat)
    requires forall w: nat | w < |ws| :: Out(ws[w], f) == 0
    ensures Outs(ws, f) == 0
  {
    if ws != [] {
      var n := |ws| - 1;
      forall w: nat | w < n
        ensures Out(ws[..n][w], f) == 0
      {
        assert ws[..n][w] == ws[w];
      }
      NoOuts(ws[..n], f);
    }
  }

  lemma {:induction false} InitialApart(n: nat)
    ensures Apart(Initial(n))
  {
    InitialExclusive(n);
    forall f: nat
      ensures OneTouches(Initial(n), f)
    {
      NobodyYet(n, f);
      NoOuts(Initial(n).workers, f);
    }
  }

  // An early expiry makes two that touch the fiber: its worker, and the one that expired the timer.
  lemma {:induction false} EarlyTouches(s: State, a: Action, f: nat)
    requires Early(s, a, f)
    ensures Touching(Step(s, a), f) >= 2
  {
    var due := DueOwners(s.armed, a.now);
    DueIn(due, f);
    EffectRest(s, a.w, Poll, a.choice, a.now);
    var ws := s.workers[a.w := Expiring(due)];
    MoveOut(s.workers, a.w, Expiring(due), f);
    OneWorker(ws, a.w, f);
  }

  // ---------------------------------------------------------------- every run

  ghost predicate InTime(ss: seq<State>, actions: seq<Action>) {
    |ss| == |actions| + 1 && forall i | 0 <= i < |actions| :: NoneEarly(ss[i], actions[i])
  }

  ghost predicate NoneEarly(s: State, a: Action) {
    forall f: nat :: !Early(s, a, f)
  }

  ghost predicate AllApart(s: State) {
    forall f: nat :: OneTouches(s, f)
  }

  lemma {:induction false} RunApart(ss: seq<State>, actions: seq<Action>, n: nat, i: nat)
    requires IsRun(ss, actions) && ss[0] == Initial(n) && i <= |actions| && InTime(ss, actions)
    ensures Apart(ss[i])
  {
    if i == 0 {
      InitialApart(n);
    } else {
      RunApart(ss, actions, n, i - 1);
      assert ss[i] == Step(ss[i - 1], actions[i - 1]) && NoneEarly(ss[i - 1], actions[i - 1]);
      StepApart(ss[i - 1], actions[i - 1]);
    }
  }

  // In every run: at most one queue entry or worker touches a fiber, in all states, if and only if no
  // sleeper's timer expires before its worker is out of it.
  lemma {:induction false} OneTouchExactly(ss: seq<State>, actions: seq<Action>, n: nat)
    requires IsRun(ss, actions) && ss[0] == Initial(n)
    ensures (forall i | 0 <= i <= |actions| :: AllApart(ss[i])) <==> InTime(ss, actions)
  {
    if InTime(ss, actions) {
      forall i | 0 <= i <= |actions|
        ensures AllApart(ss[i])
      {
        RunApart(ss, actions, n, i);
      }
    } else {
      var i :| 0 <= i < |actions| && !NoneEarly(ss[i], actions[i]);
      var f: nat :| Early(ss[i], actions[i], f);
      EarlyTouches(ss[i], actions[i], f);
      assert !OneTouches(ss[i + 1], f);
      assert !AllApart(ss[i + 1]);
    }
  }

  // So without such an expiry no two workers are in a fiber, hold it or are on the way out of it;
  // nobody queues it twice, and nothing aborts.
  lemma {:induction false} OneWorkerIn(ss: seq<State>, actions: seq<Action>, n: nat, i: nat, w: nat, v: nat, f: nat)
    requires IsRun(ss, actions) && ss[0] == Initial(n) && i <= |actions| && InTime(ss, actions)
    requires w < |ss[i].workers| && v < |ss[i].workers| && w != v
    ensures Touch(ss[i].workers[w], f) + Touch(ss[i].workers[v], f) <= 1
    ensures !ss[i].aborted && (i < |actions| ==> !Doubles(ss[i], actions[i]))
  {
    RunApart(ss, actions, n, i);
    assert OneTouches(ss[i], f);
    TwoTouch(ss[i], w, v, f);
    if i < |actions| {
      ApartUndoubled(ss[i], actions[i]);
    }
  }
}
