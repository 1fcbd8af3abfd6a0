/**
 Who holds a sleeper. The protocol of `SleepProtocol` may queue a woken fiber twice; here is exactly
 when it does, and that otherwise every fiber has one holder at most: its armed timer, an entry on the
 way to or in the queue, or a worker that will resume, runs or will requeue it. A worker on its way out
 of a sleep is not a holder; that such a worker is alone in the fiber is the subject of `SleepExclusion`.
 */
module SleepOwnership {

  import opened Wrappers
  import opened SleepProtocol

  // ---------------------------------------------------------------- counting the holders

  function One(b: bool): nat {
    if b then 1 else 0
  }

  function InDue(due: seq<nat>, f: nat): nat {
    if due == [] then 0 else One(due[0] == f) + InDue(due[1..], f)
  }

  function InQueue(q: seq<Item>, f: nat): nat {
    if q == [] then 0 else One(q[0].fiber == f) + InQueue(q[1..], f)
  }

  function InArmed(armed: seq<Armed>, f: nat): nat {
    if armed == [] then 0 else One(armed[0].owner == Some(f)) + InArmed(armed[1..], f)
  }

  // A worker holds the fiber that it carries, runs, or has left other than by a sleep. After a sleep
  // was armed the timer holds the fiber, while its worker is on the way out.
  function Weight(pc: Pc, f: nat): nat {
    match pc
    case Took(item) => One(item.fiber == f)
    case Requeue(g) => One(g == f)
    case Raise(g) => One(g == f)
    case Env(g) => One(g == f)
    case Enter(g) => One(g == f)
    case Code(g) => One(g == f)
    case Lower(g, slept) => One(g == f && !slept)
    case Leave(g, slept) => One(g == f && !slept)
    case Readd(g) => One(g == f)
    case Wake(g) => One(g == f)
    case Unmark(g) => One(g == f)
    case Notify(g) => One(g == f)
    case Expiring(due) => InDue(due, f)
    case _ => 0
  }

  // Whether the worker runs the fiber while its state says RUNNING: its own code, and fiber_sleep up to
  // the store of SLEEPING.
  function Runs(pc: Pc, f: nat): nat {
    match pc
    case Code(g) => One(g == f)
    case Sleep(g) => One(g == f)
    case Mark(g) => One(g == f)
    case _ => 0
  }

  function Weights(ws: seq<Pc>, f: nat): nat {
    if ws == [] then 0 else Weights(ws[..|ws| - 1], f) + Weight(ws[|ws| - 1], f)
  }

  function Runners(ws: seq<Pc>, f: nat): nat {
    if ws == [] then 0 else Runners(ws[..|ws| - 1], f) + Runs(ws[|ws| - 1], f)
  }

  // Armed timers, entries of due lists, queue entries and workers that hold the fiber.
  function Holders(s: State, f: nat): nat {
    InArmed(s.armed, f) + InQueue(s.queue, f) + Weights(s.workers, f)
  }

  lemma {:induction false} DueIn(due: seq<nat>, f: nat)
    ensures InDue(due, f) > 0 <==> f in due
  {
    if due != [] {
      DueIn(due[1..], f);
      assert due == [due[0]] + due[1..];
    }
  }

  lemma {:induction false} PushQueue(q: seq<Item>, x: Item, f: nat)
    ensures InQueue(q + [x], f) == InQueue(q, f) + One(x.fiber == f)
  {
    if q == [] {
      assert q + [x] == [x] && [x][1..] == [];
    } else {
      assert (q + [x])[1..] == q[1..] + [x];
      PushQueue(q[1..], x, f);
    }
  }

  lemma {:induction false} PushTimer(armed: seq<Armed>, x: Armed, f: nat)
    ensures InArmed(armed + [x], f) == InArmed(armed, f) + One(x.owner == Some(f))
  {
    if armed == [] {
      assert armed + [x] == [x] && [x][1..] == [];
    } else {
      assert (armed + [x])[1..] == armed[1..] + [x];
      PushTimer(armed[1..], x, f);
    }
  }

  lemma {:induction false} ExpireTimers(armed: seq<Armed>, now: nat, f: nat)
    ensures InArmed(NotDue(armed, now), f) + InDue(DueOwners(armed, now), f) == InArmed(armed, f)
  {
    if armed != [] {
      ExpireTimers(armed[1..], now, f);
      var a := armed[0];
      if a.key > now {
        assert ([a] + NotDue(armed[1..], now))[1..] == NotDue(armed[1..], now);
      } else if a.owner.Some? {
        assert ([a.owner.value] + DueOwners(armed[1..], now))[1..] == DueOwners(armed[1..], now);
      }
    }
  }

  lemma {:induction false} CancelTimer(armed: seq<Armed>, key: nat, f: nat)
    ensures InArmed(Without(armed, key), f) <= InArmed(armed, f)
  {
    if armed != [] {
      CancelTimer(armed[1..], key, f);
      if armed[0].key != key {
        assert ([armed[0]] + Without(armed[1..], key))[1..] == Without(armed[1..], key);
      }
    }
  }

  lemma {:induction false} MoveWorker(ws: seq<Pc>, w: nat, pc: Pc, f: nat)
    requires w < |ws|
    ensures Weights(ws[w := pc], f) + Weight(ws[w], f) == Weights(ws, f) + Weight(pc, f)
    ensures Runners(ws[w := pc], f) + Runs(ws[w], f) == Runners(ws, f) + Runs(pc, f)
  {
    var n := |ws| - 1;
    if w == n {
      assert ws[w := pc][..n] == ws[..n];
    } else {
      assert ws[w := pc][..n] == ws[..n][w := pc];
      MoveWorker(ws[..n], w, pc, f);
    }
  }

  lemma {:induction false} OneWorker(ws: seq<Pc>, w: nat, f: nat)
    requires w < |ws|
    ensures Weight(ws[w], f) <= Weights(ws, f) && Runs(ws[w], f) <= Runners(ws, f)
  {
    if w < |ws| - 1 {
      OneWorker(ws[..|ws| - 1], w, f);
    }
  }

  lemma {:induction false} TwoWorkers(ws: seq<Pc>, w: nat, v: nat, f: nat)
    requires w < v < |ws|
    ensures Weight(ws[w], f) + Weight(ws[v], f) <= Weights(ws, f) && Runs(ws[w], f) + Runs(ws[v], f) <= Runners(ws, f)
  {
    var n := |ws| - 1;
    if v < n {
      TwoWorkers(ws[..n], w, v, f);
    } else {
      OneWorker(ws[..n], w, f);
    }
  }

  // ---------------------------------------------------------------- the invariant

  predicate Woken(st: F.FiberState) {
    st == F.READY || st == F.SUSPENDED
  }

  predicate Resumable(st: F.FiberState) {
    st == F.INITING || Woken(st)
  }

  // A worker, back from a fiber that slept, finds it woken already: it will queue it once more.
  predicate Doubles(s: State, a: Action) {
    && !s.aborted && a.Work? && a.w < |s.workers| && s.workers[a.w].Leave? && s.workers[a.w].slept
    && Woken(StateOf(s, s.workers[a.w].fiber))
  }

  // One holder at most; one worker runs the fiber exactly while it is RUNNING; one that may be
  // resumed has its holder; a timer is armed only for one that sleeps or is about to; one that has
  // ended is not in the queue.
  ghost predicate FiberOk(s: State, f: nat) {
    && Holders(s, f) <= 1
    && Runners(s.workers, f) == One(StateOf(s, f) == F.RUNNING)
    && (Resumable(StateOf(s, f)) ==> Holders(s, f) == 1)
    && (InArmed(s.armed, f) > 0 ==> StateOf(s, f) == F.RUNNING || StateOf(s, f) == F.SLEEPING)
    && (F.Finished(StateOf(s, f)) ==> InQueue(s.queue, f) == 0)
    && (f >= |s.fibers| ==> Holders(s, f) == 0)
  }

  predicate Sleepy(st: F.FiberState) {
    Resumable(st) || st == F.SLEEPING
  }

  // What a worker knows about the state of the fiber it holds.
  ghost predicate Knows(pc: Pc, s: State) {
    match pc
    case Took(item) => !F.Finished(StateOf(s, item.fiber))
    case Requeue(g) => !F.Finished(StateOf(s, g))
    case Raise(g) => Sleepy(StateOf(s, g))
    case Env(g) => Sleepy(StateOf(s, g))
    case Enter(g) => Sleepy(StateOf(s, g))
    case Lower(g, slept) => slept || Woken(StateOf(s, g)) || F.Finished(StateOf(s, g))
    case Leave(g, slept) => slept || Woken(StateOf(s, g)) || F.Finished(StateOf(s, g))
    case Readd(g) => Woken(StateOf(s, g))
    case Wake(g) => !F.Finished(StateOf(s, g))
    case Unmark(g) => StateOf(s, g) == F.SLEEPING
    case Notify(g) => !F.Finished(StateOf(s, g))
    case Expiring(due) => forall k | 0 <= k < |due| :: !F.Finished(StateOf(s, due[k]))
    case _ => true
  }

  ghost predicate KnowsAt(s: State, w: nat) {
    w < |s.workers| && Knows(s.workers[w], s)
  }

  ghost predicate Exclusive(s: State) {
    && !s.aborted
    && (forall f: nat :: FiberOk(s, f))
    && (forall w: nat | w < |s.workers| :: KnowsAt(s, w))
  }

  // ---------------------------------------------------------------- how a step keeps it

  // Worker `w` and its share of the holders: itself, the timers and the queue.
  function Share(armed: seq<Armed>, queue: seq<Item>, pc: Pc, f: nat): nat {
    InArmed(armed, f) + InQueue(queue, f) + Weight(pc, f)
  }

  lemma {:induction false} ShareMoves(s: State, w: nat, choice: Choice, now: nat, f: nat)
    requires w < |s.workers|
    ensures var pc, s' := s.workers[w], Move(s, Work(w, choice, now));
            var pc' := Next(s, w, pc, choice, now);
            && s'.workers == s.workers[w := pc']
            && Holders(s', f) + Share(s.armed, s.queue, pc, f) == Holders(s, f) + Share(s'.armed, s'.queue, pc', f)
            && Runners(s'.workers, f) + Runs(pc, f) == Runners(s.workers, f) + Runs(pc', f)
  {
    EffectRest(s, w, s.workers[w], choice, now);
    MoveWorker(s.workers, w, Next(s, w, s.workers[w], choice, now), f);
  }

  // The fiber is dropped: it has ended, or its sleep was refused a timer.
  predicate Drops(s: State, pc: Pc, choice: Choice) {
    match pc
    case Took(item) => item.Run? && F.Finished(StateOf(s, item.fiber))
    case Code(g) => choice.Sleeps? && HasKey(s.armed, choice.key)
    case Leave(g, slept) => !slept && !Woken(StateOf(s, g))
    case _ => false
  }

  // The check after a sleep makes a holder out of nothing.
  predicate Adds(s: State, pc: Pc) {
    pc.Leave? && pc.slept && Woken(StateOf(s, pc.fiber))
  }

  // Otherwise a step hands on what its worker holds, to the queue, to a timer or to itself.
  lemma {:induction false} ShareKept(s: State, w: nat, pc: Pc, choice: Choice, now: nat, f: nat)
    ensures var s', pc' := Effect(s, w, pc, choice, now), Next(s, w, pc, choice, now);
            Share(s'.armed, s'.queue, pc', f) + One(Drops(s, pc, choice) && Weight(pc, f) > 0)
            == Share(s.armed, s.queue, pc, f) + One(Adds(s, pc) && pc.fiber == f)
  {
    if pc.Requeue? || pc.Readd? || pc.Notify? {
      PushQueue(s.queue, Run(pc.fiber), f);
    } else if pc.Code? || pc.Poll? || pc.Expiring? {
      ShareHandedOn(s, w, pc, choice, now, f);
    } else {
      ShareStays(s, w, pc, choice, now, f);
    }
  }

  lemma {:induction false} ShareHandedOn(s: State, w: nat, pc: Pc, choice: Choice, now: nat, f: nat)
    requires pc.Code? || pc.Poll? || pc.Expiring?
    ensures var s', pc' := Effect(s, w, pc, choice, now), Next(s, w, pc, choice, now);
            Share(s'.armed, s'.queue, pc', f) + One(Drops(s, pc, choice) && Weight(pc, f) > 0) == Share(s.armed, s.queue, pc, f)
  {
    if pc.Poll? {
      ExpireTimers(s.armed, now, f);
    } else if pc.Expiring? {
      if pc.due != [] {
        PushQueue(s.queue, Callback(pc.due[0]), f);
      }
    } else {
      ShareOfCode(s, w, pc.fiber, choice, now, f);
    }
  }

  lemma {:induction false} ShareOfCode(s: State, w: nat, g: nat, choice: Choice, now: nat, f: nat)
    ensures var s', pc' := Effect(s, w, Code(g), choice, now), Next(s, w, Code(g), choice, now);
            Share(s'.armed, s'.queue, pc', f) + One(Drops(s, Code(g), choice) && g == f) == Share(s.armed, s.queue, Code(g), f)
  {
    match choice
    case Sleeps(key) => PushTimer(s.armed, Armed(key, Some(g)), f);
    case Yields =>
    case Finishes =>
  }

  lemma {:induction false} ShareStays(s: State, w: nat, pc: Pc, choice: Choice, now: nat, f: nat)
    requires !(pc.Requeue? || pc.Readd? || pc.Notify? || pc.Code? || pc.Poll? || pc.Expiring?)
    ensures var s', pc' := Effect(s, w, pc, choice, now), Next(s, w, pc, choice, now);
            Share(s'.armed, s'.queue, pc', f) + One(Drops(s, pc, choice) && Weight(pc, f) > 0)
            == Share(s.armed, s.queue, pc, f) + One(Adds(s, pc) && pc.fiber == f)
  {
  }

  // What the invariant says of the fiber that worker `w` is about.
  lemma {:induction false} WorkerFiber(s: State, w: nat, g: nat)
    requires Exclusive(s) && w < |s.workers|
    ensures FiberOk(s, g) && KnowsAt(s, w)
    ensures Weight(s.workers[w], g) > 0 ==> g < |s.fibers| && InArmed(s.armed, g) == 0 && InQueue(s.queue, g) == 0 && Holders(s, g) == 1
    ensures Runs(s.workers[w], g) > 0 ==> g < |s.fibers| && StateOf(s, g) == F.RUNNING
  {
    assert FiberOk(s, g) && KnowsAt(s, w);
    OneWorker(s.workers, w, g);
  }

  // The state that a step gives to fiber `f`.
  lemma {:induction false} StateAfter(s: State, w: nat, pc: Pc, choice: Choice, now: nat, f: nat)
    ensures var st := StateOf(Effect(s, w, pc, choice, now), f);
            st == (if f >= |s.fibers| then StateOf(s, f)
                   else if pc == Enter(f) && !F.Finished(StateOf(s, f)) then F.RUNNING
                   else if pc == Code(f) && choice.Yields? then F.SUSPENDED
                   else if pc == Code(f) && choice.Finishes? then F.TERMINATED
                   else if pc == Mark(f) then F.SLEEPING
                   else if pc == Unmark(f) then F.SUSPENDED
                   else StateOf(s, f))
  {
  }

  // Which timers a step leaves.
  lemma {:induction false} ArmedAfter(s: State, w: nat, pc: Pc, choice: Choice, now: nat, f: nat)
    ensures InArmed(Effect(s, w, pc, choice, now).armed, f) <= InArmed(s.armed, f) + One(pc == Code(f) && choice.Sleeps?)
  {
    if pc.Poll? {
      ExpireTimers(s.armed, now, f);
    } else if pc.Code? && choice.Sleeps? {
      PushTimer(s.armed, Armed(choice.key, Some(pc.fiber)), f);
    }
  }

  lemma {:induction false} RunnersKept(s: State, w: nat, choice: Choice, now: nat, f: nat)
    requires Exclusive(s) && w < |s.workers|
    ensures var s' := Move(s, Work(w, choice, now)); Runners(s'.workers, f) == One(StateOf(s', f) == F.RUNNING)
  {
    WorkerFiber(s, w, f);
    EffectRest(s, w, s.workers[w], choice, now);
    MoveWorker(s.workers, w, Next(s, w, s.workers[w], choice, now), f);
    StateAfter(s, w, s.workers[w], choice, now, f);
    RunsAfter(s, w, s.workers[w], choice, now, f);
  }

  // A worker begins to run a fiber as it makes it RUNNING, and ends as it stores another state.
  lemma {:induction false} RunsAfter(s: State, w: nat, pc: Pc, choice: Choice, now: nat, f: nat)
    requires Runs(pc, f) > 0 ==> f < |s.fibers| && StateOf(s, f) == F.RUNNING
    ensures Runs(Next(s, w, pc, choice, now), f) ==
            if pc == Enter(f) then One(!F.Finished(StateOf(s, f)))
            else if pc == Code(f) then One(choice.Sleeps?)
            else if pc == Mark(f) then 0 else Runs(pc, f)
  {
  }

  lemma {:induction false} HoldersKept(s: State, w: nat, choice: Choice, now: nat, f: nat)
    requires Exclusive(s) && w < |s.workers|
    ensures var s' := Move(s, Work(w, choice, now));
            && Holders(s', f) <= Holders(s, f) + One(Adds(s, s.workers[w]) && s.workers[w].fiber == f)
            && Holders(s', f) >= Holders(s, f) + One(Adds(s, s.workers[w]) && s.workers[w].fiber == f) - One(Drops(s, s.workers[w], choice) && Weight(s.workers[w], f) > 0)
  {
    ShareMoves(s, w, choice, now, f);
    ShareKept(s, w, s.workers[w], choice, now, f);
  }

  // Nothing that has ended gets into the queue.
  lemma {:induction false} QueueKept(s: State, w: nat, choice: Choice, now: nat, f: nat)
    requires Exclusive(s) && w < |s.workers|
    ensures var s' := Effect(s, w, s.workers[w], choice, now); F.Finished(StateOf(s', f)) ==> InQueue(s'.queue, f) == 0
  {
    var pc := s.workers[w];
    WorkerFiber(s, w, f);
    StateAfter(s, w, pc, choice, now, f);
    if pc.Requeue? || pc.Readd? || pc.Notify? {
      PushQueue(s.queue, Run(pc.fiber), f);
    } else if pc.Expiring? && pc.due != [] {
      PushQueue(s.queue, Callback(pc.due[0]), f);
    }
  }

  lemma {:induction false} FiberKept(s: State, w: nat, choice: Choice, now: nat, f: nat)
    requires Exclusive(s) && w < |s.workers| && !Doubles(s, Work(w, choice, now))
    ensures FiberOk(Move(s, Work(w, choice, now)), f)
  {
    WorkerFiber(s, w, f);
    EffectRest(s, w, s.workers[w], choice, now);
    HoldersKept(s, w, choice, now, f);
    RunnersKept(s, w, choice, now, f);
    StateAfter(s, w, s.workers[w], choice, now, f);
    ArmedAfter(s, w, s.workers[w], choice, now, f);
    QueueKept(s, w, choice, now, f);
  }

  // The state of a fiber that worker `v` holds does not change under it, but for the store of SLEEPING.
  lemma {:induction false} HeldState(s: State, w: nat, choice: Choice, now: nat, v: nat, g: nat)
    requires Exclusive(s) && w < |s.workers| && v < |s.workers| && v != w && Weight(s.workers[v], g) > 0
    ensures var st := StateOf(Effect(s, w, s.workers[w], choice, now), g);
            st == StateOf(s, g) || (StateOf(s, g) == F.RUNNING && st == F.SLEEPING)
  {
    WorkerFiber(s, w, g);
    WorkerFiber(s, v, g);
    if w < v {
      TwoWorkers(s.workers, w, v, g);
    } else {
      TwoWorkers(s.workers, v, w, g);
    }
    StateAfter(s, w, s.workers[w], choice, now, g);
  }

  lemma {:induction false} KnowledgeKept(s: State, w: nat, choice: Choice, now: nat, v: nat)
    requires Exclusive(s) && w < |s.workers| && v < |s.workers| && v != w
    ensures KnowsAt(Move(s, Work(w, choice, now)), v)
  {
    var pc, other := s.workers[w], s.workers[v];
    EffectRest(s, w, pc, choice, now);
    assert KnowsAt(s, v);
    if other.Expiring? {
      forall k | 0 <= k < |other.due|
        ensures !F.Finished(StateOf(Effect(s, w, pc, choice, now), other.due[k]))
      {
        DueCounts(other.due, k);
        HeldState(s, w, choice, now, v, other.due[k]);
      }
    } else if other.Took? {
      HeldState(s, w, choice, now, v, other.item.fiber);
    } else if other.Requeue? || other.Raise? || other.Env? || other.Enter? || other.Readd? || other.Wake? || other.Unmark?
              || other.Notify? || (other.Lower? && !other.slept) || (other.Leave? && !other.slept) {
      HeldState(s, w, choice, now, v, other.fiber);
    }
  }

  lemma {:induction false} DueCounts(due: seq<nat>, k: nat)
    requires k < |due|
    ensures InDue(due, due[k]) > 0
  {
    if k > 0 {
      DueCounts(due[1..], k - 1);
    }
  }

  lemma {:induction false} ArmedCounts(armed: seq<Armed>, now: nat, k: nat)
    requires k < |DueOwners(armed, now)|
    ensures InArmed(armed, DueOwners(armed, now)[k]) > 0
  {
    DueCounts(DueOwners(armed, now), k);
    ExpireTimers(armed, now, DueOwners(armed, now)[k]);
  }

  lemma {:induction false} KnowledgeGained(s: State, w: nat, choice: Choice, now: nat)
    requires Exclusive(s) && w < |s.workers| && !Doubles(s, Work(w, choice, now))
    ensures var s' := Move(s, Work(w, choice, now)); !s'.aborted && KnowsAt(s', w)
  {
    var pc := s.workers[w];
    EffectRest(s, w, pc, choice, now);
    if pc.Pick? || pc.Poll? || pc.Expiring? || pc.Took? || pc.NoTask? || pc.Idle? || pc.Ask? || pc.Exit? {
      GainedIdly(s, w, choice, now);
    } else {
      GainedOn(s, w, choice, now, pc.fiber);
    }
    SameKnowledge(Next(s, w, pc, choice, now), Effect(s, w, pc, choice, now), Move(s, Work(w, choice, now)));
  }

  lemma {:induction false} SameKnowledge(pc: Pc, s: State, s': State)
    requires s'.fibers == s.fibers
    ensures Knows(pc, s') <==> Knows(pc, s)
  {
  }

  lemma {:induction false} GainedIdly(s: State, w: nat, choice: Choice, now: nat)
    requires Exclusive(s) && w < |s.workers|
    requires var pc := s.workers[w]; pc.Pick? || pc.Poll? || pc.Expiring? || pc.Took? || pc.NoTask? || pc.Idle? || pc.Ask? || pc.Exit?
    ensures !Effect(s, w, s.workers[w], choice, now).aborted
    ensures Knows(Next(s, w, s.workers[w], choice, now), Effect(s, w, s.workers[w], choice, now))
  {
    var pc := s.workers[w];
    assert KnowsAt(s, w);
    if pc.Pick? {
      if s.queue != [] {
        assert FiberOk(s, s.queue[0].fiber);
      }
    } else if pc.Poll? {
      DueLive(s, now);
    } else if pc.Took? {
      WorkerFiber(s, w, pc.item.fiber);
    } else if pc.Expiring? {
      KnowsTail(s, pc.due);
    }
  }

  lemma {:induction false} DueLive(s: State, now: nat)
    requires Exclusive(s)
    ensures forall k | 0 <= k < |DueOwners(s.armed, now)| :: !F.Finished(StateOf(s, DueOwners(s.armed, now)[k]))
  {
    var due := DueOwners(s.armed, now);
    forall k | 0 <= k < |due|
      ensures !F.Finished(StateOf(s, due[k]))
    {
      ArmedCounts(s.armed, now, k);
      assert FiberOk(s, due[k]);
    }
  }

  lemma KnowsTail(s: State, due: seq<nat>)
    requires forall k | 0 <= k < |due| :: !F.Finished(StateOf(s, due[k]))
    ensures due != [] ==> forall k | 0 <= k < |due| - 1 :: !F.Finished(StateOf(s, due[1..][k]))
  {
  }

  lemma {:induction false} GainedOn(s: State, w: nat, choice: Choice, now: nat, g: nat)
    requires Exclusive(s) && w < |s.workers| && !Doubles(s, Work(w, choice, now))
    requires var pc := s.workers[w];
             !(pc.Pick? || pc.Poll? || pc.Took? || pc.Expiring? || pc.NoTask? || pc.Idle? || pc.Ask? || pc.Exit?) && pc.fiber == g
    ensures !Effect(s, w, s.workers[w], choice, now).aborted
    ensures Knows(Next(s, w, s.workers[w], choice, now), Effect(s, w, s.workers[w], choice, now))
  {
    assert KnowsAt(s, w);
    WorkerFiber(s, w, g);
    StateAfter(s, w, s.workers[w], choice, now, g);
  }

  lemma {:induction false} WorkExclusive(s: State, w: nat, choice: Choice, now: nat)
    requires Exclusive(s) && w < |s.workers| && !Doubles(s, Work(w, choice, now))
    ensures Exclusive(Move(s, Work(w, choice, now)))
  {
    var s' := Move(s, Work(w, choice, now));
    forall f: nat
      ensures FiberOk(s', f)
    {
      FiberKept(s, w, choice, now, f);
    }
    KnowledgeGained(s, w, choice, now);
    EffectRest(s, w, s.workers[w], choice, now);
    forall v: nat | v < |s'.workers|
      ensures KnowsAt(s', v)
    {
      if v != w {
        KnowledgeKept(s, w, choice, now, v);
      }
    }
  }

  // Timers of others come and go, a key is cancelled, a fiber is added.
  lemma {:induction false} OutsideExclusive(s: State, a: Action)
    requires Exclusive(s) && !a.Work?
    ensures Exclusive(Move(s, a))
  {
    var s' := Move(s, a);
    forall f: nat
      ensures FiberOk(s', f)
    {
      assert FiberOk(s, f);
      match a
      case Arm(key) => PushTimer(s.armed, Armed(key, None), f);
      case Cancel(key) => CancelTimer(s.armed, key, f);
      case Spawn => PushQueue(s.queue, Run(|s.fibers|), f);
      case Stop =>
    }
    forall w: nat | w < |s'.workers|
      ensures KnowsAt(s', w)
    {
      assert KnowsAt(s, w);
      OutsideKnows(s, a, w);
    }
  }

  // A fiber that is added does not change the states that workers know.
  lemma {:induction false} OutsideKnows(s: State, a: Action, w: nat)
    requires Exclusive(s) && !a.Work? && w < |s.workers|
    ensures KnowsAt(Move(s, a), w)
  {
    var pc, s' := s.workers[w], Move(s, a);
    assert KnowsAt(s, w);
    forall g | Weight(pc, g) > 0
      ensures StateOf(s', g) == StateOf(s, g)
    {
      WorkerFiber(s, w, g);
    }
    if pc.Expiring? {
      forall k | 0 <= k < |pc.due|
        ensures !F.Finished(StateOf(s', pc.due[k]))
      {
        DueCounts(pc.due, k);
      }
    } else if pc.Took? {
      assert Weight(pc, pc.item.fiber) > 0;
    } else if !pc.Pick? && !pc.Poll? && !pc.NoTask? && !pc.Idle? && !pc.Ask? && !pc.Exit? {
      assert Weight(pc, pc.fiber) > 0 ==> StateOf(s', pc.fiber) == StateOf(s, pc.fiber);
    }
  }

  lemma {:induction false} StepExclusive(s: State, a: Action)
    requires Exclusive(s) && !Doubles(s, a)
    ensures Exclusive(Step(s, a))
  {
    if a.Work? {
      if a.w < |s.workers| {
        WorkExclusive(s, a.w, a.choice, a.now);
      }
    } else {
      OutsideExclusive(s, a);
    }
  }

  // The check that finds a sleeper woken gives it a second holder.
  lemma {:induction false} DoubleHeld(s: State, a: Action)
    requires Exclusive(s) && Doubles(s, a)
    ensures Holders(Step(s, a), s.workers[a.w].fiber) == 2
  {
    var f := s.workers[a.w].fiber;
    assert FiberOk(s, f);
    HoldersKept(s, a.w, a.choice, a.now, f);
  }

  lemma {:induction false} NobodyYet(n: nat, f: nat)
    ensures Weights(seq(n, _ => Pick), f) == 0 && Runners(seq(n, _ => Pick), f) == 0
  {
    if n > 0 {
      NobodyYet(n - 1, f);
      assert seq(n, _ => Pick)[..n - 1] == seq(n - 1, _ => Pick);
    }
  }

  lemma {:induction false} InitialExclusive(n: nat)
    ensures Exclusive(Initial(n))
  {
    forall f: nat
      ensures FiberOk(Initial(n), f)
    {
      NobodyYet(n, f);
    }
  }

  // ---------------------------------------------------------------- every run

  ghost predicate Undoubled(ss: seq<State>, actions: seq<Action>) {
    |ss| == |actions| + 1 && forall i | 0 <= i < |actions| :: !Doubles(ss[i], actions[i])
  }

  ghost predicate OneHolder(s: State) {
    forall f: nat :: Holders(s, f) <= 1
  }

  lemma {:induction false} RunExclusive(ss: seq<State>, actions: seq<Action>, n: nat, i: nat)
    requires IsRun(ss, actions) && ss[0] == Initial(n) && i <= |actions|
    requires forall j | 0 <= j < i :: !Doubles(ss[j], actions[j])
    ensures Exclusive(ss[i])
  {
    if i == 0 {
      InitialExclusive(n);
    } else {
      RunExclusive(ss, actions, n, i - 1);
      assert ss[i] == Step(ss[i - 1], actions[i - 1]);
      StepExclusive(ss[i - 1], actions[i - 1]);
    }
  }

  // In every run, every fiber has one holder at most in all states if and only if no worker, back from
  // a fiber that slept, finds it woken already and queues it a second time.
  lemma {:induction false} OneHolderExactly(ss: seq<State>, actions: seq<Action>, n: nat)
    requires IsRun(ss, actions) && ss[0] == Initial(n)
    ensures (forall i | 0 <= i <= |actions| :: OneHolder(ss[i])) <==> Undoubled(ss, actions)
  {
    if Undoubled(ss, actions) {
      forall i | 0 <= i <= |actions|
        ensures OneHolder(ss[i])
      {
        RunExclusive(ss, actions, n, i);
        assert forall f: nat :: FiberOk(ss[i], f) ==> Holders(ss[i], f) <= 1;
      }
    } else {
      var j :| 0 <= j < |actions| && Doubles(ss[j], actions[j]);
      var k := FirstDouble(ss, actions, j);
      RunExclusive(ss, actions, n, k);
      DoubleHeld(ss[k], actions[k]);
      assert !OneHolder(ss[k + 1]);
    }
  }

  lemma {:induction false} FirstDouble(ss: seq<State>, actions: seq<Action>, j: nat) returns (k: nat)
    requires |ss| == |actions| + 1 && j < |actions| && Doubles(ss[j], actions[j])
    ensures k <= j && Doubles(ss[k], actions[k]) && forall i | 0 <= i < k :: !Doubles(ss[i], actions[i])
  {
    if i :| 0 <= i < j && Doubles(ss[i], actions[i]) {
      k := FirstDouble(ss, actions, i);
    } else {
      k := j;
    }
  }

  // Until then nothing aborts, and no two workers hold a fiber, or run it while its state says RUNNING. A
  // worker that has stored SLEEPING and is not out yet is not counted here.
  lemma {:induction false} OneWorkerRuns(ss: seq<State>, actions: seq<Action>, n: nat, i: nat, w: nat, v: nat, f: nat)
    requires IsRun(ss, actions) && ss[0] == Initial(n) && i <= |actions| && Undoubled(ss, actions)
    requires w < v < |ss[i].workers|
    ensures !ss[i].aborted
    ensures Runs(ss[i].workers[w], f) + Runs(ss[i].workers[v], f) <= One(StateOf(ss[i], f) == F.RUNNING)
    ensures Weight(ss[i].workers[w], f) + Weight(ss[i].workers[v], f) <= 1
  {
    RunExclusive(ss, actions, n, i);
    assert FiberOk(ss[i], f);
    TwoWorkers(ss[i].workers, w, v, f);
  }
}
