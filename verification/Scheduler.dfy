/**
 The scheduler (sylar/scheduler.h, sylar/scheduler.cpp) as an interleaved step system.

 Workers run `schedule` with a program counter each; every access to shared memory is one step, so
 popping a task and raising the active count are different steps. The results hold for every
 interleaving, every number of workers and every number of fibers.
 */
module Scheduling {

  import opened Wrappers
  import F = Fibers

  type FiberState = F.FiberState

  // A queue entry: `pin` is thread_, None for -1.
  datatype Task = Task(pin: Option<nat>, fiber: nat)

  predicate Eligible(t: Task, me: nat) {
    t.pin == None || t.pin == Some(me)
  }

  // ---------------------------------------------------------------- the task list

  // The index of the first entry that thread `me` may take, or |q|.
  function FirstEligible(q: seq<Task>, me: nat): (k: nat)
    ensures k <= |q|
    ensures k < |q| ==> Eligible(q[k], me)
    ensures forall i | 0 <= i < k :: !Eligible(q[i], me)
  {
    if q == [] || Eligible(q[0], me) then 0
    else
      var k := FirstEligible(q[1..], me);
      assert forall i | 1 <= i < k + 1 :: q[i] == q[1..][i - 1];
      k + 1
  }

  function Remove(q: seq<Task>, k: nat): seq<Task>
    requires k < |q|
  {
    q[..k] + q[k + 1..]
  }

  // `r` is `q` without its entry `k`, the others in their order.
  predicate Without(q: seq<Task>, k: nat, r: seq<Task>) {
    && k < |q| && |r| == |q| - 1
    && (forall i | 0 <= i < k :: r[i] == q[i])
    && (forall i | k <= i < |r| :: r[i] == q[i + 1])
  }

  lemma RemoveIs(q: seq<Task>, k: nat)
    requires k < |q|
    ensures Without(q, k, Remove(q, k))
  {
    var r := Remove(q, k);
    assert forall i | k <= i < |r| :: r[i] == q[k + 1..][i - k];
  }

  class TaskList {
    var tasks: seq<Task>

    constructor ()
      ensures tasks == []
    {
      tasks := [];
    }

    method AddFiber(fiber: nat, pin: Option<nat>)
      modifies this
      ensures tasks == old(tasks) + [Task(pin, fiber)]
    {
      tasks := tasks + [Task(pin, fiber)];
    }

    // The locked part of the scheduling loop: takes the first entry this thread may run, keeps the
    // others in order, and says whether another thread should be told of what is left.
    method Pick(me: nat) returns (task: Option<Task>, tickleOthers: bool)
      modifies this
      ensures var k := FirstEligible(old(tasks), me);
              if k < |old(tasks)| then task == Some(old(tasks)[k]) && tasks == Remove(old(tasks), k)
              else task == None && tasks == old(tasks)
      ensures task.Some? ==> var k := FirstEligible(old(tasks), me);
                             && k < |old(tasks)| && |tasks| == |old(tasks)| - 1
                             && (forall i | 0 <= i < k :: tasks[i] == old(tasks)[i])
                             && (forall i | k <= i < |tasks| :: tasks[i] == old(tasks)[i + 1])
      ensures tickleOthers <==> tasks != []
    {
      task, tickleOthers := None, false;
      var it := 0;
      while it < |tasks|
        invariant 0 <= it <= |tasks| && tasks == old(tasks) && task == None
        invariant forall i | 0 <= i < it :: !Eligible(tasks[i], me)
        invariant tickleOthers <==> it > 0
      {
        if tasks[it].pin != None && tasks[it].pin != Some(me) {
          tickleOthers := true;
          it := it + 1;
          continue;
        }
        task := Some(tasks[it]);
        RemoveIs(tasks, it);
        tasks := tasks[..it] + tasks[it + 1..];
        break;
      }
      if it != |tasks| {
        tickleOthers := true;
      }
    }
  }

  // ---------------------------------------------------------------- the step system

  datatype Phase = INIT | RUNNING | STOPPING

  // The program counter of a worker inside schedule.
  datatype Pc =
    | Pick
    | Took(fiber: nat)     // popped an entry, has not looked at the fiber
    | Requeue(fiber: nat)  // saw it RUNNING
    | Raise(fiber: nat)    // before active_thread_count_.fetch_add
    | Enter(fiber: nat)    // before fiber_resume
    | Inside(fiber: nat)   // the fiber's own code
    | Lower(fiber: nat)    // before active_thread_count_.fetch_sub
    | Check(fiber: nat)    // before the look at the state it came back with
    | Readd(fiber: nat)    // before the add_fiber that follows
    | NoTask               // in the else branch
    | Idle                 // the idle fiber is about to ask can_stop
    | Exit                 // left schedule

  datatype Worker = Worker(pc: Pc, idleDone: bool)

  datatype State = State(
    queue: seq<Task>,
    phase: Phase,
    joined: bool,  // stop has emptied threads_
    active: nat,
    workers: seq<Worker>,
    fibers: seq<FiberState>
  )

  // What a fiber does with its time slice.
  datatype Choice = Yields | Finishes(threw: bool) | Spawns(pin: Option<nat>)

  datatype Action =
    | Add(pin: Option<nat>)  // add_fiber from outside
    | Start
    | Stop
    | Join
    | Work(w: nat, choice: Choice)

  function Initial(n: nat): State {
    State([], INIT, false, 0, seq(n, _ => Worker(Pick, false)), [])
  }

  function Push(s: State, pin: Option<nat>): State {
    s.(queue := s.queue + [Task(pin, |s.fibers|)], fibers := s.fibers + [F.INITING])
  }

  predicate CanStop(s: State) {
    s.phase == STOPPING && s.joined && s.active == 0 && s.queue == []
  }

  function Goto(s: State, w: nat, pc: Pc): State
    requires w < |s.workers|
  {
    s.(workers := s.workers[w := s.workers[w].(pc := pc)])
  }

  function SetFiber(s: State, f: nat, st: FiberState): State {
    if f < |s.fibers| then s.(fibers := s.fibers[f := st]) else s
  }

  function StateOf(s: State, f: nat): FiberState {
    if f < |s.fibers| then s.fibers[f] else F.TERMINATED
  }

  function WorkStep(s: State, w: nat, choice: Choice): State
    requires w < |s.workers|
  {
    match s.workers[w].pc
    case Pick =>
      var k := FirstEligible(s.queue, w);
      if k < |s.queue| then Goto(s.(queue := Remove(s.queue, k)), w, Took(s.queue[k].fiber)) else Goto(s, w, NoTask)
    case Took(f) =>
      Goto(s, w, if F.Finished(StateOf(s, f)) then NoTask else if StateOf(s, f) == F.RUNNING then Requeue(f) else Raise(f))
    case Requeue(f) => Goto(s.(queue := s.queue + [Task(None, f)]), w, Pick)
    case Raise(f) => Goto(s.(active := s.active + 1), w, Enter(f))
    case Enter(f) => Goto(SetFiber(s, f, F.RUNNING), w, Inside(f))
    case Inside(f) =>
      (match choice
       case Yields => Goto(SetFiber(s, f, F.SUSPENDED), w, Lower(f))
       case Finishes(threw) => Goto(SetFiber(s, f, if threw then F.EXCEPTION else F.TERMINATED), w, Lower(f))
       case Spawns(pin) => Push(s, pin))
    case Lower(f) => Goto(s.(active := if s.active > 0 then s.active - 1 else 0), w, Check(f))
    case Check(f) => Goto(s, w, if StateOf(s, f) in {F.READY, F.SUSPENDED} then Readd(f) else Pick)
    case Readd(f) => Goto(s.(queue := s.queue + [Task(None, f)]), w, Pick)
    case NoTask => Goto(s, w, if s.workers[w].idleDone then Exit else Idle)
    case Idle => s.(workers := s.workers[w := Worker(Pick, s.workers[w].idleDone || CanStop(s))])
    case Exit => s
  }

  // Outside code adds only before stop; start and stop act once; workers run once started.
  predicate Enabled(s: State, a: Action) {
    match a
    case Add(_) => s.phase != STOPPING
    case Start => s.phase == INIT
    case Stop => s.phase == RUNNING
    case Join => s.phase == STOPPING
    case Work(w, _) => w < |s.workers| && s.phase != INIT
  }

  function Step(s: State, a: Action): State
    requires Enabled(s, a)
  {
    match a
    case Add(pin) => Push(s, pin)
    case Start => s.(phase := RUNNING)
    case Stop => s.(phase := STOPPING)
    case Join => s.(joined := true)
    case Work(w, choice) => WorkStep(s, w, choice)
  }

  // ---------------------------------------------------------------- ownership

  function Held(pc: Pc): Option<nat> {
    match pc
    case Pick => None
    case Took(f) => Some(f)
    case Requeue(f) => Some(f)
    case Raise(f) => Some(f)
    case Enter(f) => Some(f)
    case Inside(f) => Some(f)
    case Lower(f) => Some(f)
    case Check(f) => Some(f)
    case Readd(f) => Some(f)
    case NoTask => None
    case Idle => None
    case Exit => None
  }

  predicate Queued(q: seq<Task>, f: nat) {
    exists i :: 0 <= i < |q| && q[i].fiber == f
  }

  predicate Distinct(q: seq<Task>) {
    forall i, j | 0 <= i < j < |q| :: q[i].fiber != q[j].fiber
  }

  predicate Runnable(st: FiberState) {
    st == F.INITING || st == F.SUSPENDED
  }

  // What a worker knows about the fiber it holds.
  predicate PcOk(pc: Pc, fibers: seq<FiberState>) {
    match pc
    case Took(f) => f < |fibers| && Runnable(fibers[f])
    case Requeue(f) => false
    case Raise(f) => f < |fibers| && Runnable(fibers[f])
    case Enter(f) => f < |fibers| && Runnable(fibers[f])
    case Inside(f) => f < |fibers| && fibers[f] == F.RUNNING
    case Lower(f) => f < |fibers| && (fibers[f] == F.SUSPENDED || F.Finished(fibers[f]))
    case Check(f) => f < |fibers| && (fibers[f] == F.SUSPENDED || F.Finished(fibers[f]))
    case Readd(f) => f < |fibers| && fibers[f] == F.SUSPENDED
    case _ => true
  }

  ghost predicate WorkerIn(s: State, w: nat) {
    && w < |s.workers| && PcOk(s.workers[w].pc, s.fibers)
    && (Held(s.workers[w].pc).Some? ==> !Queued(s.queue, Held(s.workers[w].pc).value))
  }

  ghost predicate Apart(s: State, w: nat, v: nat) {
    w < |s.workers| && v < |s.workers| && w != v && Held(s.workers[w].pc).Some? ==> Held(s.workers[w].pc) != Held(s.workers[v].pc)
  }

  ghost predicate HeldBySome(s: State, f: nat) {
    exists w: nat :: w < |s.workers| && Held(s.workers[w].pc) == Some(f)
  }

  // Every fiber that is not finished is in the queue or in a worker's hands.
  ghost predicate Placed(s: State, f: nat) {
    f < |s.fibers| && (F.Finished(s.fibers[f]) || Queued(s.queue, f) || HeldBySome(s, f))
  }

  ghost predicate Ownership(s: State) {
    && Distinct(s.queue)
    && (forall i | 0 <= i < |s.queue| :: s.queue[i].fiber < |s.fibers| && Runnable(s.fibers[s.queue[i].fiber]))
    && (forall w: nat | w < |s.workers| :: WorkerIn(s, w))
    && (forall w: nat, v: nat | w < |s.workers| && v < |s.workers| :: Apart(s, w, v))
    && (forall f: nat | f < |s.fibers| :: Placed(s, f))
  }

  // ---------------------------------------------------------------- how the step keeps it

  // A worker takes or leaves nothing, or gives up a finished fiber, and queue and states stay.
  lemma MoveKeeps(s: State, s': State, w: nat)
    requires Ownership(s) && w < |s.workers| && |s'.workers| == |s.workers|
    requires s'.queue == s.queue && s'.fibers == s.fibers
    requires forall v: nat | v < |s.workers| && v != w :: s'.workers[v].pc == s.workers[v].pc
    requires PcOk(s'.workers[w].pc, s.fibers)
    requires var h := Held(s.workers[w].pc);
             Held(s'.workers[w].pc) == h || (Held(s'.workers[w].pc) == None && F.Finished(StateOf(s, h.value)))
    ensures Ownership(s')
  {
    forall v: nat | v < |s'.workers|
      ensures WorkerIn(s', v)
    {
      assert WorkerIn(s, v);
    }
    forall u: nat, v: nat | u < |s'.workers| && v < |s'.workers|
      ensures Apart(s', u, v)
    {
      assert Apart(s, u, v);
    }
    forall f: nat | f < |s'.fibers|
      ensures Placed(s', f)
    {
      assert Placed(s, f);
      if HeldBySome(s, f) {
        var v: nat :| v < |s.workers| && Held(s.workers[v].pc) == Some(f);
        assert v != w || Held(s'.workers[w].pc) == Some(f) || F.Finished(s.fibers[f]);
        if v != w || Held(s'.workers[w].pc) == Some(f) {
          assert Held(s'.workers[v].pc) == Some(f);
        }
      }
    }
  }

  lemma RemoveQueued(q: seq<Task>, k: nat, f: nat)
    requires k < |q| && Distinct(q)
    ensures Distinct(Remove(q, k)) && !Queued(Remove(q, k), q[k].fiber)
    ensures f != q[k].fiber ==> (Queued(Remove(q, k), f) <==> Queued(q, f))
  {
    var r := Remove(q, k);
    assert forall i | 0 <= i < |r| :: r[i] == if i < k then q[i] else q[i + 1];
    if f != q[k].fiber && Queued(q, f) {
      var i :| 0 <= i < |q| && q[i].fiber == f;
      assert r[if i < k then i else i - 1].fiber == f;
    }
  }

  lemma AppendQueued(q: seq<Task>, t: Task, f: nat)
    ensures Queued(q + [t], f) <==> Queued(q, f) || f == t.fiber
  {
    if Queued(q, f) {
      var i :| 0 <= i < |q| && q[i].fiber == f;
      assert (q + [t])[i].fiber == f;
    }
    if f == t.fiber {
      assert (q + [t])[|q|].fiber == f;
    }
  }

  lemma PickKeeps(s: State, s': State, w: nat, k: nat)
    requires Ownership(s) && w < |s.workers| && Held(s.workers[w].pc) == None && k < |s.queue|
    requires s' == Goto(s.(queue := Remove(s.queue, k)), w, Took(s.queue[k].fiber))
    ensures Ownership(s')
  {
    var f := s.queue[k].fiber;
    RemoveQueued(s.queue, k, f);
    forall v: nat | v < |s'.workers|
      ensures WorkerIn(s', v)
    {
      assert WorkerIn(s, v);
      if Held(s.workers[v].pc).Some? {
        RemoveQueued(s.queue, k, Held(s.workers[v].pc).value);
      }
    }
    forall u: nat, v: nat | u < |s'.workers| && v < |s'.workers|
      ensures Apart(s', u, v)
    {
      assert Apart(s, u, v) && WorkerIn(s, u) && WorkerIn(s, v);
      assert Queued(s.queue, f);
    }
    forall g: nat | g < |s'.fibers|
      ensures Placed(s', g)
    {
      assert Placed(s, g);
      RemoveQueued(s.queue, k, g);
      if g == f {
        assert Held(s'.workers[w].pc) == Some(g);
      } else if HeldBySome(s, g) {
        var v: nat :| v < |s.workers| && Held(s.workers[v].pc) == Some(g);
        assert Held(s'.workers[v].pc) == Some(g);
      }
    }
  }

  lemma ReaddKeeps(s: State, s': State, w: nat, f: nat)
    requires Ownership(s) && w < |s.workers| && s.workers[w].pc == Readd(f)
    requires s' == Goto(s.(queue := s.queue + [Task(None, f)]), w, Pick)
    ensures Ownership(s')
  {
    var t := Task(None, f);
    assert WorkerIn(s, w);
    forall v: nat | v < |s'.workers|
      ensures WorkerIn(s', v)
    {
      assert WorkerIn(s, v) && Apart(s, w, v);
      if Held(s.workers[v].pc).Some? {
        AppendQueued(s.queue, t, Held(s.workers[v].pc).value);
      }
    }
    forall u: nat, v: nat | u < |s'.workers| && v < |s'.workers|
      ensures Apart(s', u, v)
    {
      assert Apart(s, u, v);
    }
    forall g: nat | g < |s'.fibers|
      ensures Placed(s', g)
    {
      assert Placed(s, g);
      AppendQueued(s.queue, t, g);
      if g != f && HeldBySome(s, g) {
        var v: nat :| v < |s.workers| && Held(s.workers[v].pc) == Some(g);
        assert Held(s'.workers[v].pc) == Some(g);
      }
    }
  }

  // The state of a fiber changes only in the hands of its worker.
  lemma FiberKeeps(s: State, s': State, w: nat, f: nat, st: FiberState, pc: Pc)
    requires Ownership(s) && w < |s.workers| && Held(s.workers[w].pc) == Held(pc) == Some(f) && f < |s.fibers|
    requires s' == Goto(SetFiber(s, f, st), w, pc) && PcOk(pc, s'.fibers)
    ensures Ownership(s')
  {
    assert WorkerIn(s, w);
    forall i | 0 <= i < |s.queue|
      ensures s.queue[i].fiber != f
    {
    }
    forall v: nat | v < |s'.workers|
      ensures WorkerIn(s', v)
    {
      assert WorkerIn(s, v) && Apart(s, w, v);
    }
    forall u: nat, v: nat | u < |s'.workers| && v < |s'.workers|
      ensures Apart(s', u, v)
    {
      assert Apart(s, u, v);
    }
    forall g: nat | g < |s'.fibers|
      ensures Placed(s', g)
    {
      assert Placed(s, g);
      if g == f {
        assert Held(s'.workers[w].pc) == Some(g);
      } else if HeldBySome(s, g) {
        var v: nat :| v < |s.workers| && Held(s.workers[v].pc) == Some(g);
        assert Held(s'.workers[v].pc) == Some(g);
      }
    }
  }

  lemma PushKeeps(s: State, pin: Option<nat>)
    requires Ownership(s)
    ensures Ownership(Push(s, pin))
  {
    var s' := Push(s, pin);
    var t := Task(pin, |s.fibers|);
    forall v: nat | v < |s'.workers|
      ensures WorkerIn(s', v)
    {
      assert WorkerIn(s, v);
      if Held(s.workers[v].pc).Some? {
        AppendQueued(s.queue, t, Held(s.workers[v].pc).value);
      }
    }
    forall u: nat, v: nat | u < |s'.workers| && v < |s'.workers|
      ensures Apart(s', u, v)
    {
      assert Apart(s, u, v);
    }
    forall g: nat | g < |s'.fibers|
      ensures Placed(s', g)
    {
      AppendQueued(s.queue, t, g);
      if g < |s.fibers| {
        assert Placed(s, g);
        if HeldBySome(s, g) {
          var v: nat :| v < |s.workers| && Held(s.workers[v].pc) == Some(g);
          assert Held(s'.workers[v].pc) == Some(g);
        }
      }
    }
  }

  lemma WorkKeepsOwnership(s: State, w: nat, choice: Choice)
    requires Ownership(s) && w < |s.workers|
    ensures Ownership(WorkStep(s, w, choice))
  {
    var s' := WorkStep(s, w, choice);
    assert WorkerIn(s, w);
    match s.workers[w].pc
    case Pick =>
      var k := FirstEligible(s.queue, w);
      if k < |s.queue| {
        PickKeeps(s, s', w, k);
      } else {
        MoveKeeps(s, s', w);
      }
    case Enter(f) => FiberKeeps(s, s', w, f, F.RUNNING, Inside(f));
    case Inside(f) =>
      match choice {
        case Yields => FiberKeeps(s, s', w, f, F.SUSPENDED, Lower(f));
        case Finishes(threw) => FiberKeeps(s, s', w, f, if threw then F.EXCEPTION else F.TERMINATED, Lower(f));
        case Spawns(pin) => PushKeeps(s, pin);
      }
    case Readd(f) => ReaddKeeps(s, s', w, f);
    case Took(f) => MoveKeeps(s, s', w);
    case Raise(f) => MoveKeeps(s, s', w);
    case Lower(f) => MoveKeeps(s, s', w);
    case Check(f) => MoveKeeps(s, s', w);
    case NoTask => MoveKeeps(s, s', w);
    case Idle => MoveKeeps(s, s', w);
    case Exit =>
  }

  lemma StepKeepsOwnership(s: State, a: Action)
    requires Ownership(s) && Enabled(s, a)
    ensures Ownership(Step(s, a))
  {
    match a
    case Add(pin) => PushKeeps(s, pin);
    case Work(w, choice) => WorkKeepsOwnership(s, w, choice);
    case Start => SameKeeps(s, Step(s, a));
    case Stop => SameKeeps(s, Step(s, a));
    case Join => SameKeeps(s, Step(s, a));
  }

  lemma SameKeeps(s: State, s': State)
    requires Ownership(s) && s'.queue == s.queue && s'.fibers == s.fibers && s'.workers == s.workers
    ensures Ownership(s')
  {
    if s.workers != [] {
      assert WorkerIn(s, 0);
      MoveKeeps(s, s', 0);
    } else {
      forall f: nat | f < |s'.fibers|
        ensures Placed(s', f)
      {
        assert Placed(s, f);
      }
    }
  }

  // ---------------------------------------------------------------- shutting down

  // Workers that will not look at the queue again.
  ghost predicate Past(w: Worker) {
    w.pc == Exit || (w.pc == NoTask && w.idleDone)
  }

  ghost predicate AllPast(s: State) {
    forall w: nat | w < |s.workers| :: Past(s.workers[w])
  }

  // No worker will ever take an entry with this pin.
  ghost predicate Dead(pin: Option<nat>, workers: seq<Worker>) {
    pin.Some? && (pin.value < |workers| ==> Past(workers[pin.value]))
  }

  // The spawn of a fiber that is pinned to a worker that does not exist or has stopped looking.
  ghost predicate Late(s: State, a: Action) {
    && a.Work? && a.w < |s.workers| && s.workers[a.w].pc.Inside?
    && a.choice.Spawns? && Dead(a.choice.pin, s.workers)
  }

  ghost predicate IdleIn(s: State, w: nat) {
    && w < |s.workers|
    && (s.workers[w].pc == Exit ==> s.workers[w].idleDone)
    && (s.workers[w].idleDone ==> s.phase == STOPPING)
  }

  ghost predicate SomeIdle(s: State) {
    exists w: nat :: w < |s.workers| && s.workers[w].idleDone
  }

  ghost predicate Stuck(s: State) {
    exists i :: 0 <= i < |s.queue| && Dead(s.queue[i].pin, s.workers)
  }

  // A worker leaves only after its idle fiber has ended, and that only while stopping. Once all
  // are past the queue, it has no unpinned entry. An entry that nobody will take is there exactly
  // because a spawn was late, as soon as any idle fiber has ended.
  ghost predicate Shutdown(s: State, late: bool) {
    && s.workers != []
    && (forall w: nat | w < |s.workers| :: IdleIn(s, w))
    && (AllPast(s) ==> forall i | 0 <= i < |s.queue| :: s.queue[i].pin.Some?)
    && (late ==> Stuck(s))
    && (SomeIdle(s) && !late ==> !Stuck(s))
  }

  // What a step leaves as it was: everything but the worker `w` and the queue.
  ghost predicate Beside(s: State, s': State, w: nat) {
    && w < |s.workers| && |s'.workers| == |s.workers| && s'.phase == s.phase
    && forall v: nat | v < |s.workers| && v != w :: s'.workers[v] == s.workers[v]
  }

  lemma BesideIdle(s: State, s': State, w: nat)
    requires Beside(s, s', w) && (forall v: nat | v < |s.workers| :: IdleIn(s, v)) && IdleIn(s', w)
    ensures forall v: nat | v < |s'.workers| :: IdleIn(s', v)
  {
    forall v: nat | v < |s'.workers|
      ensures IdleIn(s', v)
    {
      assert IdleIn(s, v);
    }
  }

  // A worker moves, and stays past the queue if it was; the queue is as it was.
  lemma MoveShutdown(s: State, s': State, w: nat, late: bool)
    requires Shutdown(s, late) && Beside(s, s', w) && s'.queue == s.queue && IdleIn(s', w)
    requires Past(s'.workers[w]) <==> Past(s.workers[w])
    requires s'.workers[w].idleDone && !s.workers[w].idleDone ==> s.queue == []
    ensures Shutdown(s', late)
  {
    BesideIdle(s, s', w);
    if AllPast(s') {
      assert forall v: nat | v < |s.workers| :: Past(s'.workers[v]) ==> Past(s.workers[v]);
    }
    assert forall i | 0 <= i < |s.queue| :: Dead(s.queue[i].pin, s'.workers) <==> Dead(s.queue[i].pin, s.workers);
    if SomeIdle(s') && s.queue != [] {
      var v: nat :| v < |s'.workers| && s'.workers[v].idleDone;
      assert s.workers[v].idleDone;
    }
  }

  // A worker that still looks at the queue takes an entry out, or finds none for itself.
  lemma PickShutdown(s: State, w: nat, choice: Choice, late: bool)
    requires Shutdown(s, late) && w < |s.workers| && s.workers[w].pc == Pick
    ensures Shutdown(WorkStep(s, w, choice), late)
  {
    var s', k := WorkStep(s, w, choice), FirstEligible(s.queue, w);
    assert IdleIn(s, w);
    BesideIdle(s, s', w);
    assert SomeIdle(s') ==> SomeIdle(s);
    if k < |s.queue| {
      assert !Past(s'.workers[w]);
      TakeKeepsStuck(s, s', w, k);
    } else {
      assert forall i | 0 <= i < |s.queue| :: s.queue[i].pin.Some? && s.queue[i].pin.value != w;
      assert forall i | 0 <= i < |s.queue| :: Dead(s.queue[i].pin, s'.workers) <==> Dead(s.queue[i].pin, s.workers);
    }
  }

  lemma TakeKeepsStuck(s: State, s': State, w: nat, k: nat)
    requires Beside(s, s', w) && k < |s.queue| && Eligible(s.queue[k], w) && !Past(s.workers[w]) && !Past(s'.workers[w])
    requires s'.queue == Remove(s.queue, k)
    ensures Stuck(s') <==> Stuck(s)
  {
    assert forall i | 0 <= i < |s.queue| :: Dead(s.queue[i].pin, s'.workers) <==> Dead(s.queue[i].pin, s.workers);
    assert forall i | 0 <= i < |s'.queue| :: s'.queue[i] == s.queue[if i < k then i else i + 1];
    if i :| 0 <= i < |s.queue| && Dead(s.queue[i].pin, s.workers) {
      assert i != k;
      assert Dead(s'.queue[if i < k then i else i - 1].pin, s'.workers);
    }
  }

  // An entry comes in while worker `w` still looks at the queue.
  lemma PutShutdown(s: State, s': State, w: nat, t: Task, late: bool, late': bool)
    requires Shutdown(s, late) && Beside(s, s', w) && s'.queue == s.queue + [t]
    requires !Past(s.workers[w]) && !Past(s'.workers[w]) && s'.workers[w].idleDone == s.workers[w].idleDone
    requires s'.workers[w].pc != Exit && (late ==> late') && (late' ==> late || Dead(t.pin, s.workers))
    requires SomeIdle(s) && Dead(t.pin, s.workers) ==> late'
    ensures Shutdown(s', late')
  {
    assert IdleIn(s, w);
    BesideIdle(s, s', w);
    assert SomeIdle(s') ==> SomeIdle(s);
    assert forall pin :: Dead(pin, s'.workers) <==> Dead(pin, s.workers);
    assert s'.queue[|s.queue|] == t;
    if i :| 0 <= i < |s.queue| && Dead(s.queue[i].pin, s.workers) {
      assert Dead(s'.queue[i].pin, s'.workers);
    }
  }

  lemma WorkKeepsShutdown(s: State, w: nat, choice: Choice, late: bool)
    requires Ownership(s) && Shutdown(s, late) && w < |s.workers|
    ensures Shutdown(WorkStep(s, w, choice), late || Late(s, Work(w, choice)))
  {
    assert IdleIn(s, w) && WorkerIn(s, w);
    var s' := WorkStep(s, w, choice);
    match s.workers[w].pc
    case Pick => PickShutdown(s, w, choice, late);
    case Readd(f) => PutShutdown(s, s', w, Task(None, f), late, late);
    case Inside(f) =>
      if choice.Spawns? {
        PutShutdown(s, s', w, Task(choice.pin, |s.fibers|), late, late || Dead(choice.pin, s.workers));
      } else {
        MoveShutdown(s, s', w, late);
      }
    case Exit =>
    case _ => MoveShutdown(s, s', w, late);
  }

  lemma StepKeepsShutdown(s: State, a: Action, late: bool)
    requires Ownership(s) && Shutdown(s, late) && Enabled(s, a)
    ensures Shutdown(Step(s, a), late || Late(s, a))
  {
    assert IdleIn(s, 0);
    match a
    case Work(w, choice) => WorkKeepsShutdown(s, w, choice, late);
    case Add(pin) =>
      assert forall w: nat | w < |s.workers| :: IdleIn(s, w) ==> !s.workers[w].idleDone;
      PutShutdown(s, Step(s, a), 0, Task(pin, |s.fibers|), late, late);
    case Start => PhaseShutdown(s, Step(s, a), late);
    case Stop => PhaseShutdown(s, Step(s, a), late);
    case Join => PhaseShutdown(s, Step(s, a), late);
  }

  lemma PhaseShutdown(s: State, s': State, late: bool)
    requires Shutdown(s, late) && s'.queue == s.queue && s'.workers == s.workers && (s.phase == STOPPING ==> s'.phase == STOPPING)
    ensures Shutdown(s', late)
  {
    forall v: nat | v < |s.workers|
      ensures IdleIn(s', v)
    {
      assert IdleIn(s, v);
    }
  }

  // ---------------------------------------------------------------- the active count

  predicate Counted(pc: Pc) {
    pc.Enter? || pc.Inside? || pc.Lower?
  }

  function ActiveIn(ws: seq<Worker>): nat {
    if ws == [] then 0 else ActiveIn(ws[..|ws| - 1]) + if Counted(ws[|ws| - 1].pc) then 1 else 0
  }

  lemma {:induction false} ActiveUpdate(ws: seq<Worker>, w: nat, x: Worker)
    requires w < |ws|
    ensures ActiveIn(ws[w := x]) + (if Counted(ws[w].pc) then 1 else 0) == ActiveIn(ws) + if Counted(x.pc) then 1 else 0
  {
    var n := |ws| - 1;
    if w == n {
      assert ws[w := x][..n] == ws[..n];
    } else {
      assert ws[w := x][..n] == ws[..n][w := x];
      ActiveUpdate(ws[..n], w, x);
    }
  }

  // The worker that a step leaves in the place of `w`.
  function NextWorker(s: State, w: nat, choice: Choice): Worker
    requires w < |s.workers|
  {
    var s' := WorkStep(s, w, choice);
    if w < |s'.workers| then s'.workers[w] else s.workers[w]
  }

  lemma {:induction false} OneWorkerMoves(s: State, w: nat, choice: Choice)
    requires w < |s.workers|
    ensures WorkStep(s, w, choice).workers == s.workers[w := NextWorker(s, w, choice)]
  {
  }

  lemma {:induction false} ActiveMoves(s: State, w: nat, choice: Choice)
    requires w < |s.workers| && (Counted(s.workers[w].pc) ==> s.active > 0)
    ensures WorkStep(s, w, choice).active + (if Counted(s.workers[w].pc) then 1 else 0)
         == s.active + if Counted(NextWorker(s, w, choice).pc) then 1 else 0
  {
  }

  lemma {:induction false} ActivePositive(ws: seq<Worker>, w: nat)
    requires w < |ws| && Counted(ws[w].pc)
    ensures ActiveIn(ws) > 0
  {
    if w < |ws| - 1 {
      ActivePositive(ws[..|ws| - 1], w);
    }
  }

  lemma {:induction false} WorkKeepsActive(s: State, w: nat, choice: Choice)
    requires s.active == ActiveIn(s.workers) && w < |s.workers|
    ensures WorkStep(s, w, choice).active == ActiveIn(WorkStep(s, w, choice).workers)
  {
    if Counted(s.workers[w].pc) {
      ActivePositive(s.workers, w);
    }
    OneWorkerMoves(s, w, choice);
    ActiveMoves(s, w, choice);
    ActiveUpdate(s.workers, w, NextWorker(s, w, choice));
  }

  lemma {:induction false} ActiveZero(ws: seq<Worker>)
    requires forall w | 0 <= w < |ws| :: !Counted(ws[w].pc)
    ensures ActiveIn(ws) == 0
  {
    if ws != [] {
      ActiveZero(ws[..|ws| - 1]);
    }
  }

  // ---------------------------------------------------------------- every run

  // The state after the actions `acts`, if each was possible in its turn.
  function Run(n: nat, acts: seq<Action>): Option<State> {
    if acts == [] then Some(Initial(n))
    else
      var r := Run(n, acts[..|acts| - 1]);
      var a := acts[|acts| - 1];
      if r.Some? && Enabled(r.value, a) then Some(Step(r.value, a)) else None
  }

  // Some spawn of the run was late.
  ghost predicate LateIn(n: nat, acts: seq<Action>) {
    acts != [] &&
    (   LateIn(n, acts[..|acts| - 1])
     || var r := Run(n, acts[..|acts| - 1]); r.Some? && Late(r.value, acts[|acts| - 1]))
  }

  lemma {:induction false} RunOwnership(n: nat, acts: seq<Action>)
    requires Run(n, acts).Some?
    ensures Ownership(Run(n, acts).value)
  {
    if acts != [] {
      RunOwnership(n, acts[..|acts| - 1]);
      StepKeepsOwnership(Run(n, acts[..|acts| - 1]).value, acts[|acts| - 1]);
    }
  }

  lemma {:induction false} RunShutdown(n: nat, acts: seq<Action>)
    requires n > 0 && Run(n, acts).Some?
    ensures Shutdown(Run(n, acts).value, LateIn(n, acts))
  {
    if acts == [] {
      assert !Past(Initial(n).workers[0]);
    } else {
      RunShutdown(n, acts[..|acts| - 1]);
      RunOwnership(n, acts[..|acts| - 1]);
      StepKeepsShutdown(Run(n, acts[..|acts| - 1]).value, acts[|acts| - 1], LateIn(n, acts[..|acts| - 1]));
    }
  }

  lemma {:induction false} RunActive(n: nat, acts: seq<Action>)
    requires Run(n, acts).Some?
    ensures Run(n, acts).value.active == ActiveIn(Run(n, acts).value.workers)
  {
    if acts == [] {
      ActiveZero(Initial(n).workers);
    } else {
      RunActive(n, acts[..|acts| - 1]);
      var s, a := Run(n, acts[..|acts| - 1]).value, acts[|acts| - 1];
      if a.Work? {
        WorkKeepsActive(s, a.w, a.choice);
      }
    }
  }

  // The idle fiber of a worker ends exactly when stop has joined, the queue is empty, and no worker
  // is between the two changes of the active count.
  lemma {:induction false} IdleEnds(n: nat, acts: seq<Action>, w: nat, choice: Choice)
    requires Run(n, acts).Some? && w < |Run(n, acts).value.workers|
    requires Run(n, acts).value.workers[w] == Worker(Idle, false)
    ensures var s := Run(n, acts).value;
            var s' := WorkStep(s, w, choice);
            |s'.workers| == |s.workers| &&
            (s'.workers[w].idleDone <==> && s.phase == STOPPING && s.joined && s.queue == []
                                         && forall v | 0 <= v < |s.workers| :: !Counted(s.workers[v].pc))
  {
    var s := Run(n, acts).value;
    RunActive(n, acts);
    if v :| 0 <= v < |s.workers| && Counted(s.workers[v].pc) {
      ActivePositive(s.workers, v);
    } else {
      ActiveZero(s.workers);
    }
  }

  ghost predicate Drained(s: State) {
    s.queue == [] && forall f | 0 <= f < |s.fibers| :: F.Finished(s.fibers[f])
  }

  // Graceful drain: once every worker has left schedule, nothing is queued and every fiber that was
  // ever added has finished, if and only if no fiber was spawned for a worker that had stopped looking.
  lemma Drain(n: nat, acts: seq<Action>)
    requires n > 0 && Run(n, acts).Some?
    requires forall w | 0 <= w < |Run(n, acts).value.workers| :: Run(n, acts).value.workers[w].pc == Exit
    ensures Run(n, acts).value.active == 0 && Run(n, acts).value.phase == STOPPING
    ensures Drained(Run(n, acts).value) <==> !LateIn(n, acts)
  {
    RunOwnership(n, acts);
    RunShutdown(n, acts);
    RunActive(n, acts);
    ActiveZero(Run(n, acts).value.workers);
    DrainedAt(Run(n, acts).value, LateIn(n, acts));
  }

  lemma {:induction false} DrainedAt(s: State, late: bool)
    requires Ownership(s) && Shutdown(s, late) && forall w | 0 <= w < |s.workers| :: s.workers[w].pc == Exit
    ensures s.phase == STOPPING && (Drained(s) <==> !late)
  {
    assert IdleIn(s, 0) && AllPast(s) && SomeIdle(s);
    if s.queue != [] {
      assert s.queue[0].pin.Some? && Dead(s.queue[0].pin, s.workers);
      assert Stuck(s);
    }
    if !late {
      forall f: nat | f < |s.fibers|
        ensures F.Finished(s.fibers[f])
      {
        assert Placed(s, f);
      }
    }
  }

  // In particular it drains when fibers spawn unpinned ones only.
  lemma {:induction false} UnpinnedInTime(n: nat, acts: seq<Action>)
    requires forall i | 0 <= i < |acts| :: acts[i].Work? && acts[i].choice.Spawns? ==> acts[i].choice.pin == None
    ensures !LateIn(n, acts)
  {
    if acts != [] {
      UnpinnedInTime(n, acts[..|acts| - 1]);
    }
  }

  // Exclusive ownership: in every reachable state a live fiber is in exactly one place, so no two
  // workers ever run it, and set_env never finds a fiber that is RUNNING.
  lemma OnePlace(n: nat, acts: seq<Action>, f: nat)
    requires Run(n, acts).Some? && f < |Run(n, acts).value.fibers| && !F.Finished(Run(n, acts).value.fibers[f])
    ensures var s := Run(n, acts).value;
            && (Queued(s.queue, f) <==> !HeldBySome(s, f))
            && (forall i, j | 0 <= i < |s.queue| && 0 <= j < |s.queue| && s.queue[i].fiber == f == s.queue[j].fiber :: i == j)
            && (forall w, v | 0 <= w < |s.workers| && 0 <= v < |s.workers| &&
                              Held(s.workers[w].pc) == Some(f) && Held(s.workers[v].pc) == Some(f) :: w == v)
            && (forall w | 0 <= w < |s.workers| && s.workers[w].pc == Enter(f) :: s.fibers[f] != F.RUNNING)
  {
    RunOwnership(n, acts);
    var s := Run(n, acts).value;
    assert Placed(s, f);
    forall w: nat | w < |s.workers| && Held(s.workers[w].pc) == Some(f)
      ensures !Queued(s.queue, f) && (s.workers[w].pc == Enter(f) ==> s.fibers[f] != F.RUNNING)
    {
      assert WorkerIn(s, w);
    }
    forall w: nat, v: nat | w < |s.workers| && v < |s.workers| && Held(s.workers[w].pc) == Some(f) && Held(s.workers[v].pc) == Some(f)
      ensures w == v
    {
      assert Apart(s, w, v);
    }
  }

  // ---------------------------------------------------------------- turns

  // The entry of `f` stands before that of `g`.
  ghost predicate Ahead(q: seq<Task>, f: nat, g: nat) {
    exists i, j :: 0 <= i < j < |q| && q[i].fiber == f && q[j].fiber == g
  }

  // Every thread may take the entry of `f`.
  ghost predicate Open(q: seq<Task>, f: nat) {
    exists i :: 0 <= i < |q| && q[i] == Task(None, f)
  }

  // A step leaves the queue, puts one entry behind it, or takes out the first that its worker may run.
  lemma {:induction false} QueueSteps(s: State, a: Action) returns (k: nat)
    requires Enabled(s, a)
    ensures var q' := Step(s, a).queue;
            || q' == s.queue
            || (exists t :: q' == s.queue + [t])
            || (a.Work? && Without(s.queue, k, q') && Eligible(s.queue[k], a.w) && forall i | 0 <= i < k :: !Eligible(s.queue[i], a.w))
  {
    k := 0;
    if a.Work? && s.workers[a.w].pc == Pick {
      k := FirstEligible(s.queue, a.w);
      if k < |s.queue| {
        RemoveIs(s.queue, k);
      }
    }
  }

  lemma {:induction false} AheadBehind(q: seq<Task>, t: Task, f: nat, g: nat)
    requires Ahead(q, f, g)
    ensures Ahead(q + [t], f, g) && (Open(q, f) ==> Open(q + [t], f))
  {
    var i, j :| 0 <= i < j < |q| && q[i].fiber == f && q[j].fiber == g;
    assert (q + [t])[i].fiber == f && (q + [t])[j].fiber == g;
    if Open(q, f) {
      var m :| 0 <= m < |q| && q[m] == Task(None, f);
      assert (q + [t])[m] == Task(None, f);
    }
  }

  // What is neither `f` nor `g` goes out from between them.
  lemma {:induction false} AheadWithout(q: seq<Task>, k: nat, r: seq<Task>, f: nat, g: nat)
    requires Without(q, k, r) && Distinct(q) && Ahead(q, f, g) && q[k].fiber != f && q[k].fiber != g
    ensures Ahead(r, f, g) && (Open(q, f) ==> Open(r, f))
  {
    var i, j :| 0 <= i < j < |q| && q[i].fiber == f && q[j].fiber == g;
    var i', j' := if i < k then i else i - 1, if j < k then j else j - 1;
    assert r[i'] == q[i] && r[j'] == q[j];
    if Open(q, f) {
      var m :| 0 <= m < |q| && q[m] == Task(None, f);
      assert r[i'] == Task(None, f);
    }
  }

  lemma {:induction false} Gone(q: seq<Task>, k: nat, r: seq<Task>)
    requires Without(q, k, r) && Distinct(q)
    ensures !Queued(r, q[k].fiber)
  {
    forall i | 0 <= i < |r|
      ensures r[i].fiber != q[k].fiber
    {
      assert r[i] == q[if i < k then i else i + 1];
    }
  }

  // Two entries that a step leaves in the queue keep their order; and an entry is not taken before
  // one that stands ahead of it, unless that one is pinned.
  lemma {:induction false} StepKeepsTurns(s: State, a: Action, f: nat, g: nat)
    requires Ownership(s) && Enabled(s, a) && Ahead(s.queue, f, g)
    requires Queued(Step(s, a).queue, f) && (Queued(Step(s, a).queue, g) || Open(s.queue, f))
    ensures Ahead(Step(s, a).queue, f, g) && (Open(s.queue, f) ==> Open(Step(s, a).queue, f))
  {
    var q' := Step(s, a).queue;
    var k := QueueSteps(s, a);
    if q' != s.queue {
      if t :| q' == s.queue + [t] {
        AheadBehind(s.queue, t, f, g);
      } else {
        Gone(s.queue, k, q');
        if s.queue[k].fiber == g {
          assert false by { NotBefore(s.queue, a.w, k, f, g); }
        }
        AheadWithout(s.queue, k, q', f, g);
      }
    }
  }

  lemma {:induction false} NotBefore(q: seq<Task>, w: nat, k: nat, f: nat, g: nat)
    requires Distinct(q) && Ahead(q, f, g) && Open(q, f) && k < |q| && forall i | 0 <= i < k :: !Eligible(q[i], w)
    ensures q[k].fiber != g
  {
    var i, j :| 0 <= i < j < |q| && q[i].fiber == f && q[j].fiber == g;
    var m :| 0 <= m < |q| && q[m] == Task(None, f);
    assert m == i && Eligible(q[m], w);
  }

  // A fiber that a step queues comes behind all that were there.
  lemma {:induction false} NewcomerLast(s: State, a: Action, f: nat, g: nat)
    requires Enabled(s, a) && Queued(s.queue, f) && !Queued(s.queue, g) && Queued(Step(s, a).queue, g)
    ensures Ahead(Step(s, a).queue, f, g)
  {
    var q' := Step(s, a).queue;
    var k := QueueSteps(s, a);
    if t :| q' == s.queue + [t] {
      AppendQueued(s.queue, t, g);
      var i :| 0 <= i < |s.queue| && s.queue[i].fiber == f;
      assert q'[i].fiber == f && q'[|s.queue|].fiber == g;
    } else if Without(s.queue, k, q') {
      StillQueued(s.queue, k, q', g);
    }
  }

  lemma {:induction false} StillQueued(q: seq<Task>, k: nat, r: seq<Task>, g: nat)
    requires Without(q, k, r) && Queued(r, g)
    ensures Queued(q, g)
  {
    var j :| 0 <= j < |r| && r[j].fiber == g;
    assert r[j] == q[if j < k then j else j + 1];
  }

  // The fiber is in the queue after each of the actions from `from` on.
  ghost predicate Stays(n: nat, acts: seq<Action>, from: nat, f: nat) {
    forall k | from <= k <= |acts| :: QueuedAt(n, acts, k, f)
  }

  ghost predicate QueuedAt(n: nat, acts: seq<Action>, k: nat, f: nat) {
    k <= |acts| && Run(n, acts[..k]).Some? && Queued(Run(n, acts[..k]).value.queue, f)
  }

  lemma {:induction false} StaysBefore(n: nat, acts: seq<Action>, from: nat, f: nat)
    requires Stays(n, acts, from, f) && from < |acts|
    ensures Stays(n, acts[..|acts| - 1], from, f)
  {
    var front := acts[..|acts| - 1];
    forall k | from <= k <= |front|
      ensures QueuedAt(n, front, k, f)
    {
      assert QueuedAt(n, acts, k, f);
      assert front[..k] == acts[..k];
    }
  }

  // Entries that stay in the queue keep their order over every run.
  lemma {:induction false} OrderKept(n: nat, acts: seq<Action>, from: nat, f: nat, g: nat)
    requires from <= |acts| && Stays(n, acts, from, f) && Stays(n, acts, from, g)
    requires Run(n, acts[..from]).Some? && Ahead(Run(n, acts[..from]).value.queue, f, g)
    ensures Run(n, acts).Some? && Ahead(Run(n, acts).value.queue, f, g)
  {
    assert acts[..|acts|] == acts;
    if from < |acts| {
      var front := acts[..|acts| - 1];
      StaysBefore(n, acts, from, f);
      StaysBefore(n, acts, from, g);
      assert front[..from] == acts[..from];
      OrderKept(n, front, from, f, g);
      RunOwnership(n, front);
      assert QueuedAt(n, acts, |acts|, f) && QueuedAt(n, acts, |acts|, g);
      StepKeepsTurns(Run(n, front).value, acts[|acts| - 1], f, g);
    }
  }

  // First come, first served: while an unpinned entry stays in the queue, every entry behind it does.
  lemma {:induction false} InTurn(n: nat, acts: seq<Action>, from: nat, f: nat, g: nat)
    requires from <= |acts| && Stays(n, acts, from, f)
    requires Run(n, acts[..from]).Some? && Open(Run(n, acts[..from]).value.queue, f) && Ahead(Run(n, acts[..from]).value.queue, f, g)
    ensures Run(n, acts).Some? && Open(Run(n, acts).value.queue, f) && Ahead(Run(n, acts).value.queue, f, g)
  {
    assert acts[..|acts|] == acts;
    if from < |acts| {
      var front := acts[..|acts| - 1];
      StaysBefore(n, acts, from, f);
      assert front[..from] == acts[..from];
      InTurn(n, front, from, f, g);
      RunOwnership(n, front);
      assert QueuedAt(n, acts, |acts|, f);
      StepKeepsTurns(Run(n, front).value, acts[|acts| - 1], f, g);
    }
  }

  // ---------------------------------------------------------------- where the drain fails

  lemma Extend(n: nat, acts: seq<Action>, s: State, a: Action) returns (acts': seq<Action>, s': State)
    requires Run(n, acts) == Some(s) && Enabled(s, a)
    ensures Run(n, acts') == Some(s') && s' == Step(s, a)
  {
    acts', s' := acts + [a], Step(s, a);
    assert acts'[..|acts'| - 1] == acts;
  }

  // A worker whose idle fiber has ended leaves entries pinned to others behind.
  lemma LeavesPinned(n: nat, acts: seq<Action>, s: State, w: nat, f: nat) returns (acts': seq<Action>, s': State)
    requires Run(n, acts) == Some(s) && w < |s.workers| && s.phase != INIT
    requires s.workers[w] == Worker(Check(f), true) && F.Finished(StateOf(s, f))
    requires forall i | 0 <= i < |s.queue| :: !Eligible(s.queue[i], w)
    ensures Run(n, acts') == Some(s') && s' == Goto(s, w, Exit)
  {
    acts', s' := Extend(n, acts, s, Work(w, Yields));
    assert s' == Goto(s, w, Pick);
    acts', s' := Extend(n, acts', s', Work(w, Yields));
    assert s' == Goto(Goto(s, w, Pick), w, NoTask);
    acts', s' := Extend(n, acts', s', Work(w, Yields));
  }

  // The idle fiber of a worker ends when it finds that it can stop.
  lemma Idles(n: nat, acts: seq<Action>, s: State, w: nat) returns (acts': seq<Action>, s': State)
    requires Run(n, acts) == Some(s) && w < |s.workers| && CanStop(s) && s.workers[w] == Worker(Pick, false)
    ensures Run(n, acts') == Some(s') && s' == s.(workers := s.workers[w := Worker(Pick, true)])
  {
    acts', s' := Extend(n, acts, s, Work(w, Yields));
    assert s' == Goto(s, w, NoTask);
    acts', s' := Extend(n, acts', s', Work(w, Yields));
    assert s' == Goto(Goto(s, w, NoTask), w, Idle);
    acts', s' := Extend(n, acts', s', Work(w, Yields));
  }

  // Worker 0 has popped the only fiber when stop comes ...
  lemma Run1() returns (acts: seq<Action>, s: State)
    ensures Run(2, acts) == Some(s)
    ensures s == State([], STOPPING, true, 0, [Worker(Took(0), false), Worker(Pick, false)], [F.INITING])
  {
    acts, s := [], Initial(2);
    assert s.workers == [Worker(Pick, false), Worker(Pick, false)];
    acts, s := Extend(2, acts, s, Start);
    acts, s := Extend(2, acts, s, Add(None));
    acts, s := Extend(2, acts, s, Work(0, Yields));
    acts, s := Extend(2, acts, s, Stop);
    acts, s := Extend(2, acts, s, Join);
  }

  // ... so worker 1 sees an empty queue and no active thread, and its idle fiber ends;
  lemma Run2() returns (acts: seq<Action>, s: State)
    ensures Run(2, acts) == Some(s)
    ensures s == State([], STOPPING, true, 0, [Worker(Took(0), false), Worker(Pick, true)], [F.INITING])
  {
    acts, s := Run1();
    acts, s := Idles(2, acts, s, 1);
  }

  lemma Run3() returns (acts: seq<Action>, s: State)
    ensures Run(2, acts) == Some(s)
    ensures s == State([], STOPPING, true, 1, [Worker(Inside(0), false), Worker(Pick, true)], [F.RUNNING])
  {
    acts, s := Run2();
    acts, s := Extend(2, acts, s, Work(0, Yields));
    acts, s := Extend(2, acts, s, Work(0, Yields));
    acts, s := Extend(2, acts, s, Work(0, Yields));
  }

  // the fiber yields and is queued again;
  lemma Run4() returns (acts: seq<Action>, s: State)
    ensures Run(2, acts) == Some(s)
    ensures s == State([Task(None, 0)], STOPPING, true, 0, [Worker(Pick, false), Worker(Pick, true)], [F.SUSPENDED])
  {
    acts, s := Run3();
    acts, s := Extend(2, acts, s, Work(0, Yields));
    assert s == State([], STOPPING, true, 1, [Worker(Lower(0), false), Worker(Pick, true)], [F.SUSPENDED]);
    acts, s := Extend(2, acts, s, Work(0, Yields));
    assert s == State([], STOPPING, true, 0, [Worker(Check(0), false), Worker(Pick, true)], [F.SUSPENDED]);
    acts, s := Extend(2, acts, s, Work(0, Yields));
    acts, s := Extend(2, acts, s, Work(0, Yields));
  }

  // with it in the hands of worker 1 the idle fiber of worker 0 ends too;
  lemma Run5() returns (acts: seq<Action>, s: State)
    ensures Run(2, acts) == Some(s)
    ensures s == State([], STOPPING, true, 0, [Worker(Pick, true), Worker(Took(0), true)], [F.SUSPENDED])
  {
    acts, s := Run4();
    acts, s := Extend(2, acts, s, Work(1, Yields));
    assert s == State([], STOPPING, true, 0, [Worker(Pick, false), Worker(Took(0), true)], [F.SUSPENDED]);
    acts, s := Idles(2, acts, s, 0);
  }

  // worker 0 leaves;
  lemma Run6() returns (acts: seq<Action>, s: State)
    ensures Run(2, acts) == Some(s)
    ensures s == State([], STOPPING, true, 1, [Worker(Exit, true), Worker(Inside(0), true)], [F.RUNNING])
  {
    acts, s := Run5();
    acts, s := Extend(2, acts, s, Work(0, Yields));
    acts, s := Extend(2, acts, s, Work(0, Yields));
    acts, s := Extend(2, acts, s, Work(1, Yields));
    acts, s := Extend(2, acts, s, Work(1, Yields));
    acts, s := Extend(2, acts, s, Work(1, Yields));
  }

  // the fiber spawns one that is pinned to worker 0.
  lemma Run7() returns (acts: seq<Action>, s: State)
    ensures Run(2, acts) == Some(s)
    ensures s == State([Task(Some(0), 1)], STOPPING, true, 0, [Worker(Exit, true), Worker(Check(0), true)], [F.TERMINATED, F.INITING])
  {
    acts, s := Run6();
    acts, s := Extend(2, acts, s, Work(1, Spawns(Some(0))));
    acts, s := Extend(2, acts, s, Work(1, Finishes(false)));
    acts, s := Extend(2, acts, s, Work(1, Yields));
  }

  // A late spawn and a run that ends with it: the fiber stays in the queue for good.
  lemma PinnedSpawnIsLost() returns (acts: seq<Action>, s: State)
    ensures Run(2, acts) == Some(s) && (forall w | 0 <= w < |s.workers| :: s.workers[w].pc == Exit)
    ensures s.queue == [Task(Some(0), 1)] && s.fibers == [F.TERMINATED, F.INITING]
  {
    acts, s := Run7();
    acts, s := LeavesPinned(2, acts, s, 1, 0);
  }
}
