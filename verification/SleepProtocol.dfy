/**
 The hooked sleep (sylar/hook.cpp) across timers, workers and fiber states, as an interleaved step
 system. A fiber arms a timer, marks itself SLEEPING and switches out; meanwhile the timer may fire,
 its callback run on another worker, and that worker's queue entry be picked. A worker without a task
 asks whether it can stop, and expires timers if it cannot. Every look at the queue, the timers or a
 fiber's state and every change of them is a step of its own, and so is the switch itself; only the
 callback's fiber raises and lowers the active count together with its first and last step.
 */
module SleepProtocol {

  import opened Wrappers
  import F = Fibers

  type FiberState = F.FiberState

  // A queue entry: the fiber itself, or a fiber that runs the callback of its timer.
  datatype Item = Run(fiber: nat) | Callback(fiber: nat)

  // An armed timer: a sleeper's, or somebody else's.
  datatype Armed = Armed(key: nat, owner: Option<nat>)

  datatype Pc =
    | Pick
    | Took(item: Item)
    | Requeue(fiber: nat)    // saw it RUNNING
    | Raise(fiber: nat)      // before active_thread_count_.fetch_add
    | Env(fiber: nat)        // before set_env, which aborts on a RUNNING fiber
    | Enter(fiber: nat)      // before fiber_resume
    | Code(fiber: nat)       // the fiber's own code
    | Sleep(fiber: nat)      // in fiber_sleep, before the look at its own state
    | Mark(fiber: nat)       // saw RUNNING, before set_state(SLEEPING)
    | Switch(fiber: nat)     // before swap_fiber: on the fiber's stack, with its state stored
    | Lower(fiber: nat, slept: bool)  // back in schedule, before active_thread_count_.fetch_sub
    | Leave(fiber: nat, slept: bool)  // before the look at the state it came back with
    | Readd(fiber: nat)      // before the add_fiber that follows
    | Wake(fiber: nat)       // the callback, in fiber_wakeup, before the look at the state
    | Unmark(fiber: nat)     // saw SLEEPING, before set_state(SUSPENDED)
    | Notify(fiber: nat)     // the callback, before its add_fiber
    | NoTask                 // in the else branch
    | Idle                   // the idle fiber, before Scheduler::can_stop
    | Ask                    // before TimerManager::empty
    | Poll                   // before get_expired_timers
    | Expiring(due: seq<nat>)  // the idle fiber, with the expired timers in hand
    | Exit                   // left schedule

  // What the history says of a fiber: whether it armed a timer and has not run since.
  datatype Life = Awake | Waiting | Done

  datatype State = State(
    queue: seq<Item>,
    armed: seq<Armed>,
    workers: seq<Pc>,
    idle: seq<bool>,  // whose idle fiber has ended
    fibers: seq<FiberState>,
    lives: seq<Life>,
    active: nat,
    stopping: bool,   // stop has set STOPPING and emptied threads_
    aborted: bool
  )

  datatype Choice = Yields | Finishes | Sleeps(key: nat)  // what a fiber does next; `key` is the expiry

  datatype Action =
    | Work(w: nat, choice: Choice, now: nat)
    | Arm(key: nat)     // somebody else's timer
    | Cancel(key: nat)  // del_timer, which goes by the key
    | Spawn             // a new fiber enters the queue; not after stop
    | Stop

  predicate HasKey(armed: seq<Armed>, key: nat) {
    exists i :: 0 <= i < |armed| && armed[i].key == key
  }

  function Without(armed: seq<Armed>, key: nat): seq<Armed> {
    if armed == [] then []
    else if armed[0].key == key then Without(armed[1..], key)
    else [armed[0]] + Without(armed[1..], key)
  }

  function NotDue(armed: seq<Armed>, now: nat): seq<Armed> {
    if armed == [] then []
    else if armed[0].key <= now then NotDue(armed[1..], now)
    else [armed[0]] + NotDue(armed[1..], now)
  }

  // The sleepers whose timers are due.
  function DueOwners(armed: seq<Armed>, now: nat): seq<nat> {
    if armed == [] then []
    else if armed[0].key <= now && armed[0].owner.Some? then [armed[0].owner.value] + DueOwners(armed[1..], now)
    else DueOwners(armed[1..], now)
  }

  function Goto(s: State, w: nat, pc: Pc): State {
    if w < |s.workers| then s.(workers := s.workers[w := pc]) else s
  }

  function Push(s: State, item: Item): State {
    s.(queue := s.queue + [item])
  }

  function SetState(s: State, f: nat, st: FiberState): State {
    if f < |s.fibers| then s.(fibers := s.fibers[f := st]) else s
  }

  function StateOf(s: State, f: nat): FiberState {
    if f < |s.fibers| then s.fibers[f] else F.TERMINATED
  }

  function LifeOf(s: State, f: nat): Life {
    if f < |s.lives| then s.lives[f] else Done
  }

  function SetLife(s: State, f: nat, life: Life): State {
    if f < |s.lives| && s.lives[f] != Done then s.(lives := s.lives[f := life]) else s
  }

  // sleep: the answer of add_timer is not looked at.
  function ArmSleeper(s: State, f: nat, key: nat): State {
    if HasKey(s.armed, key) then s else SetLife(s.(armed := s.armed + [Armed(key, Some(f))]), f, Waiting)
  }

  function IdleOf(s: State, w: nat): bool {
    w < |s.idle| && s.idle[w]
  }

  function CanStop(s: State): bool {
    s.stopping && s.active == 0 && s.queue == []
  }

  // Where worker `w` goes from `pc` ...
  function Next(s: State, w: nat, pc: Pc, choice: Choice, now: nat): Pc {
    match pc
    case Pick => if s.queue == [] then NoTask else Took(s.queue[0])
    case Took(item) => if item.Callback? then Wake(item.fiber) else Chosen(item.fiber, StateOf(s, item.fiber))
    case Requeue(f) => Pick
    case Raise(f) => Env(f)
    case Env(f) => if StateOf(s, f) == F.RUNNING then pc else Enter(f)
    case Enter(f) => if F.Finished(StateOf(s, f)) then Lower(f, false) else Code(f)
    case Code(f) => if choice.Sleeps? then Sleep(f) else Lower(f, false)
    case Sleep(f) => if StateOf(s, f) == F.RUNNING then Mark(f) else Switch(f)
    case Mark(f) => Switch(f)
    case Switch(f) => Lower(f, true)
    case Lower(f, slept) => Leave(f, slept)
    case Leave(f, _) => if StateOf(s, f) == F.READY || StateOf(s, f) == F.SUSPENDED then Readd(f) else Pick
    case Readd(f) => Pick
    case Wake(f) => if StateOf(s, f) == F.SLEEPING then Unmark(f) else Notify(f)
    case Unmark(f) => Notify(f)
    case Notify(f) => Pick
    case NoTask => if IdleOf(s, w) then Exit else Idle
    case Idle => if CanStop(s) then Ask else Poll
    case Ask => if s.armed == [] then Pick else Poll
    case Poll => Expiring(DueOwners(s.armed, now))
    case Expiring(due) => if due == [] then Pick else Expiring(due[1..])
    case Exit => Exit
  }

  function Chosen(f: nat, st: FiberState): Pc {
    if F.Finished(st) then NoTask else if st == F.RUNNING then Requeue(f) else Raise(f)
  }

  // ... and what it does to all the rest.
  function Effect(s: State, w: nat, pc: Pc, choice: Choice, now: nat): State {
    match pc
    case Pick => if s.queue == [] then s else s.(queue := s.queue[1..])
    case Took(item) => if item.Callback? then s.(active := s.active + 1) else s
    case Requeue(f) => Push(s, Run(f))
    case Raise(f) => s.(active := s.active + 1)
    case Env(f) => if StateOf(s, f) == F.RUNNING then s.(aborted := true) else s
    case Enter(f) => if F.Finished(StateOf(s, f)) then s else SetLife(SetState(s, f, F.RUNNING), f, Awake)
    case Code(f) =>
      (match choice
       case Yields => SetState(s, f, F.SUSPENDED)
       case Finishes => SetLife(SetState(s, f, F.TERMINATED), f, Done)
       case Sleeps(key) => ArmSleeper(s, f, key))
    case Mark(f) => SetState(s, f, F.SLEEPING)
    case Lower(f, _) => s.(active := Less(s.active))
    case Readd(f) => Push(s, Run(f))
    case Unmark(f) => SetState(s, f, F.SUSPENDED)
    case Notify(f) => Push(s, Run(f)).(active := Less(s.active))
    case Ask => if s.armed == [] && w < |s.idle| then s.(idle := s.idle[w := true]) else s
    case Poll => s.(armed := NotDue(s.armed, now))
    case Expiring(due) => if due == [] then s else Push(s, Callback(due[0]))
    case _ => s
  }

  function Less(n: nat): nat {
    if n == 0 then 0 else n - 1
  }

  function WorkStep(s: State, w: nat, pc: Pc, choice: Choice, now: nat): State {
    Goto(Effect(s, w, pc, choice, now), w, Next(s, w, pc, choice, now))
  }

  lemma EffectRest(s: State, w: nat, pc: Pc, choice: Choice, now: nat)
    ensures var s' := Effect(s, w, pc, choice, now); s'.workers == s.workers && |s'.fibers| == |s.fibers|
  {
  }

  // Nothing happens any more once the process has aborted.
  function Step(s: State, a: Action): State {
    if s.aborted then s else Move(s, a)
  }

  function Move(s: State, a: Action): State {
    match a
    case Work(w, choice, now) => if w < |s.workers| then WorkStep(s, w, s.workers[w], choice, now) else s
    case Arm(key) => if HasKey(s.armed, key) then s else s.(armed := s.armed + [Armed(key, None)])
    case Cancel(key) => s.(armed := Without(s.armed, key))
    case Spawn =>
      if s.stopping then s
      else s.(queue := s.queue + [Run(|s.fibers|)], fibers := s.fibers + [F.INITING], lives := s.lives + [Awake])
    case Stop => s.(stopping := true)
  }

  // ---------------------------------------------------------------- who will wake a fiber

  ghost predicate ArmedFor(armed: seq<Armed>, f: nat) {
    exists i :: 0 <= i < |armed| && armed[i].owner == Some(f)
  }

  ghost predicate Queued(q: seq<Item>, f: nat) {
    exists i :: 0 <= i < |q| && q[i].fiber == f
  }

  // The worker will put the fiber or its callback into the queue, or will resume it.
  predicate Carries(pc: Pc, f: nat) {
    match pc
    case Took(item) => item.fiber == f
    case Requeue(g) => g == f
    case Raise(g) => g == f
    case Env(g) => g == f
    case Enter(g) => g == f
    case Readd(g) => g == f
    case Wake(g) => g == f
    case Unmark(g) => g == f
    case Notify(g) => g == f
    case Expiring(due) => f in due
    case _ => false
  }

  // The worker is inside the fiber, or has just left it.
  predicate Executes(pc: Pc, f: nat) {
    match pc
    case Code(g) => g == f
    case Sleep(g) => g == f
    case Mark(g) => g == f
    case Switch(g) => g == f
    case Lower(g, _) => g == f
    case Leave(g, _) => g == f
    case _ => false
  }

  ghost predicate CarriesAt(s: State, f: nat, w: nat) {
    w < |s.workers| && Carries(s.workers[w], f)
  }

  ghost predicate Covered(s: State, f: nat) {
    ArmedFor(s.armed, f) || Queued(s.queue, f) || exists w: nat :: CarriesAt(s, f, w)
  }

  ghost predicate NotLost(s: State, f: nat) {
    LifeOf(s, f) == Waiting && !s.aborted ==> Covered(s, f)
  }

  // Only a fiber that ended has a final state.
  ghost predicate Ended(s: State, f: nat) {
    F.Finished(StateOf(s, f)) ==> LifeOf(s, f) == Done
  }

  ghost predicate Inv(s: State) {
    |s.lives| == |s.fibers| && (forall f: nat :: Ended(s, f)) && (forall f: nat :: NotLost(s, f))
  }

  // ---------------------------------------------------------------- no wake-up is lost

  lemma {:induction false} DueOrNot(armed: seq<Armed>, now: nat, f: nat)
    ensures ArmedFor(armed, f) <==> ArmedFor(NotDue(armed, now), f) || f in DueOwners(armed, now)
  {
    if armed != [] {
      DueOrNot(armed[1..], now, f);
      SplitArmed(armed, f);
      if armed[0].key > now {
        SplitArmed([armed[0]] + NotDue(armed[1..], now), f);
        assert ([armed[0]] + NotDue(armed[1..], now))[1..] == NotDue(armed[1..], now);
      }
    }
  }

  lemma SplitArmed(armed: seq<Armed>, f: nat)
    requires armed != []
    ensures ArmedFor(armed, f) <==> armed[0].owner == Some(f) || ArmedFor(armed[1..], f)
  {
    if ArmedFor(armed, f) && armed[0].owner != Some(f) {
      var i :| 0 <= i < |armed| && armed[i].owner == Some(f);
      assert armed[1..][i - 1].owner == Some(f);
    }
    if ArmedFor(armed[1..], f) {
      var i :| 0 <= i < |armed[1..]| && armed[1..][i].owner == Some(f);
      assert armed[i + 1].owner == Some(f);
    }
  }

  // The key belongs to the timer of sleeper `f`.
  ghost predicate Steals(armed: seq<Armed>, key: nat, f: nat) {
    exists i :: 0 <= i < |armed| && armed[i].key == key && armed[i].owner == Some(f)
  }

  ghost predicate ArmedApart(armed: seq<Armed>, key: nat, f: nat) {
    exists i :: 0 <= i < |armed| && armed[i].key != key && armed[i].owner == Some(f)
  }

  lemma {:induction false} WithoutArmed(armed: seq<Armed>, key: nat, f: nat)
    ensures ArmedFor(Without(armed, key), f) <==> ArmedApart(armed, key, f)
  {
    if armed != [] {
      WithoutArmed(armed[1..], key, f);
      SplitApart(armed, key, f);
      if armed[0].key != key {
        SplitArmed([armed[0]] + Without(armed[1..], key), f);
        assert ([armed[0]] + Without(armed[1..], key))[1..] == Without(armed[1..], key);
      }
    }
  }

  lemma SplitApart(armed: seq<Armed>, key: nat, f: nat)
    requires armed != []
    ensures ArmedApart(armed, key, f) <==> (armed[0].key != key && armed[0].owner == Some(f)) || ArmedApart(armed[1..], key, f)
  {
    if ArmedApart(armed, key, f) {
      var i :| 0 <= i < |armed| && armed[i].key != key && armed[i].owner == Some(f);
      assert i > 0 ==> armed[1..][i - 1] == armed[i];
    }
    if ArmedApart(armed[1..], key, f) {
      var i :| 0 <= i < |armed[1..]| && armed[1..][i].key != key && armed[1..][i].owner == Some(f);
      assert armed[i + 1] == armed[1..][i];
    }
  }

  lemma PushQueues(q: seq<Item>, item: Item, f: nat)
    ensures Queued(q + [item], f) <==> Queued(q, f) || item.fiber == f
  {
    if Queued(q, f) {
      var i :| 0 <= i < |q| && q[i].fiber == f;
      assert (q + [item])[i].fiber == f;
    }
    assert (q + [item])[|q|] == item;
  }

  lemma PopQueues(q: seq<Item>, f: nat)
    requires q != []
    ensures Queued(q, f) <==> Queued(q[1..], f) || q[0].fiber == f
  {
    assert q == [q[0]] + q[1..];
    if Queued(q[1..], f) {
      var i :| 0 <= i < |q[1..]| && q[1..][i].fiber == f;
      assert q[i + 1].fiber == f;
    }
    if Queued(q, f) && q[0].fiber != f {
      var i :| 0 <= i < |q| && q[i].fiber == f;
      assert q[1..][i - 1].fiber == f;
    }
  }

  lemma PushArmed(armed: seq<Armed>, a: Armed, f: nat)
    ensures ArmedFor(armed + [a], f) <==> ArmedFor(armed, f) || a.owner == Some(f)
  {
    if ArmedFor(armed, f) {
      var i :| 0 <= i < |armed| && armed[i].owner == Some(f);
      assert (armed + [a])[i].owner == Some(f);
    }
    assert (armed + [a])[|armed|] == a;
  }

  // What one worker has to do with a fiber before and after a step; the other workers stand still.
  lemma OthersCarry(s: State, s': State, w: nat, f: nat)
    requires w < |s.workers| && |s'.workers| == |s.workers| && forall v: nat | v < |s.workers| && v != w :: s'.workers[v] == s.workers[v]
    ensures (exists v: nat :: CarriesAt(s, f, v)) ==> (exists v: nat :: CarriesAt(s', f, v)) || Carries(s.workers[w], f)
    ensures Carries(s'.workers[w], f) ==> exists v: nat :: CarriesAt(s', f, v)
  {
    if v: nat :| CarriesAt(s, f, v) {
      assert v != w ==> CarriesAt(s', f, v);
    }
    assert Carries(s'.workers[w], f) ==> CarriesAt(s', f, w);
  }

  // A worker hands on what it carries: it ends up in the queue, or in its own hands again; or the
  // fiber is resumed, or had ended.
  lemma WorkCovers(s: State, w: nat, choice: Choice, now: nat, f: nat)
    requires w < |s.workers| && Ended(s, f) && NotLost(s, f)
    ensures NotLost(Move(s, Work(w, choice, now)), f)
  {
    var pc := s.workers[w];
    if pc.Pick? || pc.Poll? || pc.Expiring? || pc.Requeue? || pc.Readd? || pc.Notify? {
      HandsOn(s, w, choice, now, f);
    } else {
      Keeps(s, w, choice, now, f);
    }
  }

  lemma HandsOn(s: State, w: nat, choice: Choice, now: nat, f: nat)
    requires w < |s.workers| && NotLost(s, f)
    requires var pc := s.workers[w]; pc.Pick? || pc.Poll? || pc.Expiring? || pc.Requeue? || pc.Readd? || pc.Notify?
    ensures NotLost(Move(s, Work(w, choice, now)), f)
  {
    var pc := s.workers[w];
    OthersCarry(s, WorkStep(s, w, pc, choice, now), w, f);
    if pc.Requeue? || pc.Readd? || pc.Notify? {
      PushQueues(s.queue, Run(pc.fiber), f);
    } else if pc.Pick? && s.queue != [] {
      PopQueues(s.queue, f);
    } else if pc.Poll? {
      DueOrNot(s.armed, now, f);
    } else if pc.Expiring? && pc.due != [] {
      PushQueues(s.queue, Callback(pc.due[0]), f);
    }
  }

  lemma Keeps(s: State, w: nat, choice: Choice, now: nat, f: nat)
    requires w < |s.workers| && NotLost(s, f) && Ended(s, f)
    requires var pc := s.workers[w]; !(pc.Pick? || pc.Poll? || pc.Expiring? || pc.Requeue? || pc.Readd? || pc.Notify?)
    ensures NotLost(Move(s, Work(w, choice, now)), f)
  {
    var pc := s.workers[w];
    OthersCarry(s, WorkStep(s, w, pc, choice, now), w, f);
    if pc.Code? && choice.Sleeps? {
      PushArmed(s.armed, Armed(choice.key, Some(pc.fiber)), f);
    }
  }

  // Cancelling a timer by its key must not hit a sleeper's timer.
  ghost predicate SparesSleepers(s: State, a: Action) {
    a.Cancel? ==> forall f: nat :: !Steals(s.armed, a.key, f)
  }

  lemma StepEnds(s: State, a: Action, f: nat)
    requires |s.lives| == |s.fibers| && Ended(s, f)
    ensures |Step(s, a).lives| == |Step(s, a).fibers| && Ended(Step(s, a), f)
  {
    if a.Work? && a.w < |s.workers| {
      EndsAfter(s, a.w, s.workers[a.w], a.choice, a.now, f);
    }
  }

  lemma {:induction false} EndsAfter(s: State, w: nat, pc: Pc, choice: Choice, now: nat, f: nat)
    requires |s.lives| == |s.fibers| && Ended(s, f)
    ensures var s' := Effect(s, w, pc, choice, now); |s'.lives| == |s'.fibers| && Ended(s', f)
  {
    if pc.Enter? && !F.Finished(StateOf(s, pc.fiber)) {
      SetStateEnds(s, pc.fiber, F.RUNNING, f);
      SetLifeEnds(SetState(s, pc.fiber, F.RUNNING), pc.fiber, Awake, f);
    } else if pc.Mark? {
      SetStateEnds(s, pc.fiber, F.SLEEPING, f);
    } else if pc.Unmark? {
      SetStateEnds(s, pc.fiber, F.SUSPENDED, f);
    } else if pc.Code? {
      CodeEnds(s, w, pc.fiber, choice, now, f);
    } else {
      assert Effect(s, w, pc, choice, now).lives == s.lives && Effect(s, w, pc, choice, now).fibers == s.fibers;
    }
  }

  lemma {:induction false} CodeEnds(s: State, w: nat, g: nat, choice: Choice, now: nat, f: nat)
    requires |s.lives| == |s.fibers| && Ended(s, f)
    ensures var s' := Effect(s, w, Code(g), choice, now); |s'.lives| == |s'.fibers| && Ended(s', f)
  {
    match choice
    case Yields => SetStateEnds(s, g, F.SUSPENDED, f);
    case Finishes =>
    case Sleeps(key) => SetLifeEnds(s.(armed := s.armed + [Armed(key, Some(g))]), g, Waiting, f);
  }

  lemma {:induction false} SetStateEnds(s: State, g: nat, st: FiberState, f: nat)
    requires |s.lives| == |s.fibers| && Ended(s, f) && !F.Finished(st)
    ensures |SetState(s, g, st).lives| == |SetState(s, g, st).fibers| && Ended(SetState(s, g, st), f)
  {
  }

  // A life that says Done says so for good.
  lemma {:induction false} SetLifeEnds(s: State, g: nat, life: Life, f: nat)
    requires |s.lives| == |s.fibers| && Ended(s, f)
    ensures |SetLife(s, g, life).lives| == |SetLife(s, g, life).fibers| && Ended(SetLife(s, g, life), f)
  {
  }

  lemma StepCovers(s: State, a: Action, f: nat)
    requires |s.lives| == |s.fibers| && Ended(s, f) && NotLost(s, f) && SparesSleepers(s, a)
    ensures NotLost(Step(s, a), f)
  {
    if s.aborted {
      return;
    }
    var s' := Step(s, a);
    assert forall w: nat :: !a.Work? && CarriesAt(s, f, w) ==> CarriesAt(s', f, w);
    match a
    case Work(w, choice, now) => if w < |s.workers| { WorkCovers(s, w, choice, now, f); }
    case Arm(key) => PushArmed(s.armed, Armed(key, None), f);
    case Cancel(key) =>
      assert !Steals(s.armed, key, f);
      WithoutArmed(s.armed, key, f);
    case Spawn => PushQueues(s.queue, Run(|s.fibers|), f);
    case Stop =>
  }

  ghost predicate IsRun(ss: seq<State>, actions: seq<Action>) {
    && |ss| == |actions| + 1
    && forall i | 0 <= i < |actions| :: ss[i + 1] == Step(ss[i], actions[i])
  }

  // In every interleaving, from the moment its timer is armed until it runs again or ends, a fiber
  // has an armed timer, a callback or an entry on its way.
  lemma {:induction false} NoLostWakeup(ss: seq<State>, actions: seq<Action>, i: nat)
    requires IsRun(ss, actions) && Inv(ss[0]) && i <= |actions|
    requires forall j | 0 <= j < |actions| :: SparesSleepers(ss[j], actions[j])
    ensures Inv(ss[i])
  {
    if i > 0 {
      NoLostWakeup(ss, actions, i - 1);
      assert ss[i] == Step(ss[i - 1], actions[i - 1]);
      forall f: nat
        ensures Ended(ss[i], f) && NotLost(ss[i], f)
      {
        assert Ended(ss[i - 1], f) && NotLost(ss[i - 1], f);
        StepEnds(ss[i - 1], actions[i - 1], f);
        StepCovers(ss[i - 1], actions[i - 1], f);
      }
      StepEnds(ss[i - 1], actions[i - 1], 0);
    }
  }

  function Initial(n: nat): State {
    State([], [], seq(n, _ => Pick), seq(n, _ => false), [], [], 0, false, false)
  }

  lemma InitialInv(n: nat)
    ensures Inv(Initial(n))
  {
  }

  // ---------------------------------------------------------------- the order of the queue

  // The item that a step takes out of the queue: the one in the worker's hands after it.
  ghost function Taken(s: State, a: Action): seq<Item> {
    if a.Work? && a.w < |s.workers| && s.workers[a.w] == Pick && Next(s, a.w, Pick, a.choice, a.now).Took?
      then [Next(s, a.w, Pick, a.choice, a.now).item] else []
  }

  // The item that a step queues.
  ghost function Put(s: State, a: Action): seq<Item> {
    match a
    case Spawn => if s.stopping then [] else [Run(|s.fibers|)]
    case Work(w, _, _) =>
      if w >= |s.workers| then []
      else
        (match s.workers[w]
         case Requeue(f) => [Run(f)]
         case Readd(f) => [Run(f)]
         case Notify(f) => [Run(f)]
         case Expiring(due) => if due == [] then [] else [Callback(due[0])]
         case _ => [])
    case _ => []
  }

  lemma {:induction false} QueueStep(s: State, a: Action)
    requires !s.aborted
    ensures s.queue + Put(s, a) == Taken(s, a) + Step(s, a).queue
  {
    if a.Work? && a.w < |s.workers| {
      QueueWork(s, a.w, s.workers[a.w], a.choice, a.now);
    }
  }

  lemma {:induction false} QueueWork(s: State, w: nat, pc: Pc, choice: Choice, now: nat)
    requires w < |s.workers| && s.workers[w] == pc
    ensures s.queue + Put(s, Work(w, choice, now)) == Taken(s, Work(w, choice, now)) + Effect(s, w, pc, choice, now).queue
  {
    if pc.Pick? && s.queue != [] {
      assert s.queue == [s.queue[0]] + s.queue[1..];
    }
  }

  // All that was taken and all that was queued in the first `i` steps, in the order of the steps.
  ghost function AllTaken(ss: seq<State>, actions: seq<Action>, i: nat): seq<Item>
    requires i <= |actions| < |ss|
  {
    if i == 0 then [] else AllTaken(ss, actions, i - 1) + if ss[i - 1].aborted then [] else Taken(ss[i - 1], actions[i - 1])
  }

  ghost function AllPut(ss: seq<State>, actions: seq<Action>, i: nat): seq<Item>
    requires i <= |actions| < |ss|
  {
    if i == 0 then [] else AllPut(ss, actions, i - 1) + if ss[i - 1].aborted then [] else Put(ss[i - 1], actions[i - 1])
  }

  // In every run the items come out of the queue in the order in which they went in.
  lemma {:induction false} FirstInFirstOut(ss: seq<State>, actions: seq<Action>, i: nat)
    requires IsRun(ss, actions) && i <= |actions|
    ensures ss[0].queue + AllPut(ss, actions, i) == AllTaken(ss, actions, i) + ss[i].queue
  {
    if i == 0 {
      assert ss[0].queue + [] == [] + ss[0].queue;
    } else {
      FirstInFirstOut(ss, actions, i - 1);
      var s, a := ss[i - 1], actions[i - 1];
      assert ss[i] == Step(s, a);
      if s.aborted {
        assert AllPut(ss, actions, i) == AllPut(ss, actions, i - 1) && AllTaken(ss, actions, i) == AllTaken(ss, actions, i - 1);
      } else {
        QueueStep(s, a);
        Regroup(ss[0].queue, AllPut(ss, actions, i - 1), Put(s, a), AllTaken(ss, actions, i - 1), Taken(s, a), s.queue, ss[i].queue);
      }
    }
  }

  lemma {:induction false} Regroup(q0: seq<Item>, ins: seq<Item>, put: seq<Item>, outs: seq<Item>, taken: seq<Item>, q: seq<Item>, q': seq<Item>)
    requires q0 + ins == outs + q && q + put == taken + q'
    ensures q0 + (ins + put) == (outs + taken) + q'
  {
    assert q0 + (ins + put) == (outs + q) + put;
    assert (outs + q) + put == outs + (q + put);
    assert outs + (taken + q') == (outs + taken) + q';
  }

  // ---------------------------------------------------------------- sleepers that nobody wakes

  ghost predicate ExecutesAt(s: State, f: nat, w: nat) {
    w < |s.workers| && Executes(s.workers[w], f)
  }

  // Nobody runs the fiber, and nobody is about to.
  ghost predicate Lost(s: State, f: nat) {
    f < |s.fibers| && !Covered(s, f) && forall w: nat :: !ExecutesAt(s, f, w)
  }

  lemma LostWork(s: State, w: nat, choice: Choice, now: nat, f: nat)
    requires Lost(s, f) && w < |s.workers|
    ensures Lost(Move(s, Work(w, choice, now)), f)
  {
    assert !CarriesAt(s, f, w) && !ExecutesAt(s, f, w);
    EffectLost(s, w, s.workers[w], choice, now, f);
    StaysAway(s, w, choice, now, f);
  }

  // And it puts no other fiber into the queue or the timers.
  lemma {:induction false} EffectLost(s: State, w: nat, pc: Pc, choice: Choice, now: nat, f: nat)
    requires !Carries(pc, f) && !Executes(pc, f) && !ArmedFor(s.armed, f) && !Queued(s.queue, f)
    ensures var s' := Effect(s, w, pc, choice, now); !ArmedFor(s'.armed, f) && !Queued(s'.queue, f)
  {
    if pc.Requeue? || pc.Readd? || pc.Notify? {
      PushQueues(s.queue, Run(pc.fiber), f);
    } else if pc.Pick? && s.queue != [] {
      PopQueues(s.queue, f);
    } else if pc.Poll? {
      DueOrNot(s.armed, now, f);
    } else if pc.Expiring? && pc.due != [] {
      PushQueues(s.queue, Callback(pc.due[0]), f);
    } else if pc.Code? && choice.Sleeps? {
      PushArmed(s.armed, Armed(choice.key, Some(pc.fiber)), f);
    }
  }

  // No worker comes to a lost fiber by itself.
  lemma StaysAway(s: State, w: nat, choice: Choice, now: nat, f: nat)
    requires Lost(s, f) && w < |s.workers|
    ensures var s' := Move(s, Work(w, choice, now));
            |s'.fibers| == |s.fibers| && forall v: nat :: !CarriesAt(s', f, v) && !ExecutesAt(s', f, v)
  {
    var s' := Move(s, Work(w, choice, now));
    assert !CarriesAt(s, f, w) && !ExecutesAt(s, f, w);
    NextPc(s, w, s.workers[w], choice, now, f);
    EffectRest(s, w, s.workers[w], choice, now);
    forall v: nat
      ensures !CarriesAt(s', f, v) && !ExecutesAt(s', f, v)
    {
      assert !CarriesAt(s, f, v) && !ExecutesAt(s, f, v);
    }
  }

  // A worker comes only to a fiber that it carried or executed, or that was queued or armed.
  lemma NextPc(s: State, w: nat, pc: Pc, choice: Choice, now: nat, f: nat)
    requires !Carries(pc, f) && !Executes(pc, f) && !ArmedFor(s.armed, f) && !Queued(s.queue, f)
    ensures !Carries(Next(s, w, pc, choice, now), f) && !Executes(Next(s, w, pc, choice, now), f)
  {
    if pc.Poll? {
      DueOrNot(s.armed, now, f);
    } else if pc.Pick? && s.queue != [] {
      PopQueues(s.queue, f);
    }
  }

  lemma LostStep(s: State, a: Action, f: nat)
    requires Lost(s, f)
    ensures Lost(Step(s, a), f)
  {
    if s.aborted {
      return;
    }
    match a
    case Work(w, choice, now) => if w < |s.workers| { LostWork(s, w, choice, now, f); }
    case Arm(key) =>
      PushArmed(s.armed, Armed(key, None), f);
      LostSame(s, Step(s, a), f);
    case Cancel(key) =>
      WithoutArmed(s.armed, key, f);
      LostSame(s, Step(s, a), f);
    case Spawn =>
      PushQueues(s.queue, Run(|s.fibers|), f);
      LostSame(s, Step(s, a), f);
    case Stop => LostSame(s, Step(s, a), f);
  }

  lemma LostSame(s: State, s': State, f: nat)
    requires Lost(s, f) && s'.workers == s.workers && f < |s'.fibers|
    requires !ArmedFor(s'.armed, f) && !Queued(s'.queue, f)
    ensures Lost(s', f)
  {
    forall v: nat
      ensures !CarriesAt(s', f, v) && !ExecutesAt(s', f, v)
    {
      assert !CarriesAt(s, f, v) && !ExecutesAt(s, f, v);
    }
  }

  // A lost fiber never runs again, whatever happens.
  lemma {:induction false} LostForever(ss: seq<State>, actions: seq<Action>, f: nat, i: nat)
    requires IsRun(ss, actions) && Lost(ss[0], f) && i <= |actions|
    ensures Lost(ss[i], f)
  {
    if i > 0 {
      LostForever(ss, actions, f, i - 1);
      assert ss[i] == Step(ss[i - 1], actions[i - 1]);
      LostStep(ss[i - 1], actions[i - 1], f);
    }
  }

  // Worker `w` runs fiber `f`, and nothing else in the system knows of it.
  ghost predicate Alone(s: State, w: nat, f: nat) {
    && w < |s.workers| && f < |s.fibers| && Executes(s.workers[w], f) && StateOf(s, f) == F.RUNNING
    && !Queued(s.queue, f) && !ArmedFor(s.armed, f)
    && forall v: nat | v != w :: !CarriesAt(s, f, v) && !ExecutesAt(s, f, v)
  }

  // A sleep whose expiry another timer has is never woken, because the refusal of add_timer is not
  // looked at: here without anybody in between, from any state.
  lemma SleepOnTakenKey(s: State, w: nat, f: nat, key: nat, now: nat)
    requires Alone(s, w, f) && s.workers[w] == Code(f) && !s.aborted
    ensures var work := Work(w, Sleeps(key), now);
            Lost(Step(Step(Step(Step(Step(Step(s, work), work), work), work), work), work), f) <==> HasKey(s.armed, key)
  {
    var work := Work(w, Sleeps(key), now);
    var s3 := Step(Step(Step(s, work), work), work);
    WayIn(s, w, f, key, now);
    WayOut(s3, w, f, work);
    var s6 := Step(Step(Step(s3, work), work), work);
    assert s6.workers == s.workers[w := Pick];
    PushArmed(s.armed, Armed(key, Some(f)), f);
    forall v: nat
      ensures !CarriesAt(s6, f, v) && !ExecutesAt(s6, f, v)
    {
      assert v != w ==> !CarriesAt(s, f, v) && !ExecutesAt(s, f, v);
    }
  }

  // From the fiber's own code to the switch.
  lemma WayIn(s: State, w: nat, f: nat, key: nat, now: nat)
    requires !s.aborted && w < |s.workers| && s.workers[w] == Code(f) && f < |s.fibers| && StateOf(s, f) == F.RUNNING
    ensures var work := Work(w, Sleeps(key), now);
            var s' := Step(Step(Step(s, work), work), work);
            && s'.workers == s.workers[w := Switch(f)] && s'.queue == s.queue && s'.armed == ArmSleeper(s, f, key).armed
            && !s'.aborted && StateOf(s', f) == F.SLEEPING && |s'.fibers| == |s.fibers|
  {
    var work := Work(w, Sleeps(key), now);
    var s1 := Step(s, work);
    assert s1 == Goto(ArmSleeper(s, f, key), w, Sleep(f));
    var s2 := Step(s1, work);
    assert s2 == Goto(s1, w, Mark(f));
  }

  // From the switch to the next look at the queue.
  lemma WayOut(s: State, w: nat, f: nat, work: Action)
    requires !s.aborted && w < |s.workers| && s.workers[w] == Switch(f) && StateOf(s, f) == F.SLEEPING && work.Work? && work.w == w
    ensures var s' := Step(Step(Step(s, work), work), work);
            && s'.workers == s.workers[w := Pick] && s'.queue == s.queue && s'.armed == s.armed && s'.fibers == s.fibers
  {
    var s1 := Step(s, work);
    assert s1 == Goto(s, w, Lower(f, true));
    var s2 := Step(s1, work);
    assert s2 == Goto(s1.(active := Less(s1.active)), w, Leave(f, true));
  }

  // A sleeper that only its timer can wake is lost to a cancel of another timer exactly when the
  // two have one key: del_timer goes by the key.
  lemma CancelOfSleeper(s: State, f: nat, i: nat, key: nat)
    requires !s.aborted && f < |s.fibers| && !Queued(s.queue, f) && forall v: nat :: !CarriesAt(s, f, v) && !ExecutesAt(s, f, v)
    requires i < |s.armed| && forall j | 0 <= j < |s.armed| :: s.armed[j].owner == Some(f) <==> j == i
    ensures Lost(Step(s, Cancel(key)), f) <==> key == s.armed[i].key
  {
    var s' := Step(s, Cancel(key));
    WithoutArmed(s.armed, key, f);
    forall v: nat
      ensures !CarriesAt(s', f, v) && !ExecutesAt(s', f, v)
    {
      assert !CarriesAt(s, f, v) && !ExecutesAt(s, f, v);
    }
  }
}
