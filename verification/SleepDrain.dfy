/**
 The drain with sleepers, under the can_stop of an IOManager. A worker leaves only after its idle fiber
 found nothing queued, nothing active and no timer armed; but a fiber in another worker's hands may
 still go to sleep. Once the last idle fiber has ended, nobody is left to expire its timer.
 */
module SleepDrain {

  import opened Wrappers
  import opened SleepProtocol
  import opened SleepOwnership
  import opened SleepLosses

  // ---------------------------------------------------------------- shutting down

  // The worker will not look at the queue again.
  predicate PastAt(s: State, w: nat) {
    w < |s.workers| && (s.workers[w] == Exit || (s.workers[w] == NoTask && IdleOf(s, w)))
  }

  ghost predicate AllPast(s: State) {
    forall w: nat | w < |s.workers| :: PastAt(s, w)
  }

  ghost predicate AllIdle(s: State) {
    forall w: nat | w < |s.workers| :: IdleOf(s, w)
  }

  // A worker leaves after its idle fiber has ended; that ends only after stop, and is not resumed.
  predicate IdleOk(s: State, w: nat) {
    && w < |s.workers| && (s.workers[w] == Exit ==> IdleOf(s, w)) && (s.workers[w] == Ask ==> s.stopping)
    && (IdleOf(s, w) ==> s.stopping && !(s.workers[w].Idle? || s.workers[w].Ask? || s.workers[w].Poll? || s.workers[w].Expiring?))
  }

  ghost predicate Closing(s: State) {
    && s.workers != [] && |s.idle| == |s.workers|
    && (forall w: nat | w < |s.workers| :: IdleOk(s, w))
    && (AllPast(s) ==> s.queue == [])
  }

  lemma {:induction false} WorkClosing(s: State, w: nat, choice: Choice, now: nat)
    requires Exclusive(s) && Closing(s) && w < |s.workers|
    ensures Closing(Move(s, Work(w, choice, now)))
  {
    var s' := Move(s, Work(w, choice, now));
    EffectRest(s, w, s.workers[w], choice, now);
    IdleAfter(s, w, choice, now);
    forall v: nat | v < |s'.workers|
      ensures IdleOk(s', v)
    {
      assert IdleOk(s, v);
      IdleOkAfter(s, w, choice, now, v);
    }
    if AllPast(s') {
      PastAfter(s, w, choice, now);
    }
  }

  // Only the question about the timers ends an idle fiber.
  lemma {:induction false} IdleAfter(s: State, w: nat, choice: Choice, now: nat)
    requires w < |s.workers| && |s.idle| == |s.workers|
    ensures var s' := Move(s, Work(w, choice, now));
            && s'.stopping == s.stopping && |s'.workers| == |s'.idle| == |s.workers|
            && forall v: nat | v < |s.workers| ::
                 && (IdleOf(s', v) <==> IdleOf(s, v) || (v == w && s.workers[w] == Ask && s.armed == []))
                 && (v != w ==> s'.workers[v] == s.workers[v])
  {
    EffectRest(s, w, s.workers[w], choice, now);
  }

  lemma {:induction false} IdleOkAfter(s: State, w: nat, choice: Choice, now: nat, v: nat)
    requires Exclusive(s) && Closing(s) && w < |s.workers| && v < |s.workers|
    ensures IdleOk(Move(s, Work(w, choice, now)), v)
  {
    IdleAfter(s, w, choice, now);
    assert IdleOk(s, v) && IdleOk(s, w);
  }

  // The last worker to pass the queue found it empty.
  lemma {:induction false} PastAfter(s: State, w: nat, choice: Choice, now: nat)
    requires Exclusive(s) && Closing(s) && w < |s.workers| && AllPast(Move(s, Work(w, choice, now)))
    ensures Move(s, Work(w, choice, now)).queue == []
  {
    var s' := Move(s, Work(w, choice, now));
    IdleAfter(s, w, choice, now);
    assert PastAt(s', w) && KnowsAt(s, w) && IdleOk(s, w);
    if PastAt(s, w) {
      forall v: nat | v < |s.workers|
        ensures PastAt(s, v)
      {
        assert PastAt(s', v);
      }
    }
  }

  lemma {:induction false} StepClosing(s: State, a: Action)
    requires Exclusive(s) && Closing(s)
    ensures Closing(Step(s, a))
  {
    assert IdleOk(s, 0);
    if a.Work? && a.w < |s.workers| {
      WorkClosing(s, a.w, a.choice, a.now);
    } else {
      OutsideClosing(s, a);
    }
  }

  lemma {:induction false} OutsideClosing(s: State, a: Action)
    requires Closing(s) && !(a.Work? && a.w < |s.workers|)
    ensures Closing(Move(s, a))
  {
    var s' := Move(s, a);
    forall v: nat | v < |s'.workers|
      ensures IdleOk(s', v)
    {
      assert IdleOk(s, v);
    }
    if AllPast(s') {
      assert PastAt(s', 0) && IdleOk(s, 0);
      forall v: nat | v < |s.workers|
        ensures PastAt(s, v)
      {
        assert PastAt(s', v);
      }
    }
  }

  lemma {:induction false} RunClosing(ss: seq<State>, actions: seq<Action>, n: nat, i: nat)
    requires n > 0 && IsRun(ss, actions) && ss[0] == Initial(n) && i <= |actions| && Undoubled(ss, actions)
    ensures Closing(ss[i])
  {
    if i == 0 {
      assert !PastAt(Initial(n), 0);
    } else {
      RunClosing(ss, actions, n, i - 1);
      RunExclusive(ss, actions, n, i - 1);
      assert ss[i] == Step(ss[i - 1], actions[i - 1]);
      StepClosing(ss[i - 1], actions[i - 1]);
    }
  }

  // ---------------------------------------------------------------- what an idle fiber sees

  // The worker is between the two changes of the active count.
  predicate Counted(pc: Pc) {
    || pc.Env? || pc.Enter? || pc.Code? || pc.Sleep? || pc.Mark? || pc.Switch? || pc.Lower?
    || pc.Wake? || pc.Unmark? || pc.Notify?
  }

  function ActiveIn(ws: seq<Pc>): nat {
    if ws == [] then 0 else ActiveIn(ws[..|ws| - 1]) + if Counted(ws[|ws| - 1]) then 1 else 0
  }

  lemma {:induction false} ActiveUpdate(ws: seq<Pc>, w: nat, pc: Pc)
    requires w < |ws|
    ensures ActiveIn(ws[w := pc]) + (if Counted(ws[w]) then 1 else 0) == ActiveIn(ws) + if Counted(pc) then 1 else 0
  {
    var n := |ws| - 1;
    if w == n {
      assert ws[w := pc][..n] == ws[..n];
    } else {
      assert ws[w := pc][..n] == ws[..n][w := pc];
      ActiveUpdate(ws[..n], w, pc);
    }
  }

  lemma {:induction false} NobodyActive(ws: seq<Pc>)
    ensures ActiveIn(ws) == 0 <==> forall w | 0 <= w < |ws| :: !Counted(ws[w])
  {
    if ws != [] {
      var n := |ws| - 1;
      NobodyActive(ws[..n]);
      assert forall w | 0 <= w < n :: ws[..n][w] == ws[w];
    }
  }

  lemma {:induction false} EffectActive(s: State, w: nat, pc: Pc, choice: Choice, now: nat)
    requires Counted(pc) ==> s.active > 0
    ensures Effect(s, w, pc, choice, now).active + (if Counted(pc) then 1 else 0)
         == s.active + if Counted(Next(s, w, pc, choice, now)) then 1 else 0
  {
  }

  lemma {:induction false} StepActive(s: State, a: Action)
    requires s.active == ActiveIn(s.workers)
    ensures Step(s, a).active == ActiveIn(Step(s, a).workers)
  {
    if a.Work? && a.w < |s.workers| {
      var pc := s.workers[a.w];
      NobodyActive(s.workers);
      EffectRest(s, a.w, pc, a.choice, a.now);
      EffectActive(s, a.w, pc, a.choice, a.now);
      ActiveUpdate(s.workers, a.w, Next(s, a.w, pc, a.choice, a.now));
    }
  }

  // The active count is the number of workers between its two changes, in every run.
  lemma {:induction false} RunActive(ss: seq<State>, actions: seq<Action>, n: nat, i: nat)
    requires IsRun(ss, actions) && ss[0] == Initial(n) && i <= |actions|
    ensures ss[i].active == ActiveIn(ss[i].workers)
  {
    if i == 0 {
      NobodyActive(ss[0].workers);
    } else {
      RunActive(ss, actions, n, i - 1);
      assert ss[i] == Step(ss[i - 1], actions[i - 1]);
      StepActive(ss[i - 1], actions[i - 1]);
    }
  }

  // An idle fiber goes on to ask for timers, the last thing it asks for, exactly when stop was
  // called, the queue is empty, and no worker is between the two changes of the active count.
  lemma {:induction false} IdleAsks(ss: seq<State>, actions: seq<Action>, n: nat, i: nat, w: nat, choice: Choice, now: nat)
    requires IsRun(ss, actions) && ss[0] == Initial(n) && i <= |actions| && !ss[i].aborted
    requires w < |ss[i].workers| && ss[i].workers[w] == Idle
    ensures var s' := Step(ss[i], Work(w, choice, now));
            && |s'.workers| == |ss[i].workers|
            && (s'.workers[w] == Ask <==>
                  && ss[i].stopping && ss[i].queue == []
                  && forall v | 0 <= v < |ss[i].workers| :: !Counted(ss[i].workers[v]))
  {
    RunActive(ss, actions, n, i);
    NobodyActive(ss[i].workers);
  }

  // ---------------------------------------------------------------- sleeps that come too late

  // A sleep is armed when the last idle fiber has ended.
  ghost predicate ArmsLate(s: State, a: Action, f: nat) {
    Sleeping(s, a, f) && !HasKey(s.armed, a.choice.key) && AllIdle(s)
  }

  ghost predicate Late(ss: seq<State>, actions: seq<Action>, i: nat, f: nat)
    requires |ss| == |actions| + 1 && i <= |actions|
    decreases i
  {
    i > 0 && (ArmsLate(ss[i - 1], actions[i - 1], f) || Late(ss, actions, i - 1, f))
  }

  // Once the last idle fiber has ended, the timers of sleepers are those that were armed since, and they
  // stay, or are cancelled.
  ghost predicate LateOk(s: State, f: nat, late: bool, denied: bool) {
    && (AllIdle(s) && InArmed(s.armed, f) > 0 ==> late)
    && (late ==> AllIdle(s) && (InArmed(s.armed, f) > 0 || denied))
  }

  lemma {:induction false} IdleStays(s: State, a: Action)
    requires Closing(s)
    ensures AllIdle(s) ==> AllIdle(Step(s, a))
    ensures !AllIdle(s) && AllIdle(Step(s, a)) ==> a.Work? && a.w < |s.workers| && s.workers[a.w] == Ask && s.armed == []
  {
    if a.Work? && a.w < |s.workers| && !s.aborted {
      IdleAfter(s, a.w, a.choice, a.now);
      if !AllIdle(s) && AllIdle(Step(s, a)) {
        var v: nat :| v < |s.workers| && !IdleOf(s, v);
        assert IdleOf(Step(s, a), v);
      }
      forall v: nat | AllIdle(s) && v < |s.workers|
        ensures IdleOf(Step(s, a), v)
      {
        assert IdleOf(s, v);
      }
    } else {
      SameIdle(s, Step(s, a));
    }
  }

  lemma {:induction false} SameIdle(s: State, s': State)
    requires s'.workers == s.workers && s'.idle == s.idle
    ensures AllIdle(s) <==> AllIdle(s')
  {
    assert forall v: nat :: IdleOf(s', v) == IdleOf(s, v);
  }

  // What a step does to the timer of a fiber, once all idle fibers have ended.
  lemma {:induction false} TimerStays(s: State, a: Action, f: nat)
    requires Exclusive(s) && Closing(s) && AllIdle(s)
    ensures InArmed(Step(s, a).armed, f) >= InArmed(s.armed, f) || Denies(s, a, f)
    ensures InArmed(Step(s, a).armed, f) > 0 ==> InArmed(s.armed, f) > 0 || ArmsLate(s, a, f)
    ensures ArmsLate(s, a, f) ==> InArmed(Step(s, a).armed, f) > 0
  {
    match a
    case Work(w, choice, now) =>
      if w < |s.workers| {
        assert IdleOk(s, w) && IdleOf(s, w);
        if s.workers[w].Code? && choice.Sleeps? {
          PushTimer(s.armed, Armed(choice.key, Some(s.workers[w].fiber)), f);
        }
      }
    case Arm(key) => PushTimer(s.armed, Armed(key, None), f);
    case Cancel(key) =>
      StealsCount(s.armed, key, f);
      CancelTimer(s.armed, key, f);
    case Spawn =>
    case Stop =>
  }

  lemma {:induction false} StepLate(s: State, a: Action, f: nat, late: bool, denied: bool)
    requires Exclusive(s) && Closing(s) && Accounted(s, f, denied) && LateOk(s, f, late, denied)
    ensures LateOk(Step(s, a), f, late || ArmsLate(s, a, f), Denies(s, a, f) || (denied && !Sleeping(s, a, f)))
  {
    IdleStays(s, a);
    assert FiberOk(s, f);
    if AllIdle(s) {
      TimerStays(s, a, f);
      if Sleeping(s, a, f) {
        WorkerFiber(s, a.w, f);
      }
    }
  }

  lemma {:induction false} RunLate(ss: seq<State>, actions: seq<Action>, n: nat, i: nat, f: nat)
    requires n > 0 && IsRun(ss, actions) && ss[0] == Initial(n) && i <= |actions| && Undoubled(ss, actions)
    ensures LateOk(ss[i], f, Late(ss, actions, i, f), Denied(ss, actions, i, f))
  {
    if i > 0 {
      RunLate(ss, actions, n, i - 1, f);
      RunExclusive(ss, actions, n, i - 1);
      RunClosing(ss, actions, n, i - 1);
      RunAccounted(ss, actions, n, i - 1, f);
      assert ss[i] == Step(ss[i - 1], actions[i - 1]);
      StepLate(ss[i - 1], actions[i - 1], f, Late(ss, actions, i - 1, f), Denied(ss, actions, i - 1, f));
    }
  }

  // ---------------------------------------------------------------- the drain

  ghost predicate AllOut(s: State) {
    forall w: nat | w < |s.workers| :: s.workers[w] == Exit
  }

  lemma {:induction false} NoWeights(ws: seq<Pc>, f: nat)
    requires forall w: nat | w < |ws| :: ws[w] == Exit
    ensures Weights(ws, f) == 0
  {
    if ws != [] {
      NoWeights(ws[..|ws| - 1], f);
    }
  }

  // What is left when all workers are out: the queue is empty, and a fiber has a holder only if its timer
  // is armed.
  lemma {:induction false} OutHolders(s: State, f: nat)
    requires Closing(s) && AllOut(s)
    ensures s.queue == [] && AllIdle(s) && Holders(s, f) == InArmed(s.armed, f)
  {
    forall w: nat | w < |s.workers|
      ensures PastAt(s, w) && IdleOf(s, w)
    {
      assert IdleOk(s, w);
    }
    NoWeights(s.workers, f);
  }

  // No sleep of the fiber was denied its wake-up in the end, and none was armed too late.
  ghost predicate SleptWell(ss: seq<State>, actions: seq<Action>, f: nat)
    requires |ss| == |actions| + 1
  {
    !Denied(ss, actions, |actions|, f) && !Late(ss, actions, |actions|, f)
  }

  // Fiber by fiber: when all workers are out, it has ended if and only if its wake-up was not denied and
  // it did not go to sleep too late.
  lemma {:induction false} EndedExactly(ss: seq<State>, actions: seq<Action>, n: nat, f: nat)
    requires n > 0 && IsRun(ss, actions) && ss[0] == Initial(n) && Undoubled(ss, actions)
    requires AllOut(ss[|actions|]) && f < |ss[|actions|].fibers|
    ensures F.Finished(ss[|actions|].fibers[f]) <==> SleptWell(ss, actions, f)
  {
    var i := |actions|;
    RunExclusive(ss, actions, n, i);
    RunClosing(ss, actions, n, i);
    RunAccounted(ss, actions, n, i, f);
    RunLate(ss, actions, n, i, f);
    assert FiberOk(ss[i], f);
    OutHolders(ss[i], f);
  }

  // The drain with sleepers: in every run in which nobody is queued twice and at whose end all workers
  // have left, every fiber has ended if and only if no sleep was denied its wake-up and none was armed
  // after the last idle fiber had ended; the queue is empty in any case.
  lemma {:induction false} SleepersDrain(ss: seq<State>, actions: seq<Action>, n: nat)
    requires n > 0 && IsRun(ss, actions) && ss[0] == Initial(n) && Undoubled(ss, actions) && AllOut(ss[|actions|])
    ensures ss[|actions|].queue == []
    ensures (forall f: nat | f < |ss[|actions|].fibers| :: F.Finished(ss[|actions|].fibers[f])) <==>
            (forall f: nat | f < |ss[|actions|].fibers| :: SleptWell(ss, actions, f))
  {
    var s := ss[|actions|];
    RunClosing(ss, actions, n, |actions|);
    OutHolders(s, 0);
    forall f: nat | f < |s.fibers|
      ensures F.Finished(s.fibers[f]) <==> SleptWell(ss, actions, f)
    {
      EndedExactly(ss, actions, n, f);
    }
    if forall f: nat | f < |s.fibers| :: F.Finished(s.fibers[f]) {
      forall f: nat | f < |s.fibers|
        ensures SleptWell(ss, actions, f)
      {
        assert F.Finished(s.fibers[f]);
      }
    }
  }
}
