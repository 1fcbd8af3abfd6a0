/**
 Which sleepers are never woken. Over every run in which nobody is queued twice, a fiber that has not
 ended and that nobody runs is lost if and only if its last sleep was refused a timer, or a cancel hit
 the key of its timer since.
 */
module SleepLosses {

  import opened Wrappers
  import opened SleepProtocol
  import opened SleepOwnership

  // ---------------------------------------------------------------- what denies a wake-up

  // Fiber `f` goes to sleep in this step.
  predicate Sleeping(s: State, a: Action, f: nat) {
    !s.aborted && a.Work? && a.w < |s.workers| && s.workers[a.w] == Code(f) && a.choice.Sleeps?
  }

  // It is refused a timer, or its timer is cancelled.
  ghost predicate Denies(s: State, a: Action, f: nat) {
    || (Sleeping(s, a, f) && HasKey(s.armed, a.choice.key))
    || (!s.aborted && a.Cancel? && Steals(s.armed, a.key, f))
  }

  // Its last sleep was refused, or its timer was cancelled since.
  ghost predicate Denied(ss: seq<State>, actions: seq<Action>, i: nat, f: nat)
    requires |ss| == |actions| + 1 && i <= |actions|
    decreases i
  {
    i > 0 && (Denies(ss[i - 1], actions[i - 1], f) || (Denied(ss, actions, i - 1, f) && !Sleeping(ss[i - 1], actions[i - 1], f)))
  }

  // ---------------------------------------------------------------- the invariant

  predicate Alive(s: State, f: nat) {
    f < |s.fibers| && !F.Finished(s.fibers[f])
  }

  // Whoever is alive has its holder, unless its wake-up was denied.
  ghost predicate Accounted(s: State, f: nat, denied: bool) {
    && (denied ==> Alive(s, f))
    && (Alive(s, f) ==> (Holders(s, f) == 0 <==> denied))
  }

  lemma {:induction false} StealsCount(armed: seq<Armed>, key: nat, f: nat)
    ensures Steals(armed, key, f) <==> InArmed(Without(armed, key), f) < InArmed(armed, f)
  {
    if armed != [] {
      var a, tail := armed[0], armed[1..];
      StealsCount(tail, key, f);
      CancelTimer(tail, key, f);
      StealsSplit(armed, key, f);
      if a.key != key {
        assert ([a] + Without(tail, key))[1..] == Without(tail, key);
      }
    }
  }

  lemma {:induction false} StealsSplit(armed: seq<Armed>, key: nat, f: nat)
    requires armed != []
    ensures Steals(armed, key, f) <==> (armed[0].key == key && armed[0].owner == Some(f)) || Steals(armed[1..], key, f)
  {
    if i :| 0 <= i < |armed| && armed[i].key == key && armed[i].owner == Some(f) {
      assert i > 0 ==> armed[1..][i - 1] == armed[i];
    }
    if i :| 0 <= i < |armed[1..]| && armed[1..][i].key == key && armed[1..][i].owner == Some(f) {
      assert armed[i + 1] == armed[1..][i];
    }
  }

  lemma {:induction false} WorkAccounted(s: State, w: nat, choice: Choice, now: nat, f: nat, denied: bool)
    requires Exclusive(s) && w < |s.workers| && !Doubles(s, Work(w, choice, now)) && Accounted(s, f, denied)
    ensures var a := Work(w, choice, now);
            Accounted(Move(s, a), f, Denies(s, a, f) || (denied && !Sleeping(s, a, f)))
  {
    WorkerFiber(s, w, f);
    EffectRest(s, w, s.workers[w], choice, now);
    StateAfter(s, w, s.workers[w], choice, now, f);
    HoldersKept(s, w, choice, now, f);
    DropsIs(s, w, choice, now, f);
  }

  // A fiber that is alive is dropped only when its sleep is refused.
  lemma {:induction false} DropsIs(s: State, w: nat, choice: Choice, now: nat, f: nat)
    requires Exclusive(s) && w < |s.workers|
    ensures Drops(s, s.workers[w], choice) && Weight(s.workers[w], f) > 0 && Alive(s, f) ==>
              s.workers[w] == Code(f) && choice.Sleeps? && HasKey(s.armed, choice.key)
    ensures s.workers[w] == Code(f) && choice.Sleeps? && HasKey(s.armed, choice.key) ==> Holders(Move(s, Work(w, choice, now)), f) == 0
  {
    WorkerFiber(s, w, f);
    ShareMoves(s, w, choice, now, f);
    ShareKept(s, w, s.workers[w], choice, now, f);
  }

  lemma {:induction false} StepAccounted(s: State, a: Action, f: nat, denied: bool)
    requires Exclusive(s) && !Doubles(s, a) && Accounted(s, f, denied)
    ensures Accounted(Step(s, a), f, Denies(s, a, f) || (denied && !Sleeping(s, a, f)))
  {
    assert FiberOk(s, f);
    match a
    case Work(w, choice, now) => if w < |s.workers| { WorkAccounted(s, w, choice, now, f, denied); }
    case Arm(key) => PushTimer(s.armed, Armed(key, None), f);
    case Cancel(key) =>
      StealsCount(s.armed, key, f);
      CancelTimer(s.armed, key, f);
    case Spawn => PushQueue(s.queue, Run(|s.fibers|), f);
    case Stop =>
  }

  lemma {:induction false} RunAccounted(ss: seq<State>, actions: seq<Action>, n: nat, i: nat, f: nat)
    requires IsRun(ss, actions) && ss[0] == Initial(n) && i <= |actions| && Undoubled(ss, actions)
    ensures Accounted(ss[i], f, Denied(ss, actions, i, f))
  {
    if i > 0 {
      RunAccounted(ss, actions, n, i - 1, f);
      RunExclusive(ss, actions, n, i - 1);
      assert ss[i] == Step(ss[i - 1], actions[i - 1]);
      StepAccounted(ss[i - 1], actions[i - 1], f, Denied(ss, actions, i - 1, f));
    }
  }

  // ---------------------------------------------------------------- holders and cover

  lemma {:induction false} QueuedCounts(q: seq<Item>, f: nat)
    ensures Queued(q, f) <==> InQueue(q, f) > 0
  {
    if q != [] {
      QueuedCounts(q[1..], f);
      PopQueues(q, f);
    }
  }

  lemma {:induction false} ArmedForCounts(armed: seq<Armed>, f: nat)
    ensures ArmedFor(armed, f) <==> InArmed(armed, f) > 0
  {
    if armed != [] {
      ArmedForCounts(armed[1..], f);
      SplitArmed(armed, f);
    }
  }

  lemma {:induction false} SomeWeight(ws: seq<Pc>, f: nat)
    ensures Weights(ws, f) > 0 <==> exists w: nat :: w < |ws| && Weight(ws[w], f) > 0
  {
    if ws != [] {
      var n := |ws| - 1;
      SomeWeight(ws[..n], f);
      if w: nat :| w < |ws| && Weight(ws[w], f) > 0 {
        assert w < n ==> ws[..n][w] == ws[w];
      }
      if w: nat :| w < n && Weight(ws[..n][w], f) > 0 {
        assert ws[w] == ws[..n][w];
      }
      assert ws[n] == ws[|ws| - 1];
    }
  }

  // Where nobody executes the fiber, it is covered exactly when it has a holder.
  lemma {:induction false} CoveredIsHeld(s: State, f: nat)
    requires forall w: nat :: !ExecutesAt(s, f, w)
    ensures Covered(s, f) <==> Holders(s, f) > 0
  {
    QueuedCounts(s.queue, f);
    ArmedForCounts(s.armed, f);
    SomeWeight(s.workers, f);
    forall w: nat | w < |s.workers|
      ensures Carries(s.workers[w], f) <==> Weight(s.workers[w], f) > 0
    {
      assert !ExecutesAt(s, f, w);
      if s.workers[w].Expiring? {
        DueIn(s.workers[w].due, f);
      }
    }
    if w: nat :| w < |s.workers| && Weight(s.workers[w], f) > 0 {
      assert CarriesAt(s, f, w);
    }
    if w: nat :| CarriesAt(s, f, w) {
      assert Weight(s.workers[w], f) > 0;
    }
  }

  // A fiber that has not ended and that nobody runs is lost if and only if its wake-up was denied.
  lemma {:induction false} LostExactly(ss: seq<State>, actions: seq<Action>, n: nat, i: nat, f: nat)
    requires IsRun(ss, actions) && ss[0] == Initial(n) && i <= |actions| && Undoubled(ss, actions)
    requires Alive(ss[i], f) && forall w: nat :: !ExecutesAt(ss[i], f, w)
    ensures Lost(ss[i], f) <==> Denied(ss, actions, i, f)
  {
    RunAccounted(ss, actions, n, i, f);
    CoveredIsHeld(ss[i], f);
  }
}
