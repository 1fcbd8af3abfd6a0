/**
 Registrations for readiness events (IOEvent and EventContext, sylar/iomanager.cpp).

 A cancel takes the lock twice: once to trigger the waiting fiber, once to delete the registration.
 The class holds the code; the step system lets cancels, deletes and adds interleave at the locks.
 */
module IoEvents {

  import opened Wrappers
  import S = Scheduling

  // One direction of a file descriptor: its bit in events_, and its EventContext.
  datatype Slot = Slot(on: bool, waiter: Option<nat>)

  datatype Dir = IN | OUT

  // ---------------------------------------------------------------- the class

  class IoEvent {
    var events: set<Dir>
    var read: Option<nat>
    var write: Option<nat>

    constructor ()
      ensures forall d :: SlotOf(d) == Slot(false, None)
    {
      events, read, write := {}, None, None;
    }

    function SlotOf(d: Dir): Slot
      reads this
    {
      Slot(d in events, if d == IN then read else write)
    }

    // add_event. When epoll_ctl fails the mask is restored, but the context keeps the fiber.
    method AddEvent(event: set<Dir>, fiber: nat, epollOk: bool) returns (ok: bool)
      modifies this
      ensures ok == epollOk
      ensures forall d :: SlotOf(d) == if d in event then Slot(ok || old(SlotOf(d)).on, Some(fiber)) else old(SlotOf(d))
    {
      var oldEvents := events;
      events := events + event;
      if IN in event {
        read := Some(fiber);
      }
      if OUT in event {
        write := Some(fiber);
      }
      if !epollOk {
        events := oldEvents;
      }
      ok := epollOk;
    }

    // del_event
    method DelEvent(event: set<Dir>, epollOk: bool) returns (ok: bool)
      modifies this
      ensures ok <==> old(events) * event != {} && epollOk
      ensures forall d :: SlotOf(d) == if old(events) * event != {} && d in event then Slot(false, None) else old(SlotOf(d))
    {
      if events * event == {} {
        return false;
      }
      events := events - event;
      if IN in event {
        read := None;
      }
      if OUT in event {
        write := None;
      }
      ok := epollOk;
    }

    // The first locked part of cancel_event.
    method TriggerEvent(event: set<Dir>, scheduler: S.TaskList) returns (ok: bool)
      modifies this, scheduler
      ensures ok <==> old(events) * event != {}
      ensures events == old(events)
      ensures forall d :: SlotOf(d) == if ok && d in event then old(SlotOf(d)).(waiter := None) else old(SlotOf(d))
      ensures Woken(old(scheduler.tasks), scheduler.tasks,
                    if ok && IN in event then old(read) else None, if ok && OUT in event then old(write) else None)
    {
      if events * event == {} {
        return false;
      }
      if IN in event {
        if read.Some? {
          scheduler.AddFiber(read.value, None);
        }
        read := None;
      }
      if OUT in event {
        if write.Some? {
          scheduler.AddFiber(write.value, None);
        }
        write := None;
      }
      ok := true;
    }

    // cancel_event when nobody comes in between: the fibers that wait are queued, and the
    // registration is gone.
    method CancelEvent(event: set<Dir>, scheduler: S.TaskList, epollOk: bool) returns (ok: bool)
      modifies this, scheduler
      ensures ok <==> old(events) * event != {} && epollOk
      ensures forall d :: SlotOf(d) == if old(events) * event != {} && d in event then Slot(false, None) else old(SlotOf(d))
      ensures var found := old(events) * event != {};
              Woken(old(scheduler.tasks), scheduler.tasks,
                    if found && IN in event then old(read) else None, if found && OUT in event then old(write) else None)
    {
      ok := TriggerEvent(event, scheduler);
      if ok {
        ok := DelEvent(event, epollOk);
      }
    }
  }

  // Behind what was queued there is one unpinned entry for each fiber that waited, and nothing else:
  // first the reader's, then the writer's.
  ghost predicate Woken(before: seq<S.Task>, after: seq<S.Task>, reader: Option<nat>, writer: Option<nat>) {
    && |after| == |before| + (if reader.Some? then 1 else 0) + (if writer.Some? then 1 else 0)
    && before <= after
    && (reader.Some? ==> after[|before|].pin == None && after[|before|].fiber == reader.value)
    && (writer.Some? ==> after[|after| - 1].pin == None && after[|after| - 1].fiber == writer.value)
  }

  // ---------------------------------------------------------------- interleaved calls on one direction

  datatype Pc = Start | Triggered(since: nat) | Returned(ok: bool)

  datatype Call = Cancel(pc: Pc) | Delete(pc: Pc)

  // Registrations are numbered in the order of their adds; epoll_ctl succeeds.
  datatype State = State(
    slot: Slot,
    added: nat,          // registrations so far
    queue: seq<nat>,     // the registrations whose fibers were queued
    dropped: seq<nat>,   // those that a delete took away
    replaced: seq<nat>,  // those that a later add overwrote
    calls: seq<Call>
  )

  datatype Action = Add | Advance(c: nat)

  function Waiting(slot: Slot): seq<nat> {
    if slot.waiter.Some? then [slot.waiter.value] else []
  }

  function Goto(s: State, c: nat, pc: Pc): State {
    if c < |s.calls| then s.(calls := s.calls[c := s.calls[c].(pc := pc)]) else s
  }

  function TriggerStep(s: State, c: nat): State {
    if s.slot.on then
      Goto(s.(queue := s.queue + Waiting(s.slot), slot := s.slot.(waiter := None)), c, Triggered(s.added))
    else Goto(s, c, Returned(false))
  }

  function DeleteStep(s: State, c: nat): State {
    if s.slot.on then
      Goto(s.(dropped := s.dropped + Waiting(s.slot), slot := Slot(false, None)), c, Returned(true))
    else Goto(s, c, Returned(false))
  }

  function Step(s: State, a: Action): State {
    match a
    case Add =>
      s.(slot := Slot(true, Some(s.added)), added := s.added + 1, replaced := s.replaced + Waiting(s.slot))
    case Advance(c) =>
      if c >= |s.calls| || s.calls[c].pc.Returned? then s
      else if s.calls[c].Cancel? && s.calls[c].pc.Start? then TriggerStep(s, c)
      else DeleteStep(s, c)
  }

  function Exec(s: State, actions: seq<Action>): State {
    if actions == [] then s else Step(Exec(s, actions[..|actions| - 1]), actions[|actions| - 1])
  }

  predicate Fresh(calls: seq<Call>) {
    forall i | 0 <= i < |calls| :: calls[i].pc == Start
  }

  function Initial(calls: seq<Call>): State {
    State(Slot(false, None), 0, [], [], [], calls)
  }

  // ---------------------------------------------------------------- what becomes of a registration

  // How often the registration shows up, in whatever place.
  function Places(s: State, r: nat): nat {
    multiset(s.queue)[r] + multiset(s.dropped)[r] + multiset(s.replaced)[r] + multiset(Waiting(s.slot))[r]
  }

  ghost predicate Conserved(s: State, r: nat) {
    Places(s, r) == if r < s.added then 1 else 0
  }

  // How many calls returned true.
  function Trues(calls: seq<Call>): nat {
    if calls == [] then 0
    else Trues(calls[..|calls| - 1]) + if calls[|calls| - 1].pc == Returned(true) then 1 else 0
  }

  // A cancel between its two steps faces only registrations made since the first.
  ghost predicate Newer(s: State, c: nat) {
    c < |s.calls| && s.calls[c].pc.Triggered? ==>
      && s.calls[c].Cancel? && s.calls[c].pc.since <= s.added
      && (s.slot.waiter.Some? ==> s.calls[c].pc.since <= s.slot.waiter.value)
  }

  ghost predicate Inv(s: State) {
    && (s.slot.waiter.Some? ==> s.slot.on)
    && (forall r: nat :: Conserved(s, r))
    && (forall c: nat :: Newer(s, c))
    && Trues(s.calls) + (if s.slot.on then 1 else 0) <= s.added
  }

  lemma {:induction false} TruesUpdate(calls: seq<Call>, c: nat, pc: Pc)
    requires c < |calls| && calls[c].pc != Returned(true)
    ensures Trues(calls[c := calls[c].(pc := pc)]) == Trues(calls) + if pc == Returned(true) then 1 else 0
  {
    var n := |calls| - 1;
    var calls' := calls[c := calls[c].(pc := pc)];
    if c < n {
      TruesUpdate(calls[..n], c, pc);
      assert calls'[..n] == calls[..n][c := calls[c].(pc := pc)];
    } else {
      assert calls'[..n] == calls[..n];
    }
  }

  lemma {:induction false} StepConserves(s: State, a: Action, r: nat)
    requires Conserved(s, r)
    ensures Conserved(Step(s, a), r)
  {
    match a
    case Add => AddConserves(s, r);
    case Advance(c) =>
      if c < |s.calls| && !s.calls[c].pc.Returned? {
        if s.calls[c].Cancel? && s.calls[c].pc.Start? {
          TriggerConserves(s, c, r);
        } else {
          DeleteConserves(s, c, r);
        }
      }
  }

  lemma {:induction false} AddConserves(s: State, r: nat)
    requires Conserved(s, r)
    ensures Conserved(Step(s, Add), r)
  {
    assert multiset(s.replaced + Waiting(s.slot)) == multiset(s.replaced) + multiset(Waiting(s.slot));
  }

  lemma {:induction false} TriggerConserves(s: State, c: nat, r: nat)
    requires Conserved(s, r)
    ensures Conserved(TriggerStep(s, c), r)
  {
    assert multiset(s.queue + Waiting(s.slot)) == multiset(s.queue) + multiset(Waiting(s.slot));
  }

  lemma {:induction false} DeleteConserves(s: State, c: nat, r: nat)
    requires Conserved(s, r)
    ensures Conserved(DeleteStep(s, c), r)
  {
    assert multiset(s.dropped + Waiting(s.slot)) == multiset(s.dropped) + multiset(Waiting(s.slot));
  }

  lemma StepNewer(s: State, a: Action, c: nat)
    requires Inv(s)
    ensures Newer(Step(s, a), c)
  {
    assert Newer(s, c);
  }

  lemma StepInv(s: State, a: Action)
    requires Inv(s)
    ensures Inv(Step(s, a))
  {
    var s' := Step(s, a);
    forall r: nat
      ensures Conserved(s', r)
    {
      assert Conserved(s, r);
      StepConserves(s, a, r);
    }
    forall c: nat
      ensures Newer(s', c)
    {
      StepNewer(s, a, c);
    }
    if a.Advance? && a.c < |s.calls| && !s.calls[a.c].pc.Returned? {
      TruesUpdate(s.calls, a.c, s'.calls[a.c].pc);
      assert s'.calls == s.calls[a.c := s.calls[a.c].(pc := s'.calls[a.c].pc)];
    }
  }

  // In every interleaving of adds, cancels and deletes each registration ends in one place only: it
  // still waits, was queued once, was deleted, or was overwritten. There are at most as many calls
  // that return true as registrations.
  lemma {:induction false} EachOnce(calls: seq<Call>, actions: seq<Action>)
    requires Fresh(calls)
    ensures Inv(Exec(Initial(calls), actions))
  {
    if actions == [] {
      FreshTrues(calls);
    } else {
      EachOnce(calls, actions[..|actions| - 1]);
      StepInv(Exec(Initial(calls), actions[..|actions| - 1]), actions[|actions| - 1]);
    }
  }

  lemma {:induction false} FreshTrues(calls: seq<Call>)
    requires Fresh(calls)
    ensures Trues(calls) == 0
  {
    if calls != [] {
      FreshTrues(calls[..|calls| - 1]);
    }
  }

  // ---------------------------------------------------------------- one registration

  predicate NoAdds(actions: seq<Action>) {
    forall i | 0 <= i < |actions| :: actions[i].Advance?
  }

  // Whether the first step taken belongs to a cancel, so that it is a trigger.
  predicate CancelFirst(calls: seq<Call>, actions: seq<Action>) {
    exists i :: 0 <= i < |actions| && TakenBy(calls, actions[i], true) && forall j | 0 <= j < i :: Nobody(calls, actions[j])
  }

  predicate TakenBy(calls: seq<Call>, a: Action, cancel: bool) {
    a.Advance? && a.c < |calls| && calls[a.c].Cancel? == cancel
  }

  predicate Nobody(calls: seq<Call>, a: Action) {
    a.Advance? && a.c >= |calls|
  }

  // While the slot is on and its fiber waits, no step was taken; after that the fiber was queued
  // if the first step was a trigger.
  ghost predicate OneInv(s: State, calls: seq<Call>, actions: seq<Action>) {
    && |s.calls| == |calls| && s.added == 1
    && Trues(s.calls) + (if s.slot.on then 1 else 0) == 1
    && (forall c | 0 <= c < |calls| :: s.calls[c].Cancel? == calls[c].Cancel?)
    && (s.slot.on ==> forall c | 0 <= c < |calls| :: !s.calls[c].pc.Returned?)
    && (s.slot.waiter.Some? ==> s.slot == Slot(true, Some(0)) && s.calls == calls && s.queue == []
                                && forall j | 0 <= j < |actions| :: Nobody(calls, actions[j]))
    && (s.slot.waiter.None? ==> s.queue == if CancelFirst(calls, actions) then [0] else [])
    && (s.slot.waiter.None? ==> !forall j | 0 <= j < |actions| :: Nobody(calls, actions[j]))
  }

  // One registration, and any interleaving of cancels and deletes: the fiber is queued once if a
  // trigger came before every delete, and not at all if not; as soon as all calls are back, exactly
  // one of them returned true.
  lemma {:induction false} OneWakeup(calls: seq<Call>, actions: seq<Action>)
    requires Fresh(calls) && NoAdds(actions)
    ensures var s := Exec(Step(Initial(calls), Add), actions);
            && OneInv(s, calls, actions)
            && s.queue == (if CancelFirst(calls, actions) then [0] else [])
            && Trues(s.calls) <= 1
            && (calls != [] && (forall c | 0 <= c < |calls| :: s.calls[c].pc.Returned?) ==> Trues(s.calls) == 1)
  {
    if actions == [] {
      FreshTrues(calls);
    } else {
      var n := |actions| - 1;
      OneWakeup(calls, actions[..n]);
      var s := Exec(Step(Initial(calls), Add), actions[..n]);
      OneStep(s, calls, actions[..n], actions[n]);
      assert actions[..n] + [actions[n]] == actions;
    }
  }

  lemma FirstGrows(calls: seq<Call>, before: seq<Action>, a: Action)
    ensures var none := forall j | 0 <= j < |before| :: Nobody(calls, before[j]);
            CancelFirst(calls, before + [a]) <==> CancelFirst(calls, before) || (none && TakenBy(calls, a, true))
  {
    var after := before + [a];
    assert forall j | 0 <= j < |before| :: after[j] == before[j];
    assert after[|before|] == a;
    if i :| 0 <= i < |before| && TakenBy(calls, before[i], true) && forall j | 0 <= j < i :: Nobody(calls, before[j]) {
      assert TakenBy(calls, after[i], true);
    }
  }

  lemma OneStep(s: State, calls: seq<Call>, before: seq<Action>, a: Action)
    requires Fresh(calls) && a.Advance? && OneInv(s, calls, before)
    ensures OneInv(Step(s, a), calls, before + [a])
  {
    var s', after := Step(s, a), before + [a];
    FirstGrows(calls, before, a);
    assert forall j | 0 <= j < |before| :: after[j] == before[j];
    assert after[|before|] == a;
    if a.c < |s.calls| && !s.calls[a.c].pc.Returned? {
      TruesUpdate(s.calls, a.c, s'.calls[a.c].pc);
      assert s'.calls == s.calls[a.c := s.calls[a.c].(pc := s'.calls[a.c].pc)];
    }
  }

  // ---------------------------------------------------------------- the gap inside a cancel

  // Without adds in between, the delete of a cancel finds nobody: what it takes away was triggered.
  lemma {:induction false} QuietCancel(s: State, actions: seq<Action>)
    requires s.slot.waiter.None? && NoAdds(actions)
    ensures Exec(s, actions).slot.waiter.None?
  {
    if actions != [] {
      QuietCancel(s, actions[..|actions| - 1]);
    }
  }

  // The action has no effect: the call it names does not exist or is back.
  predicate Idle(s: State, a: Action) {
    a.Advance? && (a.c >= |s.calls| || s.calls[a.c].pc.Returned?)
  }

  // The last action that touched the slot was an add.
  predicate AddLast(s: State, actions: seq<Action>) {
    actions != [] &&
    var n := |actions| - 1;
    actions[n].Add? || (AddLast(s, actions[..n]) && Idle(Exec(s, actions[..n]), actions[n]))
  }

  lemma {:induction false} WaitsIfAddLast(s: State, actions: seq<Action>)
    requires Inv(s) && s.slot.waiter.None?
    ensures Inv(Exec(s, actions)) && (Exec(s, actions).slot.waiter.Some? <==> AddLast(s, actions))
  {
    if actions != [] {
      var n := |actions| - 1;
      WaitsIfAddLast(s, actions[..n]);
      StepInv(Exec(s, actions[..n]), actions[n]);
    }
  }

  // A cancel on a registered direction, with `between` running between its trigger and its delete:
  // the delete takes away a registration exactly when an add was the last to touch the slot; it was
  // made since the trigger, and nobody queued it.
  lemma {:induction false} CancelDrops(s: State, c: nat, between: seq<Action>)
    requires Inv(s) && s.slot.on && c < |s.calls| && s.calls[c] == Cancel(Start)
    requires forall i | 0 <= i < |between| :: between[i] != Advance(c)
    ensures var s1 := Exec(Step(s, Advance(c)), between);
            var s2 := Step(s1, Advance(c));
            && (s2.dropped == s1.dropped + Waiting(s1.slot))
            && (forall r | r in Waiting(s1.slot) :: s.added <= r && r !in s2.queue)
            && (s2.dropped != s1.dropped <==> AddLast(Step(s, Advance(c)), between))
            && (NoAdds(between) ==> s2.dropped == s1.dropped)
  {
    var s0 := Step(s, Advance(c));
    StepInv(s, Advance(c));
    Untouched(s0, c, between);
    WaitsIfAddLast(s0, between);
    var s1 := Exec(s0, between);
    StepInv(s1, Advance(c));
    assert Newer(s1, c);
    if NoAdds(between) {
      QuietCancel(s0, between);
    }
    forall r | r in Waiting(s1.slot)
      ensures s.added <= r && r !in Step(s1, Advance(c)).queue
    {
      assert Conserved(s1, r);
    }
  }

  lemma {:induction false} Untouched(s: State, c: nat, actions: seq<Action>)
    requires Inv(s) && c < |s.calls| && forall i | 0 <= i < |actions| :: actions[i] != Advance(c)
    ensures Inv(Exec(s, actions)) && |Exec(s, actions).calls| == |s.calls| && Exec(s, actions).calls[c] == s.calls[c]
  {
    if actions != [] {
      Untouched(s, c, actions[..|actions| - 1]);
      StepInv(Exec(s, actions[..|actions| - 1]), actions[|actions| - 1]);
    }
  }

  // An add between the trigger and the delete of a cancel is lost: off, and never queued.
  lemma {:induction false} ReaddIsLost(s: State, c: nat)
    requires Inv(s) && s.slot.on && c < |s.calls| && s.calls[c] == Cancel(Start)
    ensures var s' := Exec(s, [Advance(c), Add, Advance(c)]);
            s'.slot == Slot(false, None) && s.added in s'.dropped && s.added !in s'.queue
  {
    var s1 := Step(s, Advance(c));
    assert Exec(s1, [Add]) == Step(Exec(s1, []), Add);
    CancelDrops(s, c, [Add]);
    var three := [Advance(c), Add, Advance(c)];
    assert three[..2] == [Advance(c), Add] && three[..2][..1] == [Advance(c)] && three[..2][..1][..0] == [];
    assert Exec(s, [Advance(c)]) == s1;
  }

  // ---------------------------------------------------------------- the class runs the step system

  // The queue entries of the registrations `rs`, when `who` says whose they are.
  ghost function Entries(rs: seq<nat>, who: nat -> nat): seq<S.Task> {
    seq(|rs|, i requires 0 <= i < |rs| => S.Task(None, who(rs[i])))
  }

  // One direction of the object, and what it has queued, are those of `s`.
  ghost predicate Shows(slot: Slot, before: seq<S.Task>, tasks: seq<S.Task>, s: State, who: nat -> nat) {
    && slot.on == s.slot.on
    && slot.waiter == (if s.slot.waiter.Some? then Some(who(s.slot.waiter.value)) else None)
    && tasks == before + Entries(s.queue, who)
  }

  lemma {:induction false} TriggerShows(slot: Slot, before: seq<S.Task>, tasks: seq<S.Task>, tasks': seq<S.Task>, s: State, c: nat, who: nat -> nat)
    requires Shows(slot, before, tasks, s, who) && slot.on
    requires Woken(tasks, tasks', slot.waiter, None) || Woken(tasks, tasks', None, slot.waiter)
    ensures Shows(slot.(waiter := None), before, tasks', TriggerStep(s, c), who)
  {
    var s' := TriggerStep(s, c);
    assert s'.queue == s.queue + Waiting(s.slot);
    if slot.waiter.Some? {
      var r := s.slot.waiter.value;
      assert tasks' == tasks + [S.Task(None, who(r))];
      assert Entries(s'.queue, who) == Entries(s.queue, who) + [S.Task(None, who(r))];
    } else {
      assert tasks' == tasks && s'.queue == s.queue;
    }
  }

  lemma {:induction false} Meets(events: set<Dir>, d: Dir)
    ensures events * {d} != {} <==> d in events
  {
    assert d in events ==> d in events * {d};
  }

  // One action on direction `d`, done by the object's methods: `calls` says how far each call is.
  method Perform(e: IoEvent, d: Dir, scheduler: S.TaskList, calls: seq<Call>, added: nat, a: Action, who: nat -> nat,
                 ghost before: seq<S.Task>, ghost s: State)
    returns (calls': seq<Call>, added': nat)
    requires Shows(e.SlotOf(d), before, scheduler.tasks, s, who) && s.calls == calls && s.added == added
    modifies e, scheduler
    ensures Shows(e.SlotOf(d), before, scheduler.tasks, Step(s, a), who)
    ensures Step(s, a).calls == calls' && Step(s, a).added == added'
    ensures forall d' | d' != d :: e.SlotOf(d') == old(e.SlotOf(d'))
  {
    calls', added' := calls, added;
    Meets(e.events, d);
    match a
    case Add =>
      var ok := e.AddEvent({d}, who(added), true);
      added' := added + 1;
    case Advance(c) =>
      if c < |calls| && !calls[c].pc.Returned? {
        if calls[c].Cancel? && calls[c].pc.Start? {
          ghost var slot, tasks := e.SlotOf(d), scheduler.tasks;
          var ok := e.TriggerEvent({d}, scheduler);
          if ok {
            TriggerShows(slot, before, tasks, scheduler.tasks, s, c, who);
          }
          calls' := calls[c := Cancel(if ok then Triggered(added) else Returned(false))];
        } else {
          var ok := e.DelEvent({d}, true);
          calls' := calls[c := calls[c].(pc := Returned(ok))];
        }
      }
  }

  // Any interleaving of adds, cancels and deletes on a direction of a new object is a run of the
  // step system, and leaves the other direction alone.
  method PerformAll(e: IoEvent, d: Dir, scheduler: S.TaskList, calls: seq<Call>, actions: seq<Action>, who: nat -> nat) returns (calls': seq<Call>)
    requires e.SlotOf(d) == Slot(false, None) && Fresh(calls)
    modifies e, scheduler
    ensures var s := Exec(Initial(calls), actions);
            Shows(e.SlotOf(d), old(scheduler.tasks), scheduler.tasks, s, who) && s.calls == calls'
    ensures forall d' | d' != d :: e.SlotOf(d') == old(e.SlotOf(d'))
  {
    ghost var before := scheduler.tasks;
    var i, added := 0, 0;
    calls' := calls;
    assert actions[..0] == [];
    while i < |actions|
      invariant i <= |actions|
      invariant Shows(e.SlotOf(d), before, scheduler.tasks, Exec(Initial(calls), actions[..i]), who)
      invariant Exec(Initial(calls), actions[..i]).calls == calls' && Exec(Initial(calls), actions[..i]).added == added
      invariant forall d' | d' != d :: e.SlotOf(d') == old(e.SlotOf(d'))
    {
      ghost var s := Exec(Initial(calls), actions[..i]);
      assert actions[..i + 1][..i] == actions[..i];
      calls', added := Perform(e, d, scheduler, calls', added, actions[i], who, before, s);
      i := i + 1;
    }
    assert actions[..i] == actions;
  }

  // A fiber registered once, and any interleaving of cancels and deletes on it: the object queues
  // it once, unpinned, if a trigger comes before every delete, and not at all if not.
  method WakeOnce(e: IoEvent, d: Dir, scheduler: S.TaskList, fiber: nat, calls: seq<Call>, actions: seq<Action>) returns (calls': seq<Call>)
    requires e.SlotOf(d) == Slot(false, None) && Fresh(calls) && NoAdds(actions)
    modifies e, scheduler
    ensures scheduler.tasks == old(scheduler.tasks) + if CancelFirst(calls, actions) then [S.Task(None, fiber)] else []
    ensures Trues(calls') <= 1
    ensures calls != [] && (forall c | 0 <= c < |calls'| :: calls'[c].pc.Returned?) ==> Trues(calls') == 1
  {
    calls' := PerformAll(e, d, scheduler, calls, [Add] + actions, _ => fiber);
    AddFirst(Initial(calls), actions);
    OneWakeup(calls, actions);
    assert Entries([0], _ => fiber) == [S.Task(None, fiber)];
  }

  lemma {:induction false} AddFirst(s: State, actions: seq<Action>)
    ensures Exec(s, [Add] + actions) == Exec(Step(s, Add), actions)
  {
    var n := |actions|;
    if n == 0 {
      assert [Add] + actions == [Add] && [Add][..0] == [];
    } else {
      AddFirst(s, actions[..n - 1]);
      assert ([Add] + actions)[..n] == [Add] + actions[..n - 1];
    }
  }
}
