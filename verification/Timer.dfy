/**
 Timers (sylar/timer.h, sylar/timer.cpp): a set ordered by a key, the expiry, that its members change.
 Two timers with equal expiry are one key. The clock is a parameter of every call that reads it.
 */
module Timers {

  import opened Bytes

  type uint64 = x: int | 0 <= x < TWO64

  // Unsigned 64-bit addition and subtraction.
  function Plus(a: uint64, b: uint64): uint64 {
    if a + b < TWO64 then a + b else a + b - TWO64
  }

  function Minus(a: uint64, b: uint64): uint64 {
    if a >= b then a - b else a - b + TWO64
  }

  lemma WrapAround(a: uint64, b: uint64)
    ensures Plus(a, b) == (a + b) % TWO64 && Minus(a, b) == (a - b) % TWO64
  {
  }

  // A timer that is reset from its last start is due a new period after that start.
  lemma FromLastStart(start: uint64, period: uint64, ms: uint64)
    ensures Plus(Minus(Plus(start, period), period), ms) == Plus(start, ms)
  {
  }

  // ---------------------------------------------------------------- the ordered set as a value

  datatype Entry = Entry(timer: Timer, key: uint64)

  ghost predicate Sorted(es: seq<Entry>) {
    forall i, j | 0 <= i < j < |es| :: es[i].key < es[j].key
  }

  ghost predicate HasKey(es: seq<Entry>, key: uint64) {
    exists e :: e in es && e.key == key
  }

  // Where a key belongs: std::set::lower_bound.
  ghost function Place(es: seq<Entry>, key: int): (at: nat)
    ensures at <= |es| && (forall j | 0 <= j < at :: es[j].key < key) && (at < |es| ==> es[at].key >= key)
  {
    if es == [] || es[0].key >= key then 0 else 1 + Place(es[1..], key)
  }

  // std::set::insert and erase.
  ghost function Insert(es: seq<Entry>, e: Entry): seq<Entry> {
    var at := Place(es, e.key);
    if at < |es| && es[at].key == e.key then es else es[..at] + [e] + es[at..]
  }

  ghost function Erase(es: seq<Entry>, key: uint64): seq<Entry> {
    var at := Place(es, key);
    if at < |es| && es[at].key == key then es[..at] + es[at + 1..] else es
  }

  // Out under one key, and in again under the other.
  ghost function Rekey(es: seq<Entry>, t: Timer, key: uint64, key': uint64): seq<Entry> {
    if HasKey(es, key) then Insert(Erase(es, key), Entry(t, key')) else es
  }

  // Whether the key is there is seen at the place where it belongs.
  lemma KeyAt(es: seq<Entry>, key: uint64)
    requires Sorted(es)
    ensures var at := Place(es, key); HasKey(es, key) <==> at < |es| && es[at].key == key
  {
    var at := Place(es, key);
    if at < |es| && es[at].key == key {
      assert es[at] in es;
    }
  }

  lemma InsertSorted(es: seq<Entry>, e: Entry)
    requires Sorted(es)
    ensures Sorted(Insert(es, e))
  {
  }

  lemma InsertMembers(es: seq<Entry>, e: Entry, x: Entry)
    requires Sorted(es)
    ensures x in Insert(es, e) <==> x in es || (x == e && !HasKey(es, e.key))
  {
    KeyAt(es, e.key);
  }

  lemma EraseSorted(es: seq<Entry>, key: uint64)
    requires Sorted(es)
    ensures Sorted(Erase(es, key))
  {
  }

  lemma EraseMembers(es: seq<Entry>, key: uint64, x: Entry)
    requires Sorted(es)
    ensures x in Erase(es, key) <==> x in es && x.key != key
  {
    KeyAt(es, key);
  }

  // Deleting a timer that is in the set removes that very timer and no other.
  lemma DeleteMember(es: seq<Entry>, e: Entry, x: Entry)
    requires Sorted(es) && e in es
    ensures x in Erase(es, e.key) <==> x in es && x != e
  {
    EraseMembers(es, e.key, x);
  }

  // Deleting one that is not in the set goes by its key: it changes nothing exactly when no other
  // timer has this key, and else that one is lost.
  lemma DeleteStranger(es: seq<Entry>, key: uint64)
    requires Sorted(es)
    ensures Erase(es, key) == es <==> !HasKey(es, key)
    ensures forall e | e in es && e.key == key :: e !in Erase(es, key)
  {
    KeyAt(es, key);
    forall e | e in es && e.key == key
      ensures e !in Erase(es, key)
    {
      EraseMembers(es, key, e);
    }
  }

  // Refresh and reset of a timer in the set move it and no other; they lose it exactly when another
  // timer has the new key.
  lemma RekeyMember(es: seq<Entry>, e: Entry, key: uint64, x: Entry)
    requires Sorted(es) && e in es
    ensures Sorted(Rekey(es, e.timer, e.key, key))
    ensures x in Rekey(es, e.timer, e.key, key) <==>
              || (x in es && x != e)
              || (x == Entry(e.timer, key) && !exists y :: y in es && y != e && y.key == key)
  {
    var rest, e' := Erase(es, e.key), Entry(e.timer, key);
    EraseSorted(es, e.key);
    InsertSorted(rest, e');
    InsertMembers(rest, e', x);
    DeleteMember(es, e, x);
    forall y
      ensures y in rest <==> y in es && y != e
    {
      DeleteMember(es, e, y);
    }
  }

  // ---------------------------------------------------------------- expiry

  // What get_expired_timers looks at in a timer that is due.
  datatype Due = Due(timer: Timer, recurring: bool, period: uint64)

  // The loop over the expired timers: the recurring ones are offered again, in order.
  ghost function Requeue(es: seq<Entry>, ds: seq<Due>, now: uint64): seq<Entry> {
    if ds == [] then es
    else
      var n := |ds| - 1;
      var es' := Requeue(es, ds[..n], now);
      if ds[n].recurring then Insert(es', Entry(ds[n].timer, Plus(now, ds[n].period))) else es'
  }

  ghost predicate Again(ds: seq<Due>, now: uint64, key: uint64, j: nat) {
    j < |ds| && ds[j].recurring && Plus(now, ds[j].period) == key
  }

  // Due timer `j` gets its place back: it recurs, no timer that was not due has its new key, and no
  // due timer before it has its period.
  ghost predicate Kept(es: seq<Entry>, ds: seq<Due>, now: uint64, j: nat) {
    && j < |ds| && ds[j].recurring && !HasKey(es, Plus(now, ds[j].period))
    && forall i: nat | i < j :: !Again(ds, now, Plus(now, ds[j].period), i)
  }

  lemma {:induction false} RequeueSorted(es: seq<Entry>, ds: seq<Due>, now: uint64)
    requires Sorted(es)
    ensures Sorted(Requeue(es, ds, now))
  {
    if ds != [] {
      var n := |ds| - 1;
      RequeueSorted(es, ds[..n], now);
      InsertSorted(Requeue(es, ds[..n], now), Entry(ds[n].timer, Plus(now, ds[n].period)));
    }
  }

  // The keys: those that were not due, and `now` plus the period of each due recurring timer.
  lemma {:induction false} RequeueKeys(es: seq<Entry>, ds: seq<Due>, now: uint64, key: uint64)
    requires Sorted(es)
    ensures HasKey(Requeue(es, ds, now), key) <==> HasKey(es, key) || exists j: nat :: Again(ds, now, key, j)
  {
    if ds != [] {
      var n := |ds| - 1;
      var es', e := Requeue(es, ds[..n], now), Entry(ds[n].timer, Plus(now, ds[n].period));
      RequeueKeys(es, ds[..n], now, key);
      RequeueSorted(es, ds[..n], now);
      assert forall j: nat | j < n :: Again(ds[..n], now, key, j) <==> Again(ds, now, key, j);
      InsertKeys(es', e, key);
      if ds[n].recurring && e.key == key {
        assert Again(ds, now, key, n);
      }
    }
  }

  lemma InsertKeys(es: seq<Entry>, e: Entry, key: uint64)
    requires Sorted(es)
    ensures HasKey(Insert(es, e), key) <==> HasKey(es, key) || e.key == key
  {
    forall x
      ensures x in Insert(es, e) <==> x in es || (x == e && !HasKey(es, e.key))
    {
      InsertMembers(es, e, x);
    }
  }

  lemma {:induction false} KeptPrefix(es: seq<Entry>, ds: seq<Due>, now: uint64, n: nat, j: nat)
    requires j < n <= |ds|
    ensures Kept(es, ds[..n], now, j) <==> Kept(es, ds, now, j)
  {
    assert forall i: nat | i < n :: Again(ds[..n], now, Plus(now, ds[j].period), i) <==> Again(ds, now, Plus(now, ds[j].period), i);
  }

  // Due timer `j` is entry `x` of the set afterwards.
  ghost predicate KeptAs(es: seq<Entry>, ds: seq<Due>, now: uint64, x: Entry, j: nat) {
    Kept(es, ds, now, j) && x == Entry(ds[j].timer, Plus(now, ds[j].period))
  }

  ghost predicate SomeKept(es: seq<Entry>, ds: seq<Due>, now: uint64, x: Entry) {
    exists j: nat :: KeptAs(es, ds, now, x, j)
  }

  lemma {:induction false} KeptLast(es: seq<Entry>, ds: seq<Due>, now: uint64, x: Entry)
    requires ds != []
    ensures var n := |ds| - 1; SomeKept(es, ds, now, x) <==> SomeKept(es, ds[..n], now, x) || KeptAs(es, ds, now, x, n)
  {
    var n := |ds| - 1;
    forall j: nat | j < n
      ensures KeptAs(es, ds[..n], now, x, j) <==> KeptAs(es, ds, now, x, j)
    {
      KeptPrefix(es, ds, now, n, j);
    }
    if j: nat :| KeptAs(es, ds, now, x, j) {
      assert j < n ==> KeptAs(es, ds[..n], now, x, j);
    }
    if j: nat :| KeptAs(es, ds[..n], now, x, j) {
      assert KeptAs(es, ds, now, x, j);
    }
  }

  // The last due timer gets a place exactly when its new key is not in the set by then.
  lemma {:induction false} LastKept(es: seq<Entry>, ds: seq<Due>, now: uint64)
    requires Sorted(es) && ds != [] && ds[|ds| - 1].recurring
    ensures var n := |ds| - 1;
            Kept(es, ds, now, n) <==> !HasKey(Requeue(es, ds[..n], now), Plus(now, ds[n].period))
  {
    var n := |ds| - 1;
    var key := Plus(now, ds[n].period);
    RequeueKeys(es, ds[..n], now, key);
    assert forall i: nat | i < n :: Again(ds[..n], now, key, i) <==> Again(ds, now, key, i);
  }

  lemma {:induction false} RequeueMembers(es: seq<Entry>, ds: seq<Due>, now: uint64, x: Entry)
    requires Sorted(es)
    ensures x in Requeue(es, ds, now) <==> x in es || SomeKept(es, ds, now, x)
  {
    if ds != [] {
      var n := |ds| - 1;
      RequeueMembers(es, ds[..n], now, x);
      RequeueSorted(es, ds[..n], now);
      KeptLast(es, ds, now, x);
      if ds[n].recurring {
        LastKept(es, ds, now);
        InsertMembers(Requeue(es, ds[..n], now), Entry(ds[n].timer, Plus(now, ds[n].period)), x);
      }
    }
  }

  lemma {:induction false} RequeueStep(es: seq<Entry>, ds: seq<Due>, now: uint64, i: nat)
    requires i < |ds|
    ensures var es' := Requeue(es, ds[..i], now);
            Requeue(es, ds[..i + 1], now) == if ds[i].recurring then Insert(es', Entry(ds[i].timer, Plus(now, ds[i].period))) else es'
  {
    assert ds[..i + 1][..i] == ds[..i];
  }

  // ---------------------------------------------------------------- the classes

  class Timer {
    const recurring: bool
    var period: uint64
    var expiry: uint64
    var manager: TimerManager?

    constructor (recurring: bool, ms: uint64, manager: TimerManager?, now: uint64)
      ensures this.recurring == recurring && period == ms && expiry == Plus(now, ms) && this.manager == manager
    {
      this.recurring, period, expiry, this.manager := recurring, ms, Plus(now, ms), manager;
    }

    // cancel: the timer has no manager afterwards.
    method Cancel() returns (ok: bool)
      requires manager != null ==> manager.Valid()
      modifies this`manager, manager
      ensures manager == null && (old(manager) == null ==> !ok)
      ensures old(manager) != null ==> old(manager).Took(this, old(manager.view), ok) && old(manager).Kept(this)
    {
      ok := false;
      if manager != null {
        ok := manager.DelTimer(this);
        manager := null;
      }
    }

    // refresh: starts again at `now`.
    method Refresh(now: uint64) returns (ok: bool)
      requires manager != null ==> manager.Valid()
      modifies this`expiry, manager
      ensures manager == null ==> !ok && expiry == old(expiry)
      ensures manager != null ==> manager.Moved(this, old(expiry), old(manager.view), Plus(now, period), ok) && manager.Kept(this)
    {
      ok := false;
      if manager != null {
        ok := Rearm(Plus(now, period));
      }
    }

    // reset: a new period, counted from `now` or from the last start. It does nothing and answers
    // false when the expiry stays the same.
    method Reset(ms: uint64, fromNow: bool, now: uint64) returns (ok: bool)
      requires manager != null ==> manager.Valid()
      modifies this`expiry, this`period, manager
      ensures manager == null ==> !ok && expiry == old(expiry) && period == old(period)
      ensures manager != null ==> period == ms && manager.Kept(this)
      ensures manager != null ==>
                var key := Plus(if fromNow then now else Minus(old(expiry), old(period)), ms);
                if key == old(expiry) then manager.Valid() && manager.view == old(manager.view) && expiry == key && !ok
                else manager.Moved(this, old(expiry), old(manager.view), key, ok)
    {
      ok := false;
      if manager != null {
        var start := if fromNow then now else Minus(expiry, period);
        period := ms;
        var key := Plus(start, period);
        if key != expiry {
          ok := Rearm(key);
        }
      }
    }

    // Out of the set, and in again under another key.
    method Rearm(key: uint64) returns (ok: bool)
      requires manager != null && manager.Valid()
      modifies this`expiry, manager
      ensures manager.Moved(this, old(expiry), old(manager.view), key, ok) && manager.Kept(this)
    {
      ok := manager.DelTimer(this);
      if ok {
        ok := Restart(key, old(manager.view));
      }
    }

    // The timer is out of the set, so its key may change; then it is offered again.
    method Restart(key: uint64, ghost before: seq<Entry>) returns (ok: bool)
      requires manager != null && manager.Valid() && Sorted(before) && HasKey(before, expiry)
      requires manager.view == Erase(before, expiry)
      modifies this`expiry, manager
      ensures manager.Moved(this, old(expiry), before, key, ok) && manager.Kept(this)
    {
      manager.Outside(this, before);
      expiry := key;
      var tickled;
      ok, tickled := manager.AddTimer(this);
    }
  }

  class TimerManager {
    var timers: seq<Timer>
    var needTickle: bool
    ghost var seen: int  // the front that get_next_timer last saw

    ghost var view: seq<Entry>  // the timers with their keys

    // The set is strictly sorted by expiry; and while nobody was tickled, nothing came before that front.
    ghost predicate Valid()
      reads this, timers
    {
      && Mirrors(view, timers)
      && Sorted(view) && (needTickle ==> AllFrom(view, seen))
    }

    constructor ()
      ensures Valid() && timers == [] && !needTickle
    {
      timers, view, needTickle := [], [], false;
    }

    // What no call on timer `t` does: let in a third timer, or ask for a tickle.
    twostate predicate Kept(t: Timer)
      reads this
    {
      && seen == old(seen) && (needTickle ==> old(needTickle))
      && forall u | u in timers :: u in old(timers) || u == t
    }

    // What DelTimer leaves.
    ghost predicate Took(t: Timer, before: seq<Entry>, ok: bool)
      reads this, timers, t
    {
      Valid() && view == Erase(before, t.expiry) && (ok <==> HasKey(before, t.expiry))
    }

    // What refresh and reset leave.
    ghost predicate Moved(t: Timer, key: uint64, before: seq<Entry>, key': uint64, ok: bool)
      reads this, timers, t
    {
      && Valid() && view == Rekey(before, t, key, key')
      && t.expiry == (if HasKey(before, key) then key' else key)
      && (ok <==> HasKey(before, key) && !HasKey(Erase(before, key), key'))
    }

    // A timer whose key was just erased is not in the set.
    lemma Outside(t: Timer, before: seq<Entry>)
      requires Valid() && Sorted(before) && view == Erase(before, t.expiry)
      ensures forall i | 0 <= i < |timers| :: timers[i] != t
    {
      forall i | 0 <= i < |timers|
        ensures timers[i] != t
      {
        EraseMembers(before, t.expiry, view[i]);
      }
    }

    // std::set::insert
    method InsertTimer(timer: Timer) returns (ok: bool, front: bool)
      requires Mirrors(view, timers) && Sorted(view)
      modifies this`timers, this`view
      ensures Mirrors(view, timers) && Sorted(view) && view == Insert(old(view), Entry(timer, timer.expiry))
      ensures ok <==> !HasKey(old(view), timer.expiry)
      ensures front <==> AllFrom(old(view), timer.expiry)
      ensures forall u | u in timers :: u in old(timers) || u == timer
    {
      var at := LowerBound(timers, timer.expiry);
      ghost var e := Entry(timer, timer.expiry);
      InsertSorted(view, e);
      KeyAt(view, e.key);
      SamePlace(view, timers, timer.expiry);
      MirrorInsert(view, timers, timer, at);
      ok := at == |timers| || timers[at].expiry != timer.expiry;
      if ok {
        timers := timers[..at] + [timer] + timers[at..];
        view := view[..at] + [e] + view[at..];
      }
      front := at == 0;
    }

    // add_timer. `tickled` tells whether the waiting thread was woken.
    method AddTimer(timer: Timer) returns (ok: bool, tickled: bool)
      requires Valid()
      modifies this`timers, this`view, this`needTickle
      ensures Valid() && view == Insert(old(view), Entry(timer, timer.expiry))
      ensures ok <==> !HasKey(old(view), timer.expiry)
      ensures tickled <==> old(needTickle) && AllFrom(old(view), timer.expiry)
      ensures needTickle == (old(needTickle) && !tickled)
      ensures forall u | u in timers :: u in old(timers) || u == timer
    {
      var front;
      ok, front := InsertTimer(timer);
      tickled := front && needTickle;
      if tickled {
        needTickle := false;
      }
    }

    // del_timer
    method DelTimer(timer: Timer) returns (ok: bool)
      requires Valid()
      modifies this`timers, this`view
      ensures Valid() && view == Erase(old(view), timer.expiry)
      ensures ok <==> HasKey(old(view), timer.expiry)
      ensures forall u | u in timers :: u in old(timers)
    {
      var at := LowerBound(timers, timer.expiry);
      EraseSorted(view, timer.expiry);
      KeyAt(view, timer.expiry);
      SamePlace(view, timers, timer.expiry);
      ok := at < |timers| && timers[at].expiry == timer.expiry;
      if ok {
        MirrorErase(view, timers, at);
        timers := timers[..at] + timers[at + 1..];
        view := view[..at] + view[at + 1..];
      }
    }

    // get_next_timer: how long to wait; all ones when there is no timer.
    method GetNextTimer(now: uint64) returns (wait: uint64)
      requires Valid()
      modifies this`needTickle, this`seen
      ensures Valid() && (timers == [] ==> wait == TWO64 - 1 && needTickle == old(needTickle))
      ensures timers != [] ==> needTickle && seen == timers[0].expiry
      ensures timers != [] ==> wait == if now >= timers[0].expiry then 0 else timers[0].expiry - now
    {
      if timers == [] {
        return TWO64 - 1;
      }
      needTickle := true;
      seen := timers[0].expiry;
      wait := if now >= timers[0].expiry then 0 else timers[0].expiry - now;
    }

    // One round of the loop: a due timer outside the set is offered again.
    method Again(t: Timer, now: uint64)
      requires Valid() && seen == 0 && t !in timers
      modifies this`timers, this`view, t`expiry
      ensures Valid()
      ensures view == if t.recurring then Insert(old(view), Entry(t, Plus(now, t.period))) else old(view)
      ensures forall u | u in timers :: u in old(timers) || u == t
      ensures t.expiry == if t.recurring then Plus(now, t.period) else old(t.expiry)
    {
      if t.recurring {
        t.expiry := Plus(now, t.period);
        var ok, front := InsertTimer(t);
      }
    }

    // The same for the i-th of the expired timers.
    method AgainAt(t: Timer, now: uint64, ghost expired: seq<Timer>, ghost i: nat, ghost keys: seq<uint64>)
      requires Valid() && seen == 0 && Absent(view, t) && i < |expired| && t == expired[i]
      requires AllDiffer(expired) && Rekeyed(expired, i, now, keys)
      modifies this`timers, this`view, t`expiry
      ensures Valid() && Rekeyed(expired, i + 1, now, keys)
      ensures view == if t.recurring then Insert(old(view), Entry(t, Plus(now, t.period))) else old(view)
    {
      OthersDiffer(expired, i);
      AbsentThen(view, timers, t);
      Again(t, now);
    }

    // The loop over the expired timers.
    method RequeueAll(expired: seq<Timer>, now: uint64)
      requires Valid() && seen == 0
      requires AllDiffer(expired) && forall i | 0 <= i < |expired| :: expired[i] !in timers
      modifies this`timers, this`view, expired`expiry
      ensures Valid() && view == Requeue(old(view), DueOf(expired), now)
      ensures forall t | t in timers :: t in old(timers) || t in expired
      ensures Rekeyed(expired, |expired|, now, old(KeysOf(expired)))
    {
      var i := 0;
      ghost var ds, keys, before := DueOf(expired), KeysOf(expired), view;
      forall k | 0 <= k < |expired|
        ensures Absent(before, expired[k])
      {
        AbsentThen(before, timers, expired[k]);
      }
      while i < |expired|
        invariant i <= |expired| && Valid() && view == Requeue(before, ds[..i], now) && Rekeyed(expired, i, now, keys)
      {
        OthersDiffer(expired, i);
        AbsentStill(before, ds, now, i, expired[i]);
        RequeueStep(before, ds, now, i);
        AgainAt(expired[i], now, expired, i, keys);
        i := i + 1;
      }
      assert ds[..i] == ds;
      OnlyThese(before, old(timers), ds, now, timers, expired);
    }

    // The set without its first `end` timers.
    method DropFront(end: nat)
      requires Mirrors(view, timers) && Sorted(view) && end <= |timers| && Mirrors(view[end..], timers[end..])
      modifies this
      ensures Valid() && needTickle && seen == 0
      ensures timers == old(timers)[end..] && view == old(view)[end..]
    {
      needTickle := true;
      seen := 0;
      timers := timers[end..];
      view := view[end..];
    }

    // The first `end` timers, out of the set; the recurring ones are offered again.
    method TakeFront(end: nat, now: uint64) returns (expired: seq<Timer>)
      requires Mirrors(view, timers) && Sorted(view) && end <= |timers| && Mirrors(view[end..], timers[end..])
      requires AllDiffer(timers[..end]) && forall i | 0 <= i < end :: timers[i] !in timers[end..]
      modifies this, timers`expiry
      ensures Valid() && needTickle && expired == old(timers)[..end]
      ensures view == Requeue(old(view)[end..], DueOf(expired), now)
      ensures Rekeyed(expired, end, now, old(KeysOf(timers[..end])))
      ensures forall t | t in timers :: t in old(timers)
    {
      expired := timers[..end];
      ghost var keys := KeysOf(expired);
      DropFront(end);
      assert KeysOf(expired) == keys;
      RequeueAll(expired, now);
    }

    // get_expired_timers: exactly the timers due at `now`, in order of expiry; their own expiry moves
    // on if they are recurring, and the next timer in front asks for a tickle if there are any.
    method GetExpired(now: uint64) returns (expired: seq<Timer>)
      requires Valid()
      modifies this, timers`expiry
      ensures Valid()
      ensures |expired| <= |old(timers)| && expired == old(timers)[..|expired|]
      ensures forall i | 0 <= i < |old(timers)| :: old(timers[i].expiry) <= now <==> i < |expired|
      ensures view == Requeue(old(view)[|expired|..], DueOf(expired), now)
      ensures Rekeyed(expired, |expired|, now, old(KeysOf(timers[..|expired|])))
      ensures needTickle == (old(needTickle) || expired != [])
      ensures forall t | t in timers :: t in old(timers)
    {
      var end := LowerBound(timers, now + 1);
      SplitDue(view, timers, now);
      if end == 0 {
        assert view[0..] == view;
        return [];
      }
      expired := TakeFront(end, now);
    }
  }

  lemma {:induction false} Distinct(es: seq<Entry>, ts: seq<Timer>)
    requires Mirrors(es, ts) && Sorted(es)
    ensures AllDiffer(ts)
  {
    forall i, j | 0 <= i < j < |ts|
      ensures ts[i] != ts[j]
    {
      assert es[i].key < es[j].key;
    }
  }

  ghost predicate AllDiffer(ts: seq<Timer>) {
    forall i, j | 0 <= i < j < |ts| :: ts[i] != ts[j]
  }

  lemma OthersDiffer(ts: seq<Timer>, i: nat)
    requires AllDiffer(ts) && i < |ts|
    ensures forall j | 0 <= j < |ts| && j != i :: ts[j] != ts[i]
  {
  }

  // No entry is this timer's.
  ghost predicate Absent(es: seq<Entry>, t: Timer) {
    forall i | 0 <= i < |es| :: es[i].timer != t
  }

  ghost predicate SameTimers(es: seq<Entry>, ts: seq<Timer>) {
    |es| == |ts| && forall i | 0 <= i < |ts| :: es[i].timer == ts[i]
  }

  lemma {:induction false} AbsentThen(es: seq<Entry>, ts: seq<Timer>, t: Timer)
    requires SameTimers(es, ts)
    ensures Absent(es, t) <==> t !in ts
  {
    if t in ts {
      var i :| 0 <= i < |ts| && ts[i] == t;
      assert es[i].timer == t;
    }
  }

  lemma {:induction false} AbsentStill(es: seq<Entry>, ds: seq<Due>, now: uint64, n: nat, t: Timer)
    requires n <= |ds| && Sorted(es) && Absent(es, t) && forall j | 0 <= j < n :: ds[j].timer != t
    ensures Absent(Requeue(es, ds[..n], now), t)
  {
    var es' := Requeue(es, ds[..n], now);
    forall i | 0 <= i < |es'|
      ensures es'[i].timer != t
    {
      RequeueMembers(es, ds[..n], now, es'[i]);
    }
  }

  // After the loop there are only timers that were there before or had expired.
  lemma {:induction false} OnlyThese(es: seq<Entry>, ts: seq<Timer>, ds: seq<Due>, now: uint64, ts': seq<Timer>, expired: seq<Timer>)
    requires Sorted(es) && SameTimers(es, ts) && |ds| == |expired| && (forall j | 0 <= j < |ds| :: ds[j].timer == expired[j])
    requires SameTimers(Requeue(es, ds, now), ts')
    ensures forall t | t in ts' :: t in ts || t in expired
  {
    forall t | t in ts'
      ensures t in ts || t in expired
    {
      if t !in ts && t !in expired {
        AbsentThen(es, ts, t);
        assert ds[..|ds|] == ds;
        AbsentStill(es, ds, now, |ds|, t);
        AbsentThen(Requeue(es, ds, now), ts', t);
      }
    }
  }

  // The due timers are a prefix of the set; none of them is in the rest.
  lemma {:induction false} SplitDue(es: seq<Entry>, ts: seq<Timer>, now: uint64)
    requires Mirrors(es, ts) && Sorted(es)
    ensures var end := LowerBound(ts, now + 1);
            && (forall i | 0 <= i < |ts| :: ts[i].expiry <= now <==> i < end)
            && AllDiffer(ts[..end])
            && (forall i | 0 <= i < end :: ts[i] !in ts[end..])
            && Mirrors(es[end..], ts[end..]) && Sorted(es[end..])
  {
    var end := LowerBound(ts, now + 1);
    Distinct(es, ts);
    forall i | 0 <= i < |ts|
      ensures ts[i].expiry <= now <==> i < end
    {
      if i > end {
        assert es[end].key < es[i].key;
      }
    }
  }

  // The expiry of a due timer after the call.
  ghost function Next(t: Timer, now: uint64, expiry: uint64): uint64
    reads t`period
  {
    if t.recurring then Plus(now, t.period) else expiry
  }

  // The first `n` of the timers have the expiry they have after the call, the others still their key.
  ghost predicate Rekeyed(ts: seq<Timer>, n: nat, now: uint64, keys: seq<uint64>)
    reads ts
  {
    && n <= |ts| == |keys|
    && (forall j | 0 <= j < n :: ts[j].expiry == Next(ts[j], now, keys[j]))
    && (forall j | n <= j < |ts| :: ts[j].expiry == keys[j])
  }

  ghost function KeysOf(ts: seq<Timer>): (keys: seq<uint64>)
    reads ts`expiry
    ensures |keys| == |ts| && forall i | 0 <= i < |ts| :: keys[i] == ts[i].expiry
  {
    if ts == [] then [] else KeysOf(ts[..|ts| - 1]) + [ts[|ts| - 1].expiry]
  }

  ghost function DueOf(ts: seq<Timer>): (ds: seq<Due>)
    reads ts`period
    ensures |ds| == |ts| && forall i | 0 <= i < |ts| :: ds[i] == Due(ts[i], ts[i].recurring, ts[i].period)
  {
    if ts == [] then []
    else var n := |ts| - 1; DueOf(ts[..n]) + [Due(ts[n], ts[n].recurring, ts[n].period)]
  }

  ghost predicate Mirrors(es: seq<Entry>, ts: seq<Timer>)
    reads ts
  {
    |es| == |ts| && forall i | 0 <= i < |ts| :: es[i] == Entry(ts[i], ts[i].expiry)
  }

  lemma {:induction false} SamePlace(es: seq<Entry>, ts: seq<Timer>, key: int)
    requires Mirrors(es, ts)
    ensures LowerBound(ts, key) == Place(es, key)
  {
  }

  lemma {:induction false} MirrorInsert(es: seq<Entry>, ts: seq<Timer>, t: Timer, at: nat)
    requires Mirrors(es, ts) && at <= |ts|
    ensures Mirrors(es[..at] + [Entry(t, t.expiry)] + es[at..], ts[..at] + [t] + ts[at..])
  {
  }

  lemma {:induction false} MirrorErase(es: seq<Entry>, ts: seq<Timer>, at: nat)
    requires Mirrors(es, ts) && at < |ts|
    ensures Mirrors(es[..at] + es[at + 1..], ts[..at] + ts[at + 1..])
  {
  }

  ghost predicate AllFrom(es: seq<Entry>, key: int) {
    forall i | 0 <= i < |es| :: key <= es[i].key
  }

  // std::set::lower_bound
  function LowerBound(ts: seq<Timer>, key: int): (i: nat)
    reads ts
    ensures i <= |ts| && (forall j | 0 <= j < i :: ts[j].expiry < key) && (i < |ts| ==> ts[i].expiry >= key)
  {
    if ts == [] || ts[0].expiry >= key then 0 else 1 + LowerBound(ts[1..], key)
  }

  // ---------------------------------------------------------------- across calls

  // After expiry the keys are the old ones past `now`, and `now` plus the period of each due recurring timer.
  lemma {:induction false} KeysAfterExpiry(es: seq<Entry>, n: nat, ds: seq<Due>, now: uint64, key: uint64)
    requires Sorted(es) && n <= |es| && forall i | 0 <= i < |es| :: es[i].key <= now <==> i < n
    ensures HasKey(Requeue(es[n..], ds, now), key) <==> (HasKey(es, key) && key > now) || exists j: nat :: Again(ds, now, key, j)
  {
    RequeueKeys(es[n..], ds, now, key);
    if HasKey(es, key) && key > now {
      var i :| 0 <= i < |es| && es[i].key == key;
      assert es[n..][i - n] in es[n..];
    }
  }

  // A thread that waits what get_next_timer told it finds a due timer, and one that waits less finds none.
  method WaitThenExpire(m: TimerManager, now: uint64, later: uint64) returns (wait: uint64, expired: seq<Timer>)
    requires m.Valid() && m.timers != [] && now <= later
    modifies m, m.timers`expiry
    ensures m.Valid() && (expired != [] <==> later >= now + wait)
  {
    wait := m.GetNextTimer(now);
    expired := m.GetExpired(later);
  }

  // But get_next_timer on an empty set does not ask to be tickled, so nobody is woken for the first
  // timer of a new manager, however soon it is due.
  method FirstTimerWakesNobody(now: uint64, timer: Timer) returns (wait: uint64, tickled: bool)
    ensures wait == TWO64 - 1 && !tickled
  {
    var m := new TimerManager();
    wait := m.GetNextTimer(now);
    var ok;
    ok, tickled := m.AddTimer(timer);
  }

  datatype Command =
    | Add(timer: Timer)
    | Del(timer: Timer)
    | Cancel(timer: Timer)
    | Refresh(timer: Timer, now: uint64)
    | Reset(timer: Timer, ms: uint64, fromNow: bool, now: uint64)
    | Expire(now: uint64)

  // The timers that a command names.
  ghost predicate Names(c: Command, pool: set<Timer>) {
    c.Expire? || c.timer in pool
  }

  // All timers of the set are in the pool, and those of the pool belong to `m` or were cancelled.
  ghost predicate Belong(m: TimerManager, pool: set<Timer>)
    reads m, pool
  {
    && (forall t | t in m.timers :: t in pool)
    && (forall t | t in pool :: t.manager == null || t.manager == m)
  }

  // One command. A front that get_next_timer saw stays a lower bound until somebody is tickled.
  method Perform(m: TimerManager, pool: set<Timer>, c: Command)
    requires m.Valid() && Belong(m, pool) && Names(c, pool)
    modifies m, pool
    ensures m.Valid() && Belong(m, pool)
    ensures !c.Expire? ==> m.seen == old(m.seen) && (m.needTickle ==> old(m.needTickle))
  {
    match c
    case Add(t) => var ok, tickled := m.AddTimer(t);
    case Del(t) => var ok := m.DelTimer(t);
    case Expire(now) => var expired := m.GetExpired(now);
    case _ => PerformOn(m, pool, c);
  }

  method PerformOn(m: TimerManager, pool: set<Timer>, c: Command)
    requires m.Valid() && Belong(m, pool) && Names(c, pool) && (c.Cancel? || c.Refresh? || c.Reset?)
    modifies m, pool
    ensures m.Valid() && Belong(m, pool) && m.seen == old(m.seen) && (m.needTickle ==> old(m.needTickle))
  {
    match c
    case Cancel(t) => var ok := t.Cancel();
    case Refresh(t, now) => var ok := t.Refresh(now);
    case Reset(t, ms, fromNow, now) => var ok := t.Reset(ms, fromNow, now);
  }

  // The set stays sorted over every run.
  method Run(m: TimerManager, pool: set<Timer>, cs: seq<Command>)
    requires m.Valid() && Belong(m, pool) && forall i | 0 <= i < |cs| :: Names(cs[i], pool)
    modifies m, pool
    ensures m.Valid() && Belong(m, pool)
    ensures (forall i | 0 <= i < |cs| :: !cs[i].Expire?) ==> m.seen == old(m.seen)
  {
    var i := 0;
    while i < |cs|
      invariant i <= |cs| && m.Valid() && Belong(m, pool)
      invariant (forall j | 0 <= j < i :: !cs[j].Expire?) ==> m.seen == old(m.seen)
    {
      Perform(m, pool, cs[i]);
      i := i + 1;
    }
  }

  // While a thread waits for the front of a non-empty set and nothing expires, either somebody is
  // tickled or no timer is due before the thread wakes.
  method WaitSafely(m: TimerManager, pool: set<Timer>, now: uint64, cs: seq<Command>) returns (wait: uint64)
    requires m.Valid() && Belong(m, pool) && m.timers != []
    requires forall i | 0 <= i < |cs| :: Names(cs[i], pool) && !cs[i].Expire?
    modifies m, pool
    ensures m.Valid() && (m.needTickle ==> wait == 0 || AllFrom(m.view, now + wait))
  {
    wait := m.GetNextTimer(now);
    Run(m, pool, cs);
  }

  // ---------------------------------------------------------------- two timers of one period

  lemma {:induction false} SamePeriodOnce(t: Timer, u: Timer, period: uint64, now: uint64)
    ensures Requeue([], [Due(t, true, period), Due(u, true, period)], now) == [Entry(t, Plus(now, period))]
  {
    var ds := [Due(t, true, period), Due(u, true, period)];
    assert ds[..1] == [Due(t, true, period)] && ds[..1][..0] == [];
    assert Requeue([], ds[..1], now) == Insert([], Entry(t, Plus(now, period)));
  }

  lemma InsertBehind(e: Entry, e': Entry)
    requires e.key < e'.key
    ensures Insert([], e) == [e] && Insert([e], e') == [e, e']
  {
    assert Place([e], e'.key) == 1;
  }

  // A manager with two recurring timers, started at 0 and 1, with a period of 10 each.
  method Twins() returns (m: TimerManager, t: Timer, u: Timer)
    ensures fresh(m) && fresh(t) && fresh(u) && t != u && m.Valid() && m.timers == [t, u] && m.view == [Entry(t, 10), Entry(u, 11)]
    ensures t.recurring && u.recurring && t.period == u.period == 10
  {
    m := new TimerManager();
    t := new Timer(true, 10, m, 0);
    u := new Timer(true, 10, m, 1);
    InsertBehind(Entry(t, 10), Entry(u, 11));
    assert m.view == [];
    var ok, tickled := m.AddTimer(t);
    ok, tickled := m.AddTimer(u);
    assert m.timers[0] == m.view[0].timer && m.timers[1] == m.view[1].timer;
  }

  // They expire together at 20, and one is left.
  method TwinsCollapse() returns (expired: seq<Timer>, left: seq<Timer>)
    ensures |expired| == 2 && |left| == 1 && left[0] == expired[0]
  {
    var m, t, u := Twins();
    assert t.expiry == m.view[0].key && u.expiry == m.view[1].key;
    ghost var before := m.view;
    expired := m.GetExpired(20);
    assert |expired| == 2 && expired == [t, u];
    ghost var ds := [Due(t, true, 10), Due(u, true, 10)];
    assert DueOf(expired) == ds;
    assert before[2..] == [];
    SamePeriodOnce(t, u, 10, 20);
    assert m.view == Requeue([], ds, 20);
    left := m.timers;
    assert left[0] == m.view[0].timer;
  }
}
