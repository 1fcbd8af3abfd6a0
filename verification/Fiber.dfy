/**
 Shared-stack fibers of one thread (sylar/fiber.h, sylar/fiber.cpp).

 Many fibers may run on one stack buffer. `FiberEnvironment` carries the real bytes, tops, save
 buffers and occupiers; `Machine` is the machine in which every fiber owns a private stack. Every
 switch of the first is proved to be a step of the second. Fibers and stack blocks are records
 named by their index, so that two fibers with the same block index share its bytes.
 */
module Fibers {

  import opened Wrappers
  import opened Bytes

  datatype FiberState = INITING | READY | RUNNING | SUSPENDED | SLEEPING | TERMINATED | EXCEPTION

  // Where a saved context continues: at the start of fiber_func_wrapper, or inside swap_fiber.
  datatype Context = Entry | Swapped

  const MAX_CALL_STACK_DEPTH: nat := 128

  predicate Finished(s: FiberState) {
    s == TERMINATED || s == EXCEPTION
  }

  // ---------------------------------------------------------------- the private-stack machine

  type FiberId = nat

  datatype Op =
    | Execute(bytes: seq<byte>, scratch: seq<byte>)  // the running fiber leaves `bytes` on its stack
    | Resume(target: FiberId)
    | Yield
    | Sleep
    | Finish(threw: bool)
    | Wakeup(target: FiberId)
    | Reset(target: FiberId)

  datatype Machine = Machine(calls: seq<FiberId>, state: seq<FiberState>, stack: seq<seq<byte>>)
  {
    predicate Wf() {
      && calls != [] && |state| == |stack|
      && (forall i | 0 <= i < |calls| :: calls[i] < |state|)
    }

    function Current(): FiberId
      requires calls != []
    {
      calls[|calls| - 1]
    }

    // Hands the processor back to the fiber below, leaving the caller in state `s`.
    function Return(s: FiberState): Machine
      requires Wf() && |calls| >= 2
    {
      Machine(calls[..|calls| - 1], state[Current() := s][calls[|calls| - 2] := RUNNING], stack)
    }

    // A run may ask for `op`: resume and reset name a fiber off the call stack, the main fiber
    // (number 0) keeps the thread's own stack and never gives up the processor, and the call
    // stack does not overflow.
    predicate Legal(op: Op) {
      && Wf()
      && match op
         case Execute(_, _) => Current() != 0
         case Resume(f) => 0 < f < |state| && f !in calls && |calls| < MAX_CALL_STACK_DEPTH
         case Yield => |calls| >= 2
         case Sleep => |calls| >= 2
         case Finish(_) => |calls| >= 2
         case Wakeup(f) => f < |state|
         case Reset(f) => 0 < f < |state| && f !in calls
    }

    // One step of the machine without any shared memory.
    function Step(op: Op): Machine
      requires Legal(op)
    {
      match op
      case Execute(bytes, _) => this.(stack := stack[Current() := bytes])
      case Resume(f) =>
        if Finished(state[f]) then this
        else Machine(calls + [f], state[Current() := SUSPENDED][f := RUNNING], stack)
      case Yield => Return(SUSPENDED)
      case Sleep => Return(SLEEPING)
      case Finish(threw) => Return(if threw then EXCEPTION else TERMINATED)
      case Wakeup(f) => if state[f] == SLEEPING then this.(state := state[f := SUSPENDED]) else this
      case Reset(f) => this.(state := state[f := INITING], stack := stack[f := []])
    }
  }

  // ---------------------------------------------------------------- the real machine

  datatype FiberMem = FiberMem(buffer: seq<byte>, occupier: Option<FiberId>)

  datatype Fiber = Fiber(
    shared: bool,
    mem: nat,
    state: FiberState,
    ctx: Context,
    top: nat,
    saved: seq<byte>
  )

  // The bytes from `top` to the stack bottom.
  function Above(buffer: seq<byte>, top: nat): seq<byte> {
    if top <= |buffer| then buffer[top..] else []
  }

  // memcpy into a stack block
  function Overwrite(dst: seq<byte>, at: nat, src: seq<byte>): seq<byte> {
    if at + |src| <= |dst| then dst[..at] + src + dst[at + |src|..] else dst
  }

  // Everything a thread's switches read and write. The processor is `cpu`, the fiber whose
  // context is loaded, and `rsp`, its stack pointer. Block 0 stands for the thread's own stack.
  datatype Thread = Thread(fibers: seq<Fiber>, mems: seq<FiberMem>, calls: seq<FiberId>, cpu: FiberId, rsp: nat)

  // The occupier that switching to `f` pushes out of its block `m`.
  function Displaced(f: FiberId, r: Fiber, m: FiberMem): Option<FiberId> {
    if r.shared && m.occupier != Some(f) then m.occupier else None
  }

  // What the first half of swap_fiber does to the record of `f`: the running fiber records its
  // top, and whoever occupies the block of the fiber switched to is saved.
  function ParkOne(f: FiberId, r: Fiber, cpu: FiberId, rsp: nat, displaced: Option<FiberId>, m: FiberMem): Fiber {
    var r' := if f == cpu then r.(top := rsp, ctx := Swapped) else r;
    if displaced == Some(f) then r'.(saved := Above(m.buffer, r'.top)) else r'
  }

  // Whether `bytes`, which fiber `f` left behind, can be found again: in its save buffer once
  // another fiber occupies its block, and on that block otherwise.
  ghost predicate Parked(f: FiberId, r: Fiber, m: FiberMem, bytes: seq<byte>) {
    && r.top <= |m.buffer|
    && if r.state == INITING || r.ctx == Entry then bytes == []
       else if r.shared && m.occupier != Some(f) then
         m.occupier.Some? && r.saved == bytes && |bytes| == |m.buffer| - r.top
       else Above(m.buffer, r.top) == bytes
  }

  // The running fiber `f` finds `bytes` between the stack pointer and the bottom of its stack.
  ghost predicate Loaded(f: FiberId, r: Fiber, m: FiberMem, rsp: nat, bytes: seq<byte>) {
    && r.top <= |m.buffer| && rsp <= |m.buffer| && Above(m.buffer, rsp) == bytes
    && (r.shared ==> m.occupier == Some(f))
  }

  ghost predicate ParkedIn(t: Thread, stack: seq<seq<byte>>, f: FiberId) {
    f < |t.fibers| && f < |stack| && t.fibers[f].mem < |t.mems| && Parked(f, t.fibers[f], t.mems[t.fibers[f].mem], stack[f])
  }

  // Block `m` is only occupied by one of the fibers that share it.
  ghost predicate OccupierIn(t: Thread, m: nat) {
    m < |t.mems| && (t.mems[m].occupier.Some? ==>
      var o := t.mems[m].occupier.value;
      o < |t.fibers| && t.fibers[o].mem == m && t.fibers[o].shared)
  }

  // Only shared-stack fibers use one block together.
  predicate Exclusive(fibers: seq<Fiber>) {
    forall f, g | 0 <= f < g < |fibers| && fibers[f].mem == fibers[g].mem :: fibers[f].shared && fibers[g].shared
  }

  // Bytes, tops, save buffers and occupiers agree with the private stacks.
  ghost predicate MemoryOk(t: Thread, stack: seq<seq<byte>>) {
    && |t.fibers| == |stack| && t.cpu < |t.fibers|
    && (forall f | 0 <= f < |t.fibers| :: t.fibers[f].mem < |t.mems|)
    && (forall m: nat | m < |t.mems| :: OccupierIn(t, m))
    && Loaded(t.cpu, t.fibers[t.cpu], t.mems[t.fibers[t.cpu].mem], t.rsp, stack[t.cpu])
    && (forall f: nat | f < |t.fibers| && f != t.cpu :: ParkedIn(t, stack, f))
  }

  // One fiber `f`, across a switch from `cpu` to `to`; `same` says that `f` and `to` use one block.
  lemma ParkOneKeeps(f: FiberId, r: Fiber, m: FiberMem, cpu: FiberId, rsp: nat, to: FiberId, rto: Fiber, mto: FiberMem,
                     same: bool, bytes: seq<byte>)
    requires f != to && to != cpu && (f == cpu ==> r.state != INITING)
    requires if f == cpu then Loaded(f, r, m, rsp, bytes) else Parked(f, r, m, bytes)
    requires same ==> m == mto && r.shared && rto.shared
    requires Displaced(to, rto, mto) == Some(f) ==> same
    ensures var r' := ParkOne(f, r, cpu, rsp, Displaced(to, rto, mto), mto);
            forall b | |b| == |m.buffer| ::
              Parked(f, r', if same then FiberMem(b, Some(to)) else m, bytes)
  {
  }

  // The second half of swap_fiber: the block of `to` after its bytes have been put back.
  function LandBlock(rto: Fiber, mto: FiberMem, restore: bool): FiberMem {
    if rto.ctx == Swapped && restore && |rto.saved| > 0
    then mto.(buffer := Overwrite(mto.buffer, rto.top, rto.saved))
    else mto
  }

  function LandSp(rto: Fiber, mto: FiberMem): nat {
    if rto.ctx == Entry then |mto.buffer| else rto.top
  }

  // swap_fiber as a whole.
  function Switch(t: Thread, to: FiberId): Thread
    requires to < |t.fibers| && t.fibers[to].mem < |t.mems|
  {
    var rto := t.fibers[to];
    var mto := t.mems[rto.mem];
    var d := Displaced(to, rto, mto);
    t.(fibers := seq(|t.fibers|, f requires 0 <= f < |t.fibers| => ParkOne(f, t.fibers[f], t.cpu, t.rsp, d, mto)),
       mems := t.mems[rto.mem := LandBlock(rto, if rto.shared then mto.(occupier := Some(to)) else mto, d.Some?)],
       cpu := to,
       rsp := LandSp(rto, mto))
  }

  lemma LandLoads(to: FiberId, rto: Fiber, mto: FiberMem, bytes: seq<byte>)
    requires Parked(to, rto, mto, bytes) && (rto.ctx == Swapped ==> rto.state != INITING)
    ensures var m' := LandBlock(rto, if rto.shared then mto.(occupier := Some(to)) else mto, Displaced(to, rto, mto).Some?);
            |m'.buffer| == |mto.buffer| && Loaded(to, rto, m', LandSp(rto, mto), bytes)
  {
  }

  lemma SwitchShape(t: Thread, to: FiberId)
    requires to < |t.fibers| && t.fibers[to].mem < |t.mems|
    requires forall m: nat | m < |t.mems| :: OccupierIn(t, m)
    requires Exclusive(t.fibers)
    ensures var t' := Switch(t, to);
            && (forall m: nat | m < |t.mems| :: OccupierIn(t', m))
            && Exclusive(t'.fibers)
  {
    var t' := Switch(t, to);
    assert forall f | 0 <= f < |t.fibers| :: t'.fibers[f].mem == t.fibers[f].mem && t'.fibers[f].shared == t.fibers[f].shared;
    forall m: nat | m < |t.mems|
      ensures OccupierIn(t', m)
    {
      assert OccupierIn(t, m);
    }
  }

  // One fiber that is not switched to.
  lemma SwitchParks(t: Thread, to: FiberId, stack: seq<seq<byte>>, f: FiberId)
    requires MemoryOk(t, stack) && Exclusive(t.fibers) && to < |t.fibers| && to != t.cpu && t.fibers[t.cpu].state != INITING
    requires t.fibers[to].ctx == Swapped ==> t.fibers[to].state != INITING
    requires f < |t.fibers| && f != to
    ensures ParkedIn(Switch(t, to), stack, f)
  {
    var rto := t.fibers[to];
    var mto := t.mems[rto.mem];
    assert OccupierIn(t, rto.mem) && ParkedIn(t, stack, to);
    assert f != t.cpu ==> ParkedIn(t, stack, f);
    LandLoads(to, rto, mto, stack[to]);
    ParkOneKeeps(f, t.fibers[f], t.mems[t.fibers[f].mem], t.cpu, t.rsp, to, rto, mto, t.fibers[f].mem == rto.mem, stack[f]);
  }

  // A switch leaves every private stack as it was, and loads that of `to`.
  lemma SwitchKeepsStacks(t: Thread, to: FiberId, stack: seq<seq<byte>>)
    requires MemoryOk(t, stack) && Exclusive(t.fibers) && to < |t.fibers| && to != t.cpu && t.fibers[t.cpu].state != INITING
    requires t.fibers[to].ctx == Swapped ==> t.fibers[to].state != INITING
    ensures MemoryOk(Switch(t, to), stack) && Exclusive(Switch(t, to).fibers)
  {
    SwitchShape(t, to);
    assert ParkedIn(t, stack, to);
    LandLoads(to, t.fibers[to], t.mems[t.fibers[to].mem], stack[to]);
    forall f: nat | f < |t.fibers| && f != to
      ensures ParkedIn(Switch(t, to), stack, f)
    {
      SwitchParks(t, to, stack, f);
    }
  }

  // ---------------------------------------------------------------- the operations of a fiber

  function SetState(t: Thread, f: FiberId, s: FiberState): Thread
    requires f < |t.fibers|
  {
    t.(fibers := t.fibers[f := t.fibers[f].(state := s)])
  }

  // swap_fiber, or None when the assertion in change_occupier aborts the process.
  function SwapFiber(t: Thread, to: FiberId): Option<Thread> {
    if !(to < |t.fibers| && t.fibers[to].mem < |t.mems|) then None
    else
      var d := Displaced(to, t.fibers[to], t.mems[t.fibers[to].mem]);
      if d.Some? && d.value < |t.fibers| && t.fibers[d.value].state !in {SUSPENDED, TERMINATED} then None
      else Some(Switch(t, to))
  }

  // make_context for a fiber that starts afresh, and the state of a running fiber.
  function Activate(t: Thread, f: FiberId): Thread
    requires f < |t.fibers|
  {
    var r := t.fibers[f];
    t.(fibers := t.fibers[f := r.(state := RUNNING, ctx := if r.state == INITING then Entry else r.ctx)])
  }

  function ResumeFiber(t: Thread, f: FiberId): Option<Thread> {
    if !(f < |t.fibers| && t.cpu < |t.fibers|) then None
    else if Finished(t.fibers[f].state) then Some(t)
    else
      SwapFiber(SetState(Activate(t, f).(calls := t.calls + [f]), t.cpu, SUSPENDED), f)
  }

  // fiber_yield and fiber_sleep: a fiber that is still RUNNING is left in state `s`.
  function LeaveFiber(t: Thread, s: FiberState): Option<Thread> {
    var n := |t.calls|;
    if n < 2 || t.calls[n - 1] >= |t.fibers| || t.calls[n - 2] >= |t.fibers| then None
    else
      var cur := t.calls[n - 1];
      var next := t.calls[n - 2];
      var t1 := t.(calls := t.calls[..n - 1]);
      var t2 := if t.fibers[cur].state == RUNNING then SetState(t1, cur, s) else t1;
      if t2.fibers[next].state != SUSPENDED then None
      else SwapFiber(SetState(t2, next, RUNNING), next)
  }

  // A fiber that finishes is marked first and then yields.
  function GiveUp(t: Thread, s: FiberState): Option<Thread> {
    if !Finished(s) then LeaveFiber(t, s)
    else if t.cpu < |t.fibers| then LeaveFiber(SetState(t, t.cpu, s), SUSPENDED)
    else None
  }

  function Apply(t: Thread, op: Op): Option<Thread> {
    match op
    case Execute(bytes, scratch) =>
      if t.cpu < |t.fibers| && t.fibers[t.cpu].mem < |t.mems| then
        var m := t.fibers[t.cpu].mem;
        Some(t.(mems := t.mems[m := t.mems[m].(buffer := scratch + bytes)], rsp := |scratch|))
      else None
    case Resume(f) => ResumeFiber(t, f)
    case Yield => GiveUp(t, SUSPENDED)
    case Sleep => GiveUp(t, SLEEPING)
    case Finish(threw) => GiveUp(t, if threw then EXCEPTION else TERMINATED)
    case Wakeup(f) =>
      if f < |t.fibers| && t.fibers[f].state == SLEEPING then Some(SetState(t, f, SUSPENDED)) else Some(t)
    case Reset(f) =>
      if 0 < f < |t.fibers| then Some(t.(fibers := t.fibers[f := t.fibers[f].(saved := [], state := INITING)])) else Some(t)
  }

  // The discipline of the call stack: the main fiber is at the bottom, only the top is RUNNING,
  // everyone below waits inside swap_fiber, and nobody else is RUNNING.
  ghost predicate CallsOk(t: Thread) {
    && 1 <= |t.calls| <= MAX_CALL_STACK_DEPTH
    && t.calls[0] == 0
    && t.cpu == t.calls[|t.calls| - 1] < |t.fibers|
    && t.fibers[t.cpu].state == RUNNING
    && (forall i | 0 <= i < |t.calls| - 1 ::
          t.calls[i] < |t.fibers| && t.fibers[t.calls[i]].state == SUSPENDED && t.fibers[t.calls[i]].ctx == Swapped)
    && (forall i, j | 0 <= i < j < |t.calls| :: t.calls[i] != t.calls[j])
    && (forall f | 0 <= f < |t.fibers| && f !in t.calls ::
          && t.fibers[f].state != RUNNING && t.fibers[f].state != READY
          && (t.fibers[f].state != INITING ==> t.fibers[f].ctx == Swapped))
  }

  ghost predicate SameStates(fibers: seq<Fiber>, state: seq<FiberState>) {
    |state| == |fibers| && forall f | 0 <= f < |fibers| :: state[f] == fibers[f].state
  }

  ghost predicate Inv(t: Thread, m: Machine) {
    MemoryOk(t, m.stack) && Exclusive(t.fibers) && CallsOk(t) && m.calls == t.calls && SameStates(t.fibers, m.state)
  }

  // The fiber that gets the processor in `op`, and the state its caller is left in.
  ghost predicate Blocked(t: Thread, op: Op) {
    match op
    case Resume(f) => f < |t.fibers| && !Finished(t.fibers[f].state) && OccupiedBy(t, f, SUSPENDED)
    case Yield => |t.calls| >= 2 && OccupiedBy(t, t.calls[|t.calls| - 2], SUSPENDED)
    case Sleep => |t.calls| >= 2 && OccupiedBy(t, t.calls[|t.calls| - 2], SLEEPING)
    case Finish(threw) => |t.calls| >= 2 && OccupiedBy(t, t.calls[|t.calls| - 2], if threw then EXCEPTION else TERMINATED)
    case _ => false
  }

  // The block of `f` is occupied by another fiber that is neither SUSPENDED nor TERMINATED once
  // the running fiber has been put in state `s`.
  ghost predicate OccupiedBy(t: Thread, f: FiberId, s: FiberState) {
    && f < |t.fibers| && t.fibers[f].shared && t.fibers[f].mem < |t.mems|
    && var o := t.mems[t.fibers[f].mem].occupier;
       && o.Some? && o.value != f && o.value < |t.fibers|
       && (if o.value == t.cpu then s else t.fibers[o.value].state) !in {SUSPENDED, TERMINATED}
  }

  // The bytes and the scratch space that the running fiber leaves fill its block.
  ghost predicate Fits(t: Thread, op: Op) {
    op.Execute? && t.cpu < |t.fibers| && t.fibers[t.cpu].mem < |t.mems| ==>
      |op.scratch| + |op.bytes| == |t.mems[t.fibers[t.cpu].mem].buffer|
  }

  // Replacing the record of one fiber, whose stack becomes `bytes`, leaves the other stacks alone.
  lemma RecordKeeps(t: Thread, f: FiberId, r: Fiber, stack: seq<seq<byte>>, bytes: seq<byte>)
    requires MemoryOk(t, stack) && Exclusive(t.fibers) && f < |t.fibers|
    requires r.mem == t.fibers[f].mem && r.shared == t.fibers[f].shared
    requires if f == t.cpu then Loaded(f, r, t.mems[r.mem], t.rsp, bytes) else Parked(f, r, t.mems[r.mem], bytes)
    ensures var t' := t.(fibers := t.fibers[f := r]); MemoryOk(t', stack[f := bytes]) && Exclusive(t'.fibers)
  {
    var t' := t.(fibers := t.fibers[f := r]);
    var stack' := stack[f := bytes];
    assert forall g | 0 <= g < |t.fibers| :: t'.fibers[g].mem == t.fibers[g].mem && t'.fibers[g].shared == t.fibers[g].shared;
    forall g: nat | g < |t.fibers| && g != t.cpu
      ensures ParkedIn(t', stack', g)
    {
      assert ParkedIn(t, stack, g);
    }
    forall k: nat | k < |t.mems|
      ensures OccupierIn(t', k)
    {
      assert OccupierIn(t, k);
    }
  }

  // The call stack plays no part in it.
  lemma CallsKeep(t: Thread, calls: seq<FiberId>, stack: seq<seq<byte>>)
    requires MemoryOk(t, stack)
    ensures MemoryOk(t.(calls := calls), stack)
  {
    var t' := t.(calls := calls);
    forall f: nat | f < |t.fibers| && f != t.cpu
      ensures ParkedIn(t', stack, f)
    {
      assert ParkedIn(t, stack, f);
    }
    forall k: nat | k < |t.mems|
      ensures OccupierIn(t', k)
    {
      assert OccupierIn(t, k);
    }
  }

  lemma SetStateKeeps(t: Thread, f: FiberId, s: FiberState, stack: seq<seq<byte>>)
    requires MemoryOk(t, stack) && Exclusive(t.fibers) && f < |t.fibers|
    requires s != INITING && t.fibers[f].state != INITING
    ensures MemoryOk(SetState(t, f, s), stack) && Exclusive(SetState(t, f, s).fibers)
  {
    assert f != t.cpu ==> ParkedIn(t, stack, f);
    RecordKeeps(t, f, t.fibers[f].(state := s), stack, stack[f]);
    assert stack[f := stack[f]] == stack;
  }

  lemma ActivateKeeps(t: Thread, f: FiberId, stack: seq<seq<byte>>)
    requires MemoryOk(t, stack) && Exclusive(t.fibers) && f < |t.fibers| && f != t.cpu
    ensures MemoryOk(Activate(t, f), stack) && Exclusive(Activate(t, f).fibers)
  {
    assert ParkedIn(t, stack, f);
    RecordKeeps(t, f, Activate(t, f).fibers[f], stack, stack[f]);
    assert stack[f := stack[f]] == stack;
  }

  // The states and contexts a switch leaves behind.
  lemma SwitchFields(t: Thread, to: FiberId)
    requires to < |t.fibers| && t.fibers[to].mem < |t.mems|
    ensures var t' := Switch(t, to);
            && |t'.fibers| == |t.fibers| && t'.calls == t.calls && t'.cpu == to
            && forall f | 0 <= f < |t.fibers| ::
                 t'.fibers[f].state == t.fibers[f].state && t'.fibers[f].ctx == if f == t.cpu then Swapped else t.fibers[f].ctx
  {
  }

  lemma CallsAfterResume(t: Thread, t': Thread, f: FiberId)
    requires CallsOk(t) && f < |t.fibers| && f !in t.calls && |t.calls| < MAX_CALL_STACK_DEPTH
    requires |t'.fibers| == |t.fibers| && t'.calls == t.calls + [f] && t'.cpu == f
    requires forall g | 0 <= g < |t.fibers| ::
               t'.fibers[g].state == if g == t.cpu then SUSPENDED else if g == f then RUNNING else t.fibers[g].state
    requires forall g | 0 <= g < |t.fibers| && g != f :: t'.fibers[g].ctx == if g == t.cpu then Swapped else t.fibers[g].ctx
    ensures CallsOk(t')
  {
  }

  lemma CallsAfterLeave(t: Thread, t': Thread, s: FiberState)
    requires CallsOk(t) && |t.calls| >= 2 && (s == SUSPENDED || s == SLEEPING || Finished(s))
    requires |t'.fibers| == |t.fibers| && t'.calls == t.calls[..|t.calls| - 1] && t'.cpu == t.calls[|t.calls| - 2]
    requires forall g | 0 <= g < |t.fibers| ::
               t'.fibers[g].state == if g == t.cpu then s else if g == t'.cpu then RUNNING else t.fibers[g].state
    requires forall g | 0 <= g < |t.fibers| :: t'.fibers[g].ctx == if g == t.cpu then Swapped else t.fibers[g].ctx
    ensures CallsOk(t')
  {
    forall g | 0 <= g < |t.fibers| && g !in t'.calls
      ensures g == t.cpu || g !in t.calls
    {
      assert t.calls == t'.calls + [t.cpu];
    }
  }

  // The two threads around the switch of a resume.
  lemma ResumeSwitch(t: Thread, m: Machine, f: FiberId, t2: Thread)
    requires Inv(t, m) && m.Legal(Resume(f)) && !Finished(t.fibers[f].state)
    requires t2 == SetState(Activate(t, f).(calls := t.calls + [f]), t.cpu, SUSPENDED)
    ensures MemoryOk(t2, m.stack) && MemoryOk(Switch(t2, f), m.stack) && Exclusive(Switch(t2, f).fibers)
  {
    var t1 := Activate(t, f).(calls := t.calls + [f]);
    ActivateKeeps(t, f, m.stack);
    CallsKeep(Activate(t, f), t1.calls, m.stack);
    SetStateKeeps(t1, t.cpu, SUSPENDED, m.stack);
    SwitchKeepsStacks(t2, f, m.stack);
  }

  lemma ResumeCalls(t: Thread, f: FiberId, t2: Thread)
    requires CallsOk(t) && f < |t.fibers| && f !in t.calls && |t.calls| < MAX_CALL_STACK_DEPTH
    requires t2 == SetState(Activate(t, f).(calls := t.calls + [f]), t.cpu, SUSPENDED)
    requires t.fibers[f].mem < |t.mems|
    ensures var t' := Switch(t2, f);
            && CallsOk(t') && t'.calls == t.calls + [f]
            && forall state | SameStates(t.fibers, state) :: SameStates(t'.fibers, state[t.cpu := SUSPENDED][f := RUNNING])
  {
    SwitchFields(t2, f);
    CallsAfterResume(t, Switch(t2, f), f);
  }

  lemma ResumeApply(t: Thread, f: FiberId, t2: Thread)
    requires CallsOk(t) && f < |t.fibers| && f !in t.calls && !Finished(t.fibers[f].state) && t.fibers[f].mem < |t.mems|
    requires OccupierIn(t, t.fibers[f].mem)
    requires t2 == SetState(Activate(t, f).(calls := t.calls + [f]), t.cpu, SUSPENDED)
    ensures Apply(t, Resume(f)).None? <==> Blocked(t, Resume(f))
    ensures Apply(t, Resume(f)).Some? ==> Apply(t, Resume(f)).value == Switch(t2, f)
  {
  }

  lemma ResumeRefines(t: Thread, m: Machine, f: FiberId)
    requires Inv(t, m) && m.Legal(Resume(f))
    ensures Apply(t, Resume(f)).None? <==> Blocked(t, Resume(f))
    ensures Apply(t, Resume(f)).Some? ==> Inv(Apply(t, Resume(f)).value, m.Step(Resume(f)))
  {
    if !Finished(t.fibers[f].state) {
      var t2 := SetState(Activate(t, f).(calls := t.calls + [f]), t.cpu, SUSPENDED);
      ResumeApply(t, f, t2);
      if Apply(t, Resume(f)).Some? {
        ResumeSwitch(t, m, f, t2);
        ResumeCalls(t, f, t2);
      }
    }
  }

  lemma LeaveSwitch(t: Thread, m: Machine, s: FiberState, t2: Thread)
    requires Inv(t, m) && |t.calls| >= 2 && (s == SUSPENDED || s == SLEEPING || Finished(s))
    requires t2 == SetState(SetState(t, t.cpu, s).(calls := t.calls[..|t.calls| - 1]), t.calls[|t.calls| - 2], RUNNING)
    ensures MemoryOk(t2, m.stack)
    ensures var t' := Switch(t2, t.calls[|t.calls| - 2]); MemoryOk(t', m.stack) && Exclusive(t'.fibers)
  {
    SetStateKeeps(t, t.cpu, s, m.stack);
    CallsKeep(SetState(t, t.cpu, s), t.calls[..|t.calls| - 1], m.stack);
    SetStateKeeps(SetState(t, t.cpu, s).(calls := t.calls[..|t.calls| - 1]), t.calls[|t.calls| - 2], RUNNING, m.stack);
    SwitchKeepsStacks(t2, t.calls[|t.calls| - 2], m.stack);
  }

  lemma LeaveCalls(t: Thread, s: FiberState, t2: Thread, next: FiberId)
    requires CallsOk(t) && |t.calls| >= 2 && (s == SUSPENDED || s == SLEEPING || Finished(s)) && next == t.calls[|t.calls| - 2]
    requires t2 == SetState(SetState(t, t.cpu, s).(calls := t.calls[..|t.calls| - 1]), next, RUNNING)
    requires t.fibers[next].mem < |t.mems|
    ensures var t' := Switch(t2, next);
            && CallsOk(t') && t'.calls == t.calls[..|t.calls| - 1]
            && forall state | SameStates(t.fibers, state) :: SameStates(t'.fibers, state[t.cpu := s][next := RUNNING])
  {
    assert next != t.cpu;
    SwitchFields(t2, next);
    CallsAfterLeave(t, Switch(t2, next), s);
  }

  // All three ways to give up the processor come down to one switch.
  lemma LeaveIsSwap(t: Thread, s: FiberState)
    requires CallsOk(t) && |t.calls| >= 2 && (s == SUSPENDED || s == SLEEPING || Finished(s))
    ensures var next := t.calls[|t.calls| - 2];
            GiveUp(t, s) == SwapFiber(SetState(SetState(t, t.cpu, s).(calls := t.calls[..|t.calls| - 1]), next, RUNNING), next)
  {
    assert t.calls[|t.calls| - 2] != t.calls[|t.calls| - 1];
    assert SetState(t, t.cpu, s).(calls := t.calls[..|t.calls| - 1]) == SetState(t.(calls := t.calls[..|t.calls| - 1]), t.cpu, s);
  }

  lemma LeaveBlocked(t: Thread, s: FiberState, t2: Thread)
    requires CallsOk(t) && |t.calls| >= 2
    requires forall f | 0 <= f < |t.fibers| :: t.fibers[f].mem < |t.mems|
    requires forall k: nat | k < |t.mems| :: OccupierIn(t, k)
    requires t2 == SetState(SetState(t, t.cpu, s).(calls := t.calls[..|t.calls| - 1]), t.calls[|t.calls| - 2], RUNNING)
    ensures SwapFiber(t2, t.calls[|t.calls| - 2]).None? <==> OccupiedBy(t, t.calls[|t.calls| - 2], s)
  {
    var next := t.calls[|t.calls| - 2];
    assert OccupierIn(t, t.fibers[next].mem);
  }

  lemma LeaveRefines(t: Thread, m: Machine, s: FiberState)
    requires Inv(t, m) && |t.calls| >= 2 && (s == SUSPENDED || s == SLEEPING || Finished(s))
    ensures GiveUp(t, s).None? <==> OccupiedBy(t, t.calls[|t.calls| - 2], s)
    ensures GiveUp(t, s).Some? ==> Inv(GiveUp(t, s).value, m.Return(s))
  {
    var next := t.calls[|t.calls| - 2];
    var t2 := SetState(SetState(t, t.cpu, s).(calls := t.calls[..|t.calls| - 1]), next, RUNNING);
    LeaveIsSwap(t, s);
    LeaveBlocked(t, s, t2);
    if GiveUp(t, s).Some? {
      LeaveSwitch(t, m, s, t2);
      LeaveCalls(t, s, t2, next);
    }
  }

  lemma YieldRefines(t: Thread, m: Machine)
    requires Inv(t, m) && m.Legal(Yield)
    ensures Apply(t, Yield).None? <==> Blocked(t, Yield)
    ensures Apply(t, Yield).Some? ==> Inv(Apply(t, Yield).value, m.Step(Yield))
  {
    LeaveRefines(t, m, SUSPENDED);
  }

  lemma SleepRefines(t: Thread, m: Machine)
    requires Inv(t, m) && m.Legal(Sleep)
    ensures Apply(t, Sleep).None? <==> Blocked(t, Sleep)
    ensures Apply(t, Sleep).Some? ==> Inv(Apply(t, Sleep).value, m.Step(Sleep))
  {
    LeaveRefines(t, m, SLEEPING);
  }

  lemma FinishRefines(t: Thread, m: Machine, threw: bool)
    requires Inv(t, m) && m.Legal(Finish(threw))
    ensures Apply(t, Finish(threw)).None? <==> Blocked(t, Finish(threw))
    ensures Apply(t, Finish(threw)).Some? ==> Inv(Apply(t, Finish(threw)).value, m.Step(Finish(threw)))
  {
    LeaveRefines(t, m, if threw then EXCEPTION else TERMINATED);
  }

  lemma ExecuteRefines(t: Thread, m: Machine, bytes: seq<byte>, scratch: seq<byte>)
    requires Inv(t, m) && m.Legal(Execute(bytes, scratch)) && Fits(t, Execute(bytes, scratch))
    ensures Apply(t, Execute(bytes, scratch)).Some?
    ensures Inv(Apply(t, Execute(bytes, scratch)).value, m.Step(Execute(bytes, scratch)))
  {
    var t' := Apply(t, Execute(bytes, scratch)).value;
    var stack' := m.stack[t.cpu := bytes];
    forall f: nat | f < |t.fibers| && f != t.cpu
      ensures ParkedIn(t', stack', f)
    {
      assert ParkedIn(t, m.stack, f);
    }
    forall k: nat | k < |t.mems|
      ensures OccupierIn(t', k)
    {
      assert OccupierIn(t, k);
    }
  }

  lemma ResetRefines(t: Thread, m: Machine, f: FiberId)
    requires Inv(t, m) && m.Legal(Reset(f))
    ensures Apply(t, Reset(f)).Some? && Inv(Apply(t, Reset(f)).value, m.Step(Reset(f)))
  {
    assert ParkedIn(t, m.stack, f);
    RecordKeeps(t, f, t.fibers[f].(saved := [], state := INITING), m.stack, []);
  }

  lemma WakeupRefines(t: Thread, m: Machine, f: FiberId)
    requires Inv(t, m) && m.Legal(Wakeup(f))
    ensures Apply(t, Wakeup(f)).Some? && Inv(Apply(t, Wakeup(f)).value, m.Step(Wakeup(f)))
  {
    if t.fibers[f].state == SLEEPING {
      SetStateKeeps(t, f, SUSPENDED, m.stack);
    }
  }

  // Every operation on the shared stacks is one step of the private-stack machine. It aborts
  // exactly when it would displace an occupier that is neither SUSPENDED nor TERMINATED; the
  // assertions of fiber_yield and fiber_sleep on the next fiber never fail.
  lemma StepRefines(t: Thread, m: Machine, op: Op)
    requires Inv(t, m) && m.Legal(op) && Fits(t, op)
    ensures Apply(t, op).None? <==> Blocked(t, op)
    ensures Apply(t, op).Some? ==> Inv(Apply(t, op).value, m.Step(op))
  {
    match op
    case Execute(bytes, scratch) => ExecuteRefines(t, m, bytes, scratch);
    case Resume(f) => ResumeRefines(t, m, f);
    case Yield => YieldRefines(t, m);
    case Sleep => SleepRefines(t, m);
    case Finish(threw) => FinishRefines(t, m, threw);
    case Wakeup(f) => WakeupRefines(t, m, f);
    case Reset(f) => ResetRefines(t, m, f);
  }

  // ---------------------------------------------------------------- whole runs

  function Run(t: Thread, ops: seq<Op>): Option<Thread>
    decreases |ops|
  {
    if ops == [] then Some(t)
    else
      var t' := Apply(t, ops[0]);
      if t'.None? then None else Run(t'.value, ops[1..])
  }

  function MachineRun(m: Machine, ops: seq<Op>): Machine
    requires LegalRun(m, ops)
    decreases |ops|
  {
    if ops == [] then m else MachineRun(m.Step(ops[0]), ops[1..])
  }

  predicate LegalRun(m: Machine, ops: seq<Op>)
    decreases |ops|
  {
    ops == [] || (m.Legal(ops[0]) && LegalRun(m.Step(ops[0]), ops[1..]))
  }

  ghost predicate FittingRun(t: Thread, ops: seq<Op>)
    decreases |ops|
  {
    ops == [] || (Fits(t, ops[0]) && (Apply(t, ops[0]).Some? ==> FittingRun(Apply(t, ops[0]).value, ops[1..])))
  }

  // Shared stacks refine private stacks over every run.
  lemma {:induction false} RunRefines(t: Thread, m: Machine, ops: seq<Op>)
    requires Inv(t, m) && LegalRun(m, ops) && FittingRun(t, ops)
    ensures Run(t, ops).Some? ==> Inv(Run(t, ops).value, MachineRun(m, ops))
    decreases |ops|
  {
    if ops != [] {
      StepRefines(t, m, ops[0]);
      if Apply(t, ops[0]).Some? {
        RunRefines(Apply(t, ops[0]).value, m.Step(ops[0]), ops[1..]);
      }
    }
  }

  // Whether fiber `f` computes, starts over or is reset somewhere in a run.
  predicate Touched(m: Machine, ops: seq<Op>, f: FiberId)
    requires LegalRun(m, ops)
    decreases |ops|
  {
    ops != [] &&
    (   (ops[0].Execute? && m.Current() == f)
     || (ops[0].Reset? && ops[0].target == f)
     || Touched(m.Step(ops[0]), ops[1..], f))
  }

  // Private stacks are private: nothing but a fiber's own computation changes its stack.
  lemma {:induction false} Isolation(m: Machine, ops: seq<Op>, f: FiberId)
    requires m.Wf() && f < |m.stack| && LegalRun(m, ops) && !Touched(m, ops, f)
    ensures f < |MachineRun(m, ops).stack| && MachineRun(m, ops).stack[f] == m.stack[f]
    decreases |ops|
  {
    if ops != [] {
      Isolation(m.Step(ops[0]), ops[1..], f);
    }
  }

  // The live bytes of the running fiber.
  function LiveBytes(t: Thread): seq<byte>
    requires t.cpu < |t.fibers| && t.fibers[t.cpu].mem < |t.mems|
  {
    Above(t.mems[t.fibers[t.cpu].mem].buffer, t.rsp)
  }

  // A fiber that is switched out and later switched in again sees exactly the bytes it had, no
  // matter who used its stack block in between.
  lemma ResumedBytes(t: Thread, m: Machine, ops: seq<Op>)
    requires Inv(t, m) && LegalRun(m, ops) && FittingRun(t, ops) && !Touched(m, ops, t.cpu)
    requires Run(t, ops).Some? && Run(t, ops).value.cpu == t.cpu
    ensures Inv(Run(t, ops).value, MachineRun(m, ops))
    ensures LiveBytes(Run(t, ops).value) == LiveBytes(t)
  {
    RunRefines(t, m, ops);
    Isolation(m, ops, t.cpu);
  }

  // A thread in which nothing has run yet: the main fiber on the thread's own block, every other
  // fiber INITING on the block it was given.
  ghost predicate Initial(t: Thread) {
    && t.fibers != [] && t.calls == [0] && t.cpu == 0 && !t.fibers[0].shared && t.fibers[0].state == RUNNING
    && Exclusive(t.fibers)
    && (forall f | 0 <= f < |t.fibers| :: t.fibers[f].mem < |t.mems| && t.fibers[f].top <= |t.mems[t.fibers[f].mem].buffer|)
    && (forall f | 0 < f < |t.fibers| :: t.fibers[f].state == INITING)
    && (forall m | 0 <= m < |t.mems| :: t.mems[m].occupier == None)
    && t.rsp == |t.mems[t.fibers[0].mem].buffer|
  }

  function InitialMachine(t: Thread): Machine {
    Machine([0], seq(|t.fibers|, f requires 0 <= f < |t.fibers| => t.fibers[f].state), seq(|t.fibers|, f => []))
  }

  lemma InitialInv(t: Thread)
    requires Initial(t)
    ensures Inv(t, InitialMachine(t))
  {
  }

  // The assertion in change_occupier refuses more than the scheme needs: wherever the occupier of a
  // block sleeps, or has ended with an exception, resuming another fiber of that block aborts the process.
  lemma SleepingOccupierAborts(t: Thread, m: Machine, g: FiberId)
    requires Inv(t, m) && m.Legal(Resume(g)) && t.fibers[g].shared && !Finished(t.fibers[g].state)
    requires var o := t.mems[t.fibers[g].mem].occupier;
             o.Some? && o.value != g && o.value < |t.fibers| && (t.fibers[o.value].state == SLEEPING || t.fibers[o.value].state == EXCEPTION)
    ensures Apply(t, Resume(g)).None?
  {
    assert OccupierIn(t, t.fibers[g].mem);
    StepRefines(t, m, Resume(g));
  }

  // Such a state is one sleep away from any shared fiber that the main fiber resumed.
  lemma SleepThenResume(t: Thread, m: Machine, g: FiberId)
    requires Inv(t, m) && |t.calls| == 2 && !t.fibers[0].shared && t.fibers[t.cpu].shared
    requires g < |t.fibers| && g !in t.calls && t.fibers[g].shared && t.fibers[g].mem == t.fibers[t.cpu].mem && !Finished(t.fibers[g].state)
    ensures Apply(t, Sleep).Some? && Apply(Apply(t, Sleep).value, Resume(g)).None?
  {
    StepRefines(t, m, Sleep);
    var t1 := Apply(t, Sleep).value;
    LeaveIsSwap(t, SLEEPING);
    SwitchFields(SetState(SetState(t, t.cpu, SLEEPING).(calls := t.calls[..1]), 0, RUNNING), 0);
    assert t1.mems[t.fibers[g].mem].occupier == Some(t.cpu) && t1.fibers[t.cpu].state == SLEEPING;
    assert t1.fibers[g].mem == t.fibers[g].mem && t1.fibers[g].shared && t1.fibers[g].state == t.fibers[g].state;
    SleepingOccupierAborts(t1, m.Step(Sleep), g);
  }

  // What a resume leaves of the fibers.
  lemma ResumedFields(t: Thread, f: FiberId)
    requires f < |t.fibers| && t.cpu < |t.fibers| && t.fibers[f].mem < |t.mems| && !Finished(t.fibers[f].state) && f != t.cpu
    requires ResumeFiber(t, f).Some?
    ensures var t' := ResumeFiber(t, f).value;
            && |t'.fibers| == |t.fibers| && t'.calls == t.calls + [f] && t'.cpu == f
            && forall g | 0 <= g < |t.fibers| ::
                 && t'.fibers[g].mem == t.fibers[g].mem && t'.fibers[g].shared == t.fibers[g].shared
                 && (g != f && g != t.cpu ==> t'.fibers[g].state == t.fibers[g].state)
  {
    var t2 := SetState(Activate(t, f).(calls := t.calls + [f]), t.cpu, SUSPENDED);
    assert ResumeFiber(t, f).value == Switch(t2, f);
  }

  // From the start, for any two fibers that share a block: one is resumed and sleeps, the other is resumed.
  lemma SleeperAbortsFromStart(t: Thread, f: FiberId, g: FiberId)
    requires Initial(t) && 0 < f < |t.fibers| && 0 < g < |t.fibers| && f != g
    requires t.fibers[f].shared && t.fibers[g].shared && t.fibers[f].mem == t.fibers[g].mem
    ensures Apply(t, Resume(f)).Some?
    ensures var t1 := Apply(t, Resume(f)).value;
            Apply(t1, Sleep).Some? && Apply(Apply(t1, Sleep).value, Resume(g)).None?
  {
    InitialInv(t);
    var m := InitialMachine(t);
    StepRefines(t, m, Resume(f));
    var t1 := Apply(t, Resume(f)).value;
    ResumedFields(t, f);
    assert t1.calls == [0, f];
    SleepThenResume(t1, m.Step(Resume(f)), g);
  }

  // ---------------------------------------------------------------- the code

  // What the pointers of the source guarantee: every index is in range and every top and stack
  // pointer lies in its block.
  ghost predicate Sound(t: Thread) {
    && t.cpu < |t.fibers|
    && (forall f | 0 <= f < |t.fibers| :: t.fibers[f].mem < |t.mems| && t.fibers[f].top <= |t.mems[t.fibers[f].mem].buffer|)
    && (forall m: nat | m < |t.mems| :: OccupierIn(t, m))
    && t.rsp <= |t.mems[t.fibers[t.cpu].mem].buffer|
  }

  lemma InvSound(t: Thread, m: Machine)
    requires Inv(t, m)
    ensures Sound(t)
  {
    forall g | 0 <= g < |t.fibers|
      ensures t.fibers[g].top <= |t.mems[t.fibers[g].mem].buffer|
    {
      assert g != t.cpu ==> ParkedIn(t, m.stack, g);
    }
  }

  // The call stack and the states play no part in it.
  lemma SoundRecord(t: Thread, f: FiberId, r: Fiber, calls: seq<FiberId>)
    requires Sound(t) && f < |t.fibers| && r.mem == t.fibers[f].mem && r.shared == t.fibers[f].shared && r.top == t.fibers[f].top
    ensures Sound(t.(fibers := t.fibers[f := r], calls := calls))
  {
    var t' := t.(fibers := t.fibers[f := r], calls := calls);
    forall m: nat | m < |t.mems|
      ensures OccupierIn(t', m)
    {
      assert OccupierIn(t, m);
    }
  }

  // FiberEnvironment with the fibers and stack blocks it works on. Each method follows the
  // statements of the source; its contract is the operation above.
  class FiberEnvironment {
    var fibers: seq<Fiber>
    var mems: seq<FiberMem>
    var callStack: seq<FiberId>  // fiber_call_stack_ up to call_stack_depth_
    var swapIn: Option<FiberId>
    var swapOut: Option<FiberId>
    var cpu: FiberId
    var rsp: nat

    function View(): Thread
      reads this
    {
      Thread(fibers, mems, callStack, cpu, rsp)
    }

    constructor (t: Thread)
      requires Initial(t)
      ensures View() == t && Inv(View(), InitialMachine(t))
    {
      fibers, mems, callStack, cpu, rsp := t.fibers, t.mems, t.calls, t.cpu, t.rsp;
      swapIn, swapOut := None, None;
      InitialInv(t);
    }

    method SaveFiberStack(f: FiberId)
      requires f < |fibers| && fibers[f].mem < |mems| && fibers[f].top <= |mems[fibers[f].mem].buffer|
      modifies this`fibers
      ensures fibers == old(fibers[f := fibers[f].(saved := mems[fibers[f].mem].buffer[fibers[f].top..])])
    {
      fibers := fibers[f := fibers[f].(saved := mems[fibers[f].mem].buffer[fibers[f].top..])];
    }

    // change_occupier; `ok` is false when its assertion aborts the process.
    method ChangeOccupier(f: FiberId) returns (ok: bool)
      requires f < |fibers| && fibers[f].shared && fibers[f].mem < |mems|
      requires OccupierIn(View(), fibers[f].mem)
      requires forall g | 0 <= g < |fibers| && fibers[g].mem == fibers[f].mem :: fibers[g].top <= |mems[fibers[f].mem].buffer|
      modifies this`fibers, this`mems
      ensures var d := old(Displaced(f, fibers[f], mems[fibers[f].mem]));
              && (ok <==> (d.Some? ==> old(fibers)[d.value].state in {SUSPENDED, TERMINATED}))
              && (ok ==> fibers == if d.None? then old(fibers) else
                                     var r := old(fibers)[d.value];
                                     old(fibers)[d.value := r.(saved := Above(old(mems[fibers[f].mem]).buffer, r.top))])
      ensures ok ==> mems == old(mems[fibers[f].mem := mems[fibers[f].mem].(occupier := Some(f))])
    {
      var m := fibers[f].mem;
      if mems[m].occupier == Some(f) || mems[m].occupier == None {
        mems := mems[m := mems[m].(occupier := Some(f))];
        return true;
      }
      var o := mems[m].occupier.value;
      if !(fibers[o].state == SUSPENDED || fibers[o].state == TERMINATED) {
        return false;
      }
      SaveFiberStack(o);
      mems := mems[m := mems[m].(occupier := Some(f))];
      ok := true;
    }

    // swap_fiber from the register swap on. A fiber that starts afresh enters
    // fiber_func_wrapper; any other returns into swap_fiber and gets its bytes back.
    method LoadContext(to: FiberId)
      requires to < |fibers| && fibers[to].mem < |mems|
      requires swapIn == if fibers[to].shared then Some(to) else None
      modifies this`mems, this`cpu, this`rsp, this`swapIn, this`swapOut
      ensures cpu == to && rsp == LandSp(fibers[to], old(mems)[fibers[to].mem])
      ensures mems == old(mems)[fibers[to].mem :=
                        LandBlock(fibers[to], old(mems)[fibers[to].mem], old(swapIn.Some? && swapOut.Some? && swapIn != swapOut))]
    {
      cpu := to;
      if fibers[to].ctx == Entry {
        rsp := |mems[fibers[to].mem].buffer|;
      } else {
        rsp := fibers[to].top;
        if swapIn.Some? && swapOut.Some? && swapIn != swapOut && |fibers[swapIn.value].saved| > 0 {
          var m := fibers[swapIn.value].mem;
          mems := mems[m := mems[m].(buffer := Overwrite(mems[m].buffer, fibers[swapIn.value].top, fibers[swapIn.value].saved))];
        }
        swapIn, swapOut := None, None;
      }
    }

    // swap_fiber up to the register swap.
    method StoreContext(from: FiberId, to: FiberId) returns (ok: bool)
      requires Sound(View()) && from == cpu && to < |fibers| && to != from
      modifies this`fibers, this`mems, this`swapIn, this`swapOut
      ensures ok <==> SwapFiber(old(View()), to).Some?
      ensures ok ==> fibers == Switch(old(View()), to).fibers
      ensures ok ==> mems == if fibers[to].shared then old(mems[fibers[to].mem := mems[fibers[to].mem].(occupier := Some(to))]) else old(mems)
      ensures ok ==> swapIn == if fibers[to].shared then Some(to) else None
      ensures ok && fibers[to].shared ==> swapOut == old(mems[fibers[to].mem].occupier)
    {
      ghost var t := View();
      assert OccupierIn(t, fibers[to].mem);
      fibers := fibers[from := fibers[from].(top := rsp)];
      if fibers[to].shared {
        assert OccupierIn(View(), fibers[to].mem);
        swapIn, swapOut := Some(to), mems[fibers[to].mem].occupier;
        ok := ChangeOccupier(to);
        if !ok {
          return;
        }
      } else {
        swapIn, swapOut := None, None;
      }
      fibers := fibers[from := fibers[from].(ctx := Swapped)];
      ok := true;
    }

    // swap_fiber
    method SwapContext(from: FiberId, to: FiberId) returns (ok: bool)
      requires Sound(View()) && from == cpu && to < |fibers| && to != from
      modifies this
      ensures ok <==> SwapFiber(old(View()), to).Some?
      ensures ok ==> View() == SwapFiber(old(View()), to).value
    {
      assert OccupierIn(View(), fibers[to].mem);
      ok := StoreContext(from, to);
      if ok {
        LoadContext(to);
      }
    }

    method FiberResume(f: FiberId) returns (ok: bool)
      requires Sound(View()) && f < |fibers| && f != cpu && callStack != [] && callStack[|callStack| - 1] == cpu
      modifies this
      ensures ok <==> Apply(old(View()), Resume(f)).Some?
      ensures ok ==> View() == Apply(old(View()), Resume(f)).value
    {
      ghost var t := View();
      if fibers[f].state == INITING {
        fibers := fibers[f := fibers[f].(state := READY, ctx := Entry)];  // make_context
      } else if fibers[f].state == TERMINATED || fibers[f].state == EXCEPTION {
        return true;
      }
      var cur := callStack[|callStack| - 1];
      callStack := callStack + [f];
      fibers := fibers[f := fibers[f].(state := RUNNING)];
      fibers := fibers[cur := fibers[cur].(state := SUSPENDED)];
      SoundRecord(t, f, Activate(t, f).fibers[f], callStack);
      SoundRecord(Activate(t, f).(calls := callStack), cur, t.fibers[cur].(state := SUSPENDED), callStack);
      assert fibers == SetState(Activate(t, f), t.cpu, SUSPENDED).fibers;
      ok := SwapContext(cur, f);
    }

    // The state changes of fiber_yield and fiber_sleep; `ok` is false when the assertion on the
    // next fiber aborts.
    method PopFiber(s: FiberState) returns (cur: FiberId, next: FiberId, ok: bool)
      requires Sound(View()) && |callStack| >= 2 && callStack[|callStack| - 1] == cpu
      requires callStack[|callStack| - 2] < |fibers| && callStack[|callStack| - 2] != cpu
      modifies this`fibers, this`callStack
      ensures cur == cpu && next == old(callStack[|callStack| - 2]) && callStack == old(callStack[..|callStack| - 1])
      ensures ok <==> old(fibers[next].state == SUSPENDED)
      ensures ok ==> Sound(View())
      ensures ok ==> fibers == old(var r := if fibers[cpu].state == RUNNING then fibers[cpu].(state := s) else fibers[cpu];
                                   fibers[cpu := r][next := fibers[next].(state := RUNNING)])
    {
      ghost var t := View();
      cur := callStack[|callStack| - 1];
      callStack := callStack[..|callStack| - 1];
      next := callStack[|callStack| - 1];
      if fibers[cur].state == RUNNING {
        fibers := fibers[cur := fibers[cur].(state := s)];
      }
      ok := fibers[next].state == SUSPENDED;
      if ok {
        SoundRecord(t, cur, fibers[cur], callStack);
        assert t.fibers[cur := fibers[cur]] == fibers;
        SoundRecord(View(), next, fibers[next].(state := RUNNING), callStack);
        fibers := fibers[next := fibers[next].(state := RUNNING)];
      }
    }

    // fiber_yield (`s` is SUSPENDED) and fiber_sleep (`s` is SLEEPING)
    method FiberLeave(s: FiberState) returns (ok: bool)
      requires Sound(View()) && |callStack| >= 2 && callStack[|callStack| - 1] == cpu
      requires callStack[|callStack| - 2] < |fibers| && callStack[|callStack| - 2] != cpu
      modifies this
      ensures ok <==> LeaveFiber(old(View()), s).Some?
      ensures ok ==> View() == LeaveFiber(old(View()), s).value
    {
      ghost var t := View();
      var cur, next;
      cur, next, ok := PopFiber(s);
      if ok {
        assert t.fibers[cur := t.fibers[cur]] == t.fibers;
        ok := SwapContext(cur, next);
      }
    }

    // The end of fiber_func_wrapper.
    method FiberFinish(threw: bool) returns (ok: bool)
      requires Sound(View()) && |callStack| >= 2 && callStack[|callStack| - 1] == cpu
      requires callStack[|callStack| - 2] < |fibers| && callStack[|callStack| - 2] != cpu
      modifies this
      ensures ok <==> Apply(old(View()), Finish(threw)).Some?
      ensures ok ==> View() == Apply(old(View()), Finish(threw)).value
    {
      ghost var t := View();
      fibers := fibers[cpu := fibers[cpu].(state := if threw then EXCEPTION else TERMINATED)];
      SoundRecord(t, cpu, fibers[cpu], callStack);
      ok := FiberLeave(SUSPENDED);
    }

    method FiberWakeup(f: FiberId)
      requires f < |fibers|
      modifies this`fibers
      ensures Some(View()) == Apply(old(View()), Wakeup(f))
    {
      if fibers[f].state == SLEEPING {
        fibers := fibers[f := fibers[f].(state := SUSPENDED)];
      }
    }

    // Fiber::reset; the main fiber refuses.
    method FiberReset(f: FiberId) returns (done: bool)
      requires f < |fibers|
      modifies this`fibers
      ensures done <==> f != 0
      ensures Some(View()) == Apply(old(View()), Reset(f))
    {
      if f == 0 {
        return false;
      }
      fibers := fibers[f := fibers[f].(saved := [], state := INITING)];
      done := true;
    }
  }
}
