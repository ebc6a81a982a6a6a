/** The pool of transfer slots shared by every caller of submit_pipe_request and the
    backend task (main/usb_backend.c), as an interleaved step system.

    One step is one access to shared memory, or one critical section of state_mutex.
    A CallId names one call of submit_pipe_request together with the stack frame that its
    slot points into, so "any number of callers" is "any number of calls".  The log records
    what happened to which slot on behalf of which call; nothing reads it but the theorems. */
module PipePool {

  type CallId = nat

  /** The value of a null pointer into a caller's frame. */
  const NULL: int := -1

  /** 5000 ms at FreeRTOS's default rate of 100 ticks a second, and the width of TickType_t. */
  const TIMEOUT: nat := 500
  const WRAP: nat := 0x1_0000_0000

  datatype Status =
    Success | Eio | Enodev | Ebusy | Emsgsize | Enomem | Etimedout | Econnreset | Epipe

  /** usb_backend_pipe_req_t: flags, the pointers into the caller's frame, and done_sem. */
  datatype Slot = Slot(
    reserved: bool, active: bool, submitted: bool, completed: bool, aborted: bool,
    io: int,       // out_data, in_data and in_len_out
    report: int,   // status_out
    flag: int,     // cancel, which a caller may leave NULL
    done: bool,
    deadline: nat) // the time it stands for: the field holds it modulo WRAP

  const IDLE := Slot(false, false, false, false, false, NULL, NULL, NULL, false, 0)

  datatype CallPc =
    | Entered                        // waiting for pipe_avail_sem
    | Permitted                      // holds a permit, waiting for state_mutex
    | Refused                        // no such device or endpoint; still holds the permit
    | NoSlot                         // the "should never happen" branch; still holds the permit
    | Allocated(slot: nat, stage: nat)  // filling the slot it was given
    | Waiting(slot: nat)             // active is set; waiting for done_sem
    | Collected(slot: nat)           // has the token; the slot is still reserved
    | Unassigned                     // the slot is free again; still holds the permit
    | Returned(result: Status)

  /** A caller's frame: where it stands, its `status` variable, and its cancel flag. */
  datatype Call = Call(pc: CallPc, status: Status, cancel: bool, cancellable: bool)

  /** Where the backend task stands in one round of its loop. */
  datatype Pc =
    | Pump
    | SubmitHead(i: nat)
    | Prepare(i: nat)
    | Load(i: nat)
    | Handoff(i: nat)
    | ScanHead(i: nat)
    | Poll(i: nat)
    | Clock(i: nat)
    | Flush(i: nat)
    | Decide(i: nat)
    | Finish(i: nat)
    | Override(i: nat, st: Status)
    | ClearActive(i: nat, st: Status, scanning: bool)
    | ClearSubmitted(i: nat, st: Status)
    | Report(i: nat, st: Status, scanning: bool)
    | Signal(i: nat, scanning: bool)

  datatype What =
    | Alloc | Activate | Touch | Polled(raised: bool) | Submitted
    | Reported(st: Status) | Signalled | Taken | Released

  datatype Event = Event(slot: nat, call: int, what: What)

  /** The time in ticks, and the time at which the backend last read the tick counter. */
  datatype State = State(
    permits: nat, slots: seq<Slot>, calls: map<CallId, Call>, pc: Pc, log: seq<Event>, ticks: nat, now: nat)

  ghost predicate Init(s: State) {
    && s.permits == |s.slots| > 0
    && (forall i | 0 <= i < |s.slots| :: s.slots[i] == IDLE)
    && s.calls == map[] && s.pc == Pump && s.log == [] && s.now == 0
  }

  /** What the backend cannot control: an immediate failure, the hardware status. */
  datatype Choice = Choice(failed: bool, failure: Status, hardware: Status)

  predicate Possible(c: Choice) {
    && c.failure in {Eio, Enodev, Emsgsize, Enomem}
    && c.hardware in {Success, Etimedout, Econnreset, Epipe, Enodev, Eio}
  }

  datatype Step =
    | Enter(r: CallId, cancellable: bool)
    | TakePermit(r: CallId)
    | Refuse(r: CallId)
    | Allocate(r: CallId)
    | Fill(r: CallId)
    | Start(r: CallId)
    | Collect(r: CallId)
    | Unassign(r: CallId)
    | GivePermit(r: CallId)
    | SetCancel(r: CallId)
    | Elapse(ticks: nat)   // time goes by
    | Callback(i: nat)     // the library may fire any slot's callback, whenever it is pumped
    | Advance(c: Choice)   // the backend task's next step

  predicate Enabled(s: State, step: Step) {
    match step
    case Enter(r, _) => r !in s.calls
    case TakePermit(r) => r in s.calls && s.calls[r].pc.Entered? && s.permits > 0
    case Refuse(r) => r in s.calls && s.calls[r].pc.Permitted?
    case Allocate(r) => r in s.calls && s.calls[r].pc.Permitted?
    case Fill(r) =>
      r in s.calls && s.calls[r].pc.Allocated? && s.calls[r].pc.slot < |s.slots| && s.calls[r].pc.stage < 3
    case Start(r) =>
      r in s.calls && s.calls[r].pc.Allocated? && s.calls[r].pc.slot < |s.slots| && s.calls[r].pc.stage >= 3
    case Collect(r) =>
      r in s.calls && s.calls[r].pc.Waiting? && s.calls[r].pc.slot < |s.slots| && s.slots[s.calls[r].pc.slot].done
    case Unassign(r) => r in s.calls && s.calls[r].pc.Collected? && s.calls[r].pc.slot < |s.slots|
    case GivePermit(r) => r in s.calls && (s.calls[r].pc.Refused? || s.calls[r].pc.NoSlot? || s.calls[r].pc.Unassigned?)
    case SetCancel(r) => r in s.calls
    case Elapse(_) => true
    case Callback(i) => i < |s.slots| && (s.pc.Pump? || s.pc.Flush?)
    case Advance(c) => Possible(c) && (Engaged(s.pc) == NULL || Engaged(s.pc) < |s.slots|)
  }

  function Do(s: State, step: Step): State
    requires Enabled(s, step)
  {
    match step
    case Enter(r, cancellable) => s.(calls := s.calls[r := Call(Entered, Eio, false, cancellable)])
    case TakePermit(r) => Goto(s, r, Permitted).(permits := s.permits - 1)
    case Refuse(r) => Goto(s, r, Refused)
    case Allocate(r) =>
      var i := FirstUnassigned(s.slots, 0);
      if i == |s.slots| then Goto(s, r, NoSlot)
      else
        Log(Put(Goto(s, r, Allocated(i, 0)), i, s.slots[i].(reserved := true, active := false)), i, r, Alloc)
    case Fill(r) =>
      var Allocated(i, stage) := s.calls[r].pc;
      var p := s.slots[i];
      var q := if stage == 0 then p.(io := r)
               else if stage == 1 then p.(report := r)
               else p.(flag := if s.calls[r].cancellable then r else NULL);
      Put(Goto(s, r, Allocated(i, stage + 1)), i, q)
    case Start(r) =>
      var i := s.calls[r].pc.slot;
      Log(Put(Goto(s, r, Waiting(i)), i, s.slots[i].(active := true)), i, r, Activate)
    case Collect(r) =>
      var i := s.calls[r].pc.slot;
      Log(Put(Goto(s, r, Collected(i)), i, s.slots[i].(done := false)), i, r, Taken)
    case Unassign(r) =>
      var i := s.calls[r].pc.slot;
      Log(Put(Goto(s, r, Unassigned), i, s.slots[i].(reserved := false)), i, r, Released)
    case GivePermit(r) =>
      var pc := s.calls[r].pc;
      var result := if pc.Refused? then Enodev else if pc.NoSlot? then Ebusy else s.calls[r].status;
      Goto(s, r, Returned(result)).(permits := s.permits + 1)
    case SetCancel(r) => s.(calls := s.calls[r := s.calls[r].(cancel := true)])
    case Elapse(ticks) => s.(ticks := s.ticks + ticks)
    case Callback(i) => Put(s, i, s.slots[i].(completed := true))
    case Advance(c) => Backend(s, c)
  }

  /** One step of usb_backend_task. */
  function Backend(s: State, c: Choice): State
    requires Engaged(s.pc) == NULL || Engaged(s.pc) < |s.slots|
  {
    match s.pc
    case Pump => s.(pc := SubmitHead(0), now := s.ticks)

    // Phase 1: hand newly active slots to the hardware.
    case SubmitHead(i) =>
      if i >= |s.slots| then s.(pc := ScanHead(0))
      else if !s.slots[i].active || s.slots[i].submitted then s.(pc := SubmitHead(i + 1))
      else s.(pc := Prepare(i))
    case Prepare(i) => Deref(s, i, s.slots[i].io).(pc := Load(i))
    case Load(i) => Deref(s, i, s.slots[i].io).(pc := Handoff(i))
    case Handoff(i) =>
      if c.failed then s.(pc := ClearActive(i, c.failure, false))
      else
        Log(Put(s, i, Submit(s.slots[i], s.ticks)),
            i, s.slots[i].report, Submitted).(pc := SubmitHead(i + 1))

    // Phase 2: cancellation, timeout and completion of what is in flight.
    case ScanHead(i) =>
      if i >= |s.slots| then s.(pc := Pump)
      else if !s.slots[i].submitted then s.(pc := ScanHead(i + 1))
      else s.(pc := Poll(i))
    case Poll(i) =>
      var p := s.slots[i];
      if p.aborted || p.flag == NULL then s.(pc := Clock(i))
      else
        var raised := CancelSet(s, p);
        Log(Put(s, i, p.(aborted := raised)), i, p.flag, Polled(raised)).(pc := Clock(i))
    case Clock(i) =>
      Put(s, i, s.slots[i].(aborted := s.slots[i].aborted || Late(s.now, s.slots[i].deadline))).(pc := Flush(i))
    case Flush(i) => s.(pc := Decide(i))
    case Decide(i) =>
      if s.slots[i].completed || s.slots[i].aborted then s.(pc := Finish(i)) else s.(pc := ScanHead(i + 1))
    case Finish(i) =>
      var st := if s.slots[i].completed then c.hardware else Etimedout;
      Deref(s, i, s.slots[i].io).(pc := Override(i, st))
    case Override(i, st) =>
      if !s.slots[i].aborted then s.(pc := ClearActive(i, st, true))
      else
        Deref(s, i, s.slots[i].flag).(pc :=
          ClearActive(i, if CancelSet(s, s.slots[i]) then Econnreset else Etimedout, true))
    case ClearActive(i, st, scanning) =>
      Put(s, i, s.slots[i].(active := false)).(pc := if scanning then ClearSubmitted(i, st) else Report(i, st, false))
    case ClearSubmitted(i, st) => Put(s, i, s.slots[i].(submitted := false)).(pc := Report(i, st, true))
    case Report(i, st, scanning) =>
      var r := s.slots[i].report;
      if r == NULL then s.(pc := Signal(i, scanning))
      else
        Log(s.(calls := if r in s.calls then s.calls[r := s.calls[r].(status := st)] else s.calls), i, r, Reported(st))
          .(pc := Signal(i, scanning))
    case Signal(i, scanning) =>
      Log(Put(s, i, s.slots[i].(done := true)), i, s.slots[i].report, Signalled)
        .(pc := if scanning then ScanHead(i + 1) else SubmitHead(i + 1))
  }

  /** The end of prepare_and_submit_transfer, at that time. */
  function Submit(p: Slot, ticks: nat): Slot {
    p.(submitted := true, completed := false, aborted := false, deadline := ticks + TIMEOUT)
  }

  /** `now >= pipe->deadline`, on two values of the tick counter. */
  predicate Late(now: nat, deadline: nat) { now % WRAP >= deadline % WRAP }

  /** The slot the backend is in the middle of serving, or NULL between slots. */
  function Engaged(pc: Pc): int {
    if pc.Pump? || pc.SubmitHead? || pc.ScanHead? then NULL else pc.i
  }

  function Goto(s: State, r: CallId, pc: CallPc): State
    requires r in s.calls
  {
    s.(calls := s.calls[r := s.calls[r].(pc := pc)])
  }

  function Put(s: State, i: nat, p: Slot): State
    requires i < |s.slots|
  {
    s.(slots := s.slots[i := p])
  }

  function Log(s: State, i: nat, call: int, what: What): State {
    s.(log := s.log + [Event(i, call, what)])
  }

  /** A read or write through a pointer into a caller's frame; the code tests for NULL first. */
  function Deref(s: State, i: nat, p: int): State {
    if p == NULL then s else Log(s, i, p, Touch)
  }

  predicate CancelSet(s: State, p: Slot) {
    p.flag in s.calls && s.calls[p.flag].cancel
  }

  /** alloc_pipe_locked: the first slot that is not reserved, or |slots|. */
  function FirstUnassigned(slots: seq<Slot>, from: nat): (i: nat)
    requires from <= |slots|
    ensures from <= i <= |slots|
    ensures i < |slots| ==> !slots[i].reserved
    ensures forall k | from <= k < i :: slots[k].reserved
    decreases |slots| - from
  {
    if from == |slots| || !slots[from].reserved then from else FirstUnassigned(slots, from + 1)
  }

  /** A run: any interleaving of callers, backend, library callbacks and cancellations. */
  ghost predicate IsRun(run: seq<State>, steps: seq<Step>) {
    && |run| == |steps| + 1
    && Init(run[0])
    && forall k | 0 <= k < |steps| :: Enabled(run[k], steps[k]) && run[k + 1] == Do(run[k], steps[k])
  }
}
