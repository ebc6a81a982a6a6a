/** The pool as main/usb_backend.c has it: one array of slots updated in place.  Each method is
    a stretch of the code.  The object carries the run of PipePool that brought it where it is,
    and Valid() says that it is one, so every theorem about runs is a theorem about it. */
module PipeTable {
  import opened PipePool
  import opened PipePoolSafety
  import opened PipePoolStatus

  /** What the host library and the allocator answer. */
  method Outside() returns (c: Choice)
    ensures Possible(c)
  {
    var failure: Status :| failure in {Eio, Enodev, Emsgsize, Enomem};
    var hardware: Status :| hardware in {Success, Etimedout, Econnreset, Epipe, Enodev, Eio};
    var failed: bool := *;
    c := Choice(failed, failure, hardware);
  }

  class Table {
    var pipes: array<Slot>
    var permits: nat
    var calls: map<CallId, Call>   // the callers' frames
    var ticks: nat                 // the time, whose tick counter is taken modulo WRAP
    var now: nat
    ghost var pc: Pc
    ghost var log: seq<Event>
    ghost var run: seq<State>
    ghost var steps: seq<Step>

    ghost function Abs(): State
      reads this, pipes
    {
      State(permits, pipes[..], calls, pc, log, ticks, now)
    }

    ghost predicate Valid()
      reads this, pipes
    {
      IsRun(run, steps) && run[|steps|] == Abs()
    }

    /** The object has only gone on from where it was. */
    twostate predicate WentOn()
      reads this, pipes
    {
      pipes == old(pipes) && old(run) <= run && old(steps) <= steps
    }

    /** Adds one step, which the code has just taken, to the run. */
    ghost method Record(s: State, step: Step)
      requires IsRun(run, steps) && run[|steps|] == s && Enabled(s, step) && Abs() == Do(s, step)
      modifies this`run, this`steps
      ensures Valid() && run == old(run) + [Abs()] && steps == old(steps) + [step]
    {
      run := run + [Abs()];
      steps := steps + [step];
    }

    /** usb_backend_start: memset the state, then give one permit per slot. */
    constructor (numPipes: nat, started: nat)
      requires numPipes > 0
      ensures Valid() && pipes.Length == numPipes && fresh(pipes) && pc == Pump && ticks == started
    {
      pipes := new Slot[numPipes](_ => IDLE);
      permits := 0;
      calls := map[];
      pc := Pump;
      log := [];
      ticks, now := started, 0;
      new;
      for i := 0 to numPipes
        invariant permits == i && pipes.Length == numPipes && fresh(pipes)
        invariant forall k | 0 <= k < numPipes :: pipes[k] == IDLE
        invariant calls == map[] && pc == Pump && log == [] && now == 0 && ticks == started
      {
        permits := permits + 1;
      }
      run, steps := [Abs()], [];
    }

    // -------------------------------------------------------------------------------------
    // submit_pipe_request, up to each point where it may be overtaken

    /** alloc_pipe_locked, for call r. */
    method AllocPipeLocked(r: CallId) returns (idx: int)
      requires Valid() && r in calls && calls[r].pc.Permitted?
      modifies this, pipes
      ensures Valid() && WentOn() && steps == old(steps) + [Allocate(r)]
      ensures idx == if calls[r].pc.NoSlot? then -1 else calls[r].pc.slot
    {
      ghost var s := Abs();
      var i := 0;
      while i < pipes.Length
        invariant 0 <= i <= pipes.Length && unchanged(this) && unchanged(pipes)
        invariant FirstUnassigned(s.slots, 0) == FirstUnassigned(s.slots, i)
      {
        if !pipes[i].reserved {
          pipes[i] := pipes[i].(reserved := true, active := false);
          calls := calls[r := calls[r].(pc := Allocated(i, 0))];
          log := log + [Event(i, r, Alloc)];
          Record(s, Allocate(r));
          return i;
        }
        i := i + 1;
      }
      calls := calls[r := calls[r].(pc := NoSlot)];
      Record(s, Allocate(r));
      return -1;
    }

    /** Fill the slot's pointers and mark it active. */
    method FillAndActivate(r: CallId, i: nat)
      requires Valid() && i < pipes.Length && r in calls && calls[r].pc == Allocated(i, 0)
      modifies this, pipes
      ensures Valid() && WentOn() && steps == old(steps) + [Fill(r), Fill(r), Fill(r), Start(r)]
      ensures r in calls && calls[r].pc == Waiting(i) && pipes[i].active
    {
      hide IsRun, Do;
      FillStage(r, i, 0);
      FillStage(r, i, 1);
      FillStage(r, i, 2);
      MarkActive(r, i);
    }

    method MarkActive(r: CallId, i: nat)
      requires Valid() && i < pipes.Length && r in calls && calls[r].pc == Allocated(i, 3)
      modifies this, pipes
      ensures Valid() && WentOn() && steps == old(steps) + [Start(r)]
      ensures r in calls && calls[r].pc == Waiting(i) && pipes[i].active
    {
      hide IsRun;
      ghost var s := Abs();
      pipes[i] := pipes[i].(active := true);
      calls := calls[r := calls[r].(pc := Waiting(i))];
      log := log + [Event(i, r, Activate)];
      Record(s, Start(r));
    }

    method FillStage(r: CallId, i: nat, stage: nat)
      requires Valid() && i < pipes.Length && r in calls && calls[r].pc == Allocated(i, stage) && stage < 3
      modifies this, pipes
      ensures Valid() && WentOn() && steps == old(steps) + [Fill(r)]
      ensures r in calls && calls[r].pc == Allocated(i, stage + 1)
    {
      hide IsRun;
      ghost var s := Abs();
      if stage == 0 {
        pipes[i] := pipes[i].(io := r);
      } else if stage == 1 {
        pipes[i] := pipes[i].(report := r);
      } else {
        pipes[i] := pipes[i].(flag := if calls[r].cancellable then r else NULL);
      }
      calls := calls[r := calls[r].(pc := Allocated(i, stage + 1))];
      Record(s, Fill(r));
    }

    /** done_sem has been given: take it. */
    method TakeDone(r: CallId, i: nat)
      requires Valid() && i < pipes.Length && r in calls && calls[r].pc == Waiting(i) && pipes[i].done
      modifies this, pipes
      ensures Valid() && WentOn() && steps == old(steps) + [Collect(r)]
      ensures calls == old(calls)[r := old(calls)[r].(pc := Collected(i))] && permits == old(permits)
    {
      ghost var s := Abs();
      pipes[i] := pipes[i].(done := false);
      calls := calls[r := calls[r].(pc := Collected(i))];
      log := log + [Event(i, r, Taken)];
      Record(s, Collect(r));
    }

    /** Clear `assigned`, under the mutex. */
    method FreeSlot(r: CallId, i: nat)
      requires Valid() && i < pipes.Length && r in calls && calls[r].pc == Collected(i)
      modifies this, pipes
      ensures Valid() && WentOn() && steps == old(steps) + [Unassign(r)]
      ensures calls == old(calls)[r := old(calls)[r].(pc := Unassigned)] && permits == old(permits)
      ensures !pipes[i].reserved
    {
      ghost var s := Abs();
      pipes[i] := pipes[i].(reserved := false);
      calls := calls[r := calls[r].(pc := Unassigned)];
      log := log + [Event(i, r, Released)];
      Record(s, Unassign(r));
    }

    /** Give pipe_avail_sem back and return. */
    method ReturnPermit(r: CallId) returns (status: Status)
      requires Valid() && r in calls && (calls[r].pc.Refused? || calls[r].pc.NoSlot? || calls[r].pc.Unassigned?)
      modifies this
      ensures Valid() && WentOn() && steps == old(steps) + [GivePermit(r)] && permits == old(permits) + 1
      ensures calls == old(calls)[r := old(calls)[r].(pc := Returned(status))]
    {
      ghost var s := Abs();
      permits := permits + 1;
      status := if calls[r].pc.Refused? then Enodev else if calls[r].pc.NoSlot? then Ebusy else calls[r].status;
      calls := calls[r := calls[r].(pc := Returned(status))];
      Record(s, GivePermit(r));
    }

    // -------------------------------------------------------------------------------------
    // Single steps of usb_backend_task

    /** What a single step of the backend at slot i leaves alone. */
    twostate predicate Steady(i: int)
      reads this, pipes
    {
      && pipes == old(pipes)
      && (forall k | 0 <= k < pipes.Length && k != i :: pipes[k] == old(pipes[k]))
      && Steadfast()
    }

    /** The calls and their cancel flags, and the time the backend has read, are as they were. */
    twostate predicate Steadfast()
      reads this
    {
      && calls.Keys == old(calls).Keys
      && (forall q | q in calls :: calls[q].cancel == old(calls)[q].cancel)
      && now == old(now) && ticks >= old(ticks)
    }

    /** The slot is as it was, or its callback has run. */
    static predicate OnlyFired(p: Slot, q: Slot) {
      q == p.(completed := q.completed) && (p.completed ==> q.completed)
    }

    /** usb_host_client_handle_events: the library may fire any callback, and it takes time. */
    method PumpEvents()
      requires Valid() && (pc.Pump? || pc.Flush?)
      modifies this, pipes
      ensures Valid() && WentOn() && pc == old(pc) && calls == old(calls) && now == old(now) && ticks >= old(ticks)
      ensures forall k | 0 <= k < pipes.Length :: OnlyFired(old(pipes[k]), pipes[k])
    {
      for i := 0 to pipes.Length
        invariant Valid() && WentOn() && pc == old(pc) && calls == old(calls) && now == old(now) && ticks >= old(ticks)
        invariant forall k | 0 <= k < pipes.Length :: OnlyFired(old(pipes[k]), pipes[k])
      {
        Pass();
        var fires: bool := *;
        if fires {
          ghost var s := Abs();
          pipes[i] := pipes[i].(completed := true);
          Record(s, Callback(i));
        }
      }
    }

    /** A read or write through in_len_out, out_data or in_data, if the caller gave one. */
    method TouchBuffers(i: nat, c: Choice, ghost next: Pc)
      requires Valid() && i < pipes.Length && Possible(c)
      requires
        || (pc == Prepare(i) && next == Load(i))
        || (pc == Load(i) && next == Handoff(i))
        || (pc == Finish(i) && next == Override(i, if pipes[i].completed then c.hardware else Etimedout))
      modifies this
      ensures Valid() && WentOn() && Steady(i) && pc == next && pipes[i] == old(pipes[i])
    {
      ghost var s := Abs();
      if pipes[i].io != NULL { log := log + [Event(i, pipes[i].io, Touch)]; }
      pc := next;
      Record(s, Advance(c));
    }

    /** The end of prepare_and_submit_transfer. */
    method HandOff(i: nat, c: Choice)
      requires Valid() && i < pipes.Length && pc == Handoff(i) && Possible(c)
      modifies this, pipes
      ensures Valid() && WentOn() && Steady(i)
      ensures pc == if c.failed then ClearActive(i, c.failure, false) else SubmitHead(i + 1)
      ensures pipes[i].active == old(pipes[i]).active
      ensures pipes[i].submitted == (!c.failed || old(pipes[i]).submitted)
    {
      ghost var s := Abs();
      if c.failed {
        pc := ClearActive(i, c.failure, false);
      } else {
        pipes[i] := Submit(pipes[i], ticks);
        log := log + [Event(i, pipes[i].report, Submitted)];
        pc := SubmitHead(i + 1);
      }
      Record(s, Advance(c));
    }

    predicate Raised(i: nat)
      reads this, pipes
      requires i < pipes.Length
    {
      pipes[i].flag in calls && calls[pipes[i].flag].cancel
    }

    /** The slot's cancel flag is down, and its deadline was not there yet when the clock was read. */
    predicate InTime(i: nat)
      reads this, pipes
      requires i < pipes.Length
    {
      !Raised(i) && !Late(now, pipes[i].deadline)
    }

    /** Detect an external cancel request. */
    method PollCancel(i: nat, c: Choice)
      requires Valid() && i < pipes.Length && pc == Poll(i) && Possible(c)
      modifies this, pipes
      ensures Valid() && WentOn() && Steady(i) && pc == Clock(i)
      ensures Raised(i) ==> pipes[i].aborted
      ensures pipes[i] == old(pipes[i]).(aborted := pipes[i].aborted)
    {
      hide IsRun, Do;
      PollIs(Abs(), c, i);
      ghost var s := Abs();
      pc := Clock(i);
      if pipes[i].aborted || pipes[i].flag == NULL {
        Record(s, Advance(c));
      } else {
        var raised := Raised(i);
        log := log + [Event(i, pipes[i].flag, Polled(raised))];
        pipes[i] := pipes[i].(aborted := raised);
        Record(s, Advance(c));
      }
    }

    /** Detect a software timeout. */
    method CheckDeadline(i: nat, c: Choice)
      requires Valid() && i < pipes.Length && pc == Clock(i) && Possible(c)
      modifies this, pipes
      ensures Valid() && WentOn() && Steady(i) && pc == Flush(i)
      ensures pipes[i] == old(pipes[i]).(aborted := old(pipes[i]).aborted || Late(now, pipes[i].deadline))
    {
      hide IsRun, Do, Late;
      ClockIs(Abs(), c, i);
      ghost var s := Abs();
      if !pipes[i].aborted && Late(now, pipes[i].deadline) { pipes[i] := pipes[i].(aborted := true); }
      pc := Flush(i);
      Record(s, Advance(c));
    }

    /** A forced abort overrides the hardware's status. */
    method OverrideStatus(i: nat, st: Status, c: Choice) returns (status: Status)
      requires Valid() && i < pipes.Length && pc == Override(i, st) && Possible(c)
      modifies this
      ensures Valid() && WentOn() && Steady(i) && pc == ClearActive(i, status, true) && pipes[i] == old(pipes[i])
    {
      ghost var s := Abs();
      status := st;
      if pipes[i].aborted {
        if pipes[i].flag != NULL { log := log + [Event(i, pipes[i].flag, Touch)]; }
        status := if Raised(i) then Econnreset else Etimedout;
      }
      pc := ClearActive(i, status, true);
      Record(s, Advance(c));
    }

    method Deactivate(i: nat, st: Status, c: Choice, scanning: bool)
      requires Valid() && i < pipes.Length && pc == ClearActive(i, st, scanning) && Possible(c)
      modifies this, pipes
      ensures Valid() && WentOn() && Steady(i)
      ensures pc == if scanning then ClearSubmitted(i, st) else Report(i, st, false)
      ensures pipes[i] == old(pipes[i]).(active := false)
    {
      ghost var s := Abs();
      pipes[i] := pipes[i].(active := false);
      pc := if scanning then ClearSubmitted(i, st) else Report(i, st, false);
      Record(s, Advance(c));
    }

    method Unsubmit(i: nat, st: Status, c: Choice)
      requires Valid() && i < pipes.Length && pc == ClearSubmitted(i, st) && Possible(c)
      modifies this, pipes
      ensures Valid() && WentOn() && Steady(i) && pc == Report(i, st, true)
      ensures pipes[i] == old(pipes[i]).(submitted := false)
    {
      ghost var s := Abs();
      pipes[i] := pipes[i].(submitted := false);
      pc := Report(i, st, true);
      Record(s, Advance(c));
    }

    /** `if (status_out != NULL) *status_out = st`. */
    method StoreStatus(i: nat, st: Status, c: Choice, ghost scanning: bool)
      requires Valid() && i < pipes.Length && pc == Report(i, st, scanning) && Possible(c)
      modifies this
      ensures Valid() && WentOn() && Steady(i) && pc == Signal(i, scanning) && pipes[i] == old(pipes[i])
    {
      ghost var s := Abs();
      var r := pipes[i].report;
      if r != NULL {
        if r in calls { calls := calls[r := calls[r].(status := st)]; }
        log := log + [Event(i, r, Reported(st))];
      }
      pc := Signal(i, scanning);
      Record(s, Advance(c));
    }

    /** `xSemaphoreGive(done_sem)`, and on to the next slot. */
    method GiveDone(i: nat, c: Choice, ghost scanning: bool)
      requires Valid() && i < pipes.Length && pc == Signal(i, scanning) && Possible(c)
      modifies this, pipes
      ensures Valid() && WentOn() && Steady(i)
      ensures pc == if scanning then ScanHead(i + 1) else SubmitHead(i + 1)
      ensures pipes[i] == old(pipes[i]).(done := true)
    {
      ghost var s := Abs();
      pipes[i] := pipes[i].(done := true);
      log := log + [Event(i, pipes[i].report, Signalled)];
      pc := if scanning then ScanHead(i + 1) else SubmitHead(i + 1);
      Record(s, Advance(c));
    }

    /** The backend goes on to the next slot or the next phase. */
    method Turn(ghost next: Pc, c: Choice)
      requires Valid() && Possible(c) && Engaged(pc) == NULL && !pc.Pump? && next == Backend(Abs(), c).pc
      modifies this`pc, this`run, this`steps
      ensures Valid() && WentOn() && pc == next
    {
      ghost var s := Abs();
      pc := next;
      Record(s, Advance(c));
    }

    /** `const TickType_t now = xTaskGetTickCount()`, at the start of a round. */
    method ReadClock()
      requires Valid() && pc == Pump
      modifies this`pc, this`now, this`run, this`steps
      ensures Valid() && WentOn() && pc == SubmitHead(0) && now == ticks
    {
      ghost var s := Abs();
      now := ticks;
      pc := SubmitHead(0);
      Record(s, Advance(SKIP));
    }

    /** Time goes by. */
    method Pass()
      requires Valid()
      modifies this`ticks, this`run, this`steps
      ensures Valid() && WentOn() && ticks >= old(ticks)
    {
      ghost var s := Abs();
      var more: int :| more >= 0;
      ticks := ticks + more;
      Record(s, Elapse(more));
    }

    // -------------------------------------------------------------------------------------
    // The loops

    /** Store the status and give the token. */
    method Answer(i: nat, st: Status, c: Choice, ghost scanning: bool)
      requires Valid() && i < pipes.Length && pc == Report(i, st, scanning) && Possible(c)
      modifies this, pipes
      ensures Valid() && WentOn() && Steady(i) && pc == if scanning then ScanHead(i + 1) else SubmitHead(i + 1)
      ensures pipes[i] == old(pipes[i]).(done := true)
    {
      hide Valid, Backend, Do;
      StoreStatus(i, st, c, scanning);
      GiveDone(i, c, scanning);
    }

    /** prepare_and_submit_transfer for slot i. */
    method PrepareAndSubmitTransfer(i: nat, c: Choice)
      requires Valid() && i < pipes.Length && pc == Prepare(i) && Possible(c)
      modifies this, pipes
      ensures Valid() && WentOn() && Steady(i)
      ensures pc == if c.failed then ClearActive(i, c.failure, false) else SubmitHead(i + 1)
      ensures pipes[i].active == old(pipes[i]).active
      ensures pipes[i].submitted == (!c.failed || old(pipes[i]).submitted)
    {
      hide Valid, Backend, Do;
      TouchBuffers(i, c, Load(i));
      TouchBuffers(i, c, Handoff(i));
      HandOff(i, c);
    }

    /** The transfer is submitted, or fails at once and is answered. */
    method SubmitSlot(i: nat)
      requires Valid() && i < pipes.Length && pc == Prepare(i) && pipes[i].active && !pipes[i].submitted
      modifies this, pipes
      ensures Valid() && WentOn() && Steady(i) && pc == SubmitHead(i + 1)
      ensures pipes[i].active == pipes[i].submitted
    {
      hide Valid, Backend, Do;
      var c := Outside();
      PrepareAndSubmitTransfer(i, c);
      if c.failed {
        Deactivate(i, c.failure, c, false);
        Answer(i, c.failure, c, false);
      }
    }

    /** One slot of phase 1. */
    method SubmitTurn(i: nat)
      requires Valid() && i < pipes.Length && pc == SubmitHead(i) && (pipes[i].submitted ==> pipes[i].active)
      modifies this, pipes
      ensures Valid() && WentOn() && Steady(i) && pc == SubmitHead(i + 1)
      ensures pipes[i].active == pipes[i].submitted
    {
      hide IsRun, Do, Enabled;
      if !pipes[i].active || pipes[i].submitted {
        Turn(SubmitHead(i + 1), SKIP);
      } else {
        Pass();
        Turn(Prepare(i), SKIP);
        SubmitSlot(i);
      }
    }

    /** Phase 1: every newly active slot is handed over or answered. */
    method SubmitScan()
      requires Valid() && pc == SubmitHead(0)
      requires forall k | 0 <= k < pipes.Length :: pipes[k].submitted ==> pipes[k].active
      modifies this, pipes
      ensures Valid() && WentOn() && pc == ScanHead(0)
      ensures Steadfast()
      ensures forall k | 0 <= k < pipes.Length :: pipes[k].active == pipes[k].submitted
      ensures Answered(old(pipes[..]), old(|log|))
    {
      ghost var from := |steps|;
      SubmitSlots();
      AllAnswered(from);
    }

    method SubmitSlots()
      requires Valid() && pc == SubmitHead(0)
      requires forall k | 0 <= k < pipes.Length :: pipes[k].submitted ==> pipes[k].active
      modifies this, pipes
      ensures Valid() && WentOn() && pc == ScanHead(0)
      ensures Steadfast()
      ensures forall k | 0 <= k < pipes.Length :: pipes[k].active == pipes[k].submitted
    {
      hide IsRun, Do, Enabled;
      var i := 0;
      while i < pipes.Length
        invariant Valid() && WentOn() && i <= pipes.Length && pc == SubmitHead(i)
        invariant Steadfast()
        invariant forall k | 0 <= k < pipes.Length :: pipes[k].submitted ==> pipes[k].active
        invariant forall k | 0 <= k < i :: pipes[k].active == pipes[k].submitted
        decreases pipes.Length - i
      {
        SubmitTurn(i);
        i := i + 1;
      }
      Turn(ScanHead(0), SKIP);
    }

    /** Cancellation, timeout and completion of the transfer in flight at slot i. */
    method ScanSlot(i: nat)
      requires Valid() && i < pipes.Length && pc == Poll(i) && pipes[i].submitted && pipes[i].active
      modifies this, pipes
      ensures Valid() && WentOn() && pc == ScanHead(i + 1)
      ensures Steadfast()
      ensures forall k | 0 <= k < pipes.Length && k != i :: OnlyFired(old(pipes[k]), pipes[k])
      ensures pipes[i].submitted == pipes[i].active && (pipes[i].submitted ==> InTime(i))
      ensures old(pipes[i].submitted && pipes[i].completed) ==> !pipes[i].submitted
    {
      hide Valid, Backend, Do;
      var c := Outside();
      Detect(i, c);
      Settle(i, c);
    }

    /** Is it cancelled or out of time?  Then flush the endpoint, which may bring its callback. */
    method Detect(i: nat, c: Choice)
      requires Valid() && i < pipes.Length && pc == Poll(i) && Possible(c)
      modifies this, pipes
      ensures Valid() && WentOn() && pc == Flush(i) && Steadfast()
      ensures forall k | 0 <= k < pipes.Length && k != i :: OnlyFired(old(pipes[k]), pipes[k])
      ensures pipes[i] == old(pipes[i]).(completed := pipes[i].completed, aborted := pipes[i].aborted)
      ensures old(pipes[i]).completed ==> pipes[i].completed
      ensures !InTime(i) ==> pipes[i].aborted
    {
      hide Valid, Backend, Do, Late;
      PollCancel(i, c);
      CheckDeadline(i, c);
      PumpEvents();
    }

    /** Over, with or without a completion, or still in flight. */
    method Settle(i: nat, c: Choice)
      requires Valid() && i < pipes.Length && pc == Flush(i) && Possible(c)
      modifies this, pipes
      ensures Valid() && WentOn() && Steady(i) && pc == ScanHead(i + 1)
      ensures if old(pipes[i].completed || pipes[i].aborted) then !pipes[i].active && !pipes[i].submitted
              else pipes[i] == old(pipes[i])
    {
      hide Valid, Backend, Do;
      var over := Leave(i, c);
      if over { FinishSlot(i, c); }
    }

    /** The end of the polling part: finalise, or leave the slot in flight. */
    method Leave(i: nat, c: Choice) returns (over: bool)
      requires Valid() && i < pipes.Length && pc == Flush(i) && Possible(c)
      modifies this
      ensures Valid() && WentOn() && Steady(i) && pipes[i] == old(pipes[i])
      ensures over == (pipes[i].completed || pipes[i].aborted)
      ensures pc == if over then Finish(i) else ScanHead(i + 1)
    {
      ghost var s := Abs();
      pc := Decide(i);
      Record(s, Advance(c));
      s := Abs();
      over := pipes[i].completed || pipes[i].aborted;
      pc := if over then Finish(i) else ScanHead(i + 1);
      Record(s, Advance(c));
    }

    /** complete_transfer, the forced status, and the answer. */
    method FinishSlot(i: nat, c: Choice)
      requires Valid() && i < pipes.Length && pc == Finish(i) && Possible(c)
      modifies this, pipes
      ensures Valid() && WentOn() && Steady(i) && pc == ScanHead(i + 1)
      ensures !pipes[i].active && !pipes[i].submitted
    {
      hide Valid, Backend, Do;
      var st := CompleteTransfer(i, c);
      Conclude(i, st, c);
    }

    method CompleteTransfer(i: nat, c: Choice) returns (st: Status)
      requires Valid() && i < pipes.Length && pc == Finish(i) && Possible(c)
      modifies this, pipes
      ensures Valid() && WentOn() && Steady(i) && pc == ClearActive(i, st, true)
    {
      hide Valid, Backend, Do;
      st := if pipes[i].completed then c.hardware else Etimedout;
      TouchBuffers(i, c, Override(i, st));
      st := OverrideStatus(i, st, c);
    }

    method Conclude(i: nat, st: Status, c: Choice)
      requires Valid() && i < pipes.Length && pc == ClearActive(i, st, true) && Possible(c)
      modifies this, pipes
      ensures Valid() && WentOn() && Steady(i) && pc == ScanHead(i + 1)
      ensures !pipes[i].active && !pipes[i].submitted
    {
      hide Valid, Backend, Do;
      Deactivate(i, st, c, true);
      Unsubmit(i, st, c);
      Answer(i, st, c, true);
    }

    /** One slot of phase 2. */
    method ScanTurn(i: nat)
      requires Valid() && i < pipes.Length && pc == ScanHead(i) && pipes[i].submitted == pipes[i].active
      modifies this, pipes
      ensures Valid() && WentOn() && pc == ScanHead(i + 1)
      ensures Steadfast()
      ensures forall k | 0 <= k < pipes.Length && k != i :: OnlyFired(old(pipes[k]), pipes[k])
      ensures pipes[i].submitted == pipes[i].active && (pipes[i].submitted ==> InTime(i))
      ensures old(pipes[i].submitted && pipes[i].completed) ==> !pipes[i].submitted
    {
      hide IsRun, Do, Enabled;
      if !pipes[i].submitted {
        Turn(ScanHead(i + 1), SKIP);
      } else {
        Turn(Poll(i), SKIP);
        ScanSlot(i);
      }
    }

    /** Phase 2: afterwards nothing in flight has its cancel flag up or its deadline behind it or its
        callback run before, and whoever is not in flight any more has been answered. */
    method CompletionScan()
      requires Valid() && pc == ScanHead(0)
      requires forall k | 0 <= k < pipes.Length :: pipes[k].active == pipes[k].submitted
      modifies this, pipes
      ensures Valid() && WentOn() && pc == Pump
      ensures Steadfast()
      ensures forall k | 0 <= k < pipes.Length ::
        pipes[k].active == pipes[k].submitted && (pipes[k].submitted ==> InTime(k))
      ensures forall k | 0 <= k < pipes.Length :: old(pipes[k].submitted && pipes[k].completed) ==> !pipes[k].submitted
      ensures Answered(old(pipes[..]), old(|log|))
    {
      ghost var from := |steps|;
      ScanSlots();
      AllAnswered(from);
    }

    method ScanSlots()
      requires Valid() && pc == ScanHead(0)
      requires forall k | 0 <= k < pipes.Length :: pipes[k].active == pipes[k].submitted
      modifies this, pipes
      ensures Valid() && WentOn() && pc == Pump
      ensures Steadfast()
      ensures forall k | 0 <= k < pipes.Length ::
        pipes[k].active == pipes[k].submitted && (pipes[k].submitted ==> InTime(k))
      ensures forall k | 0 <= k < pipes.Length :: old(pipes[k].submitted && pipes[k].completed) ==> !pipes[k].submitted
    {
      hide IsRun;
      var i := 0;
      while i < pipes.Length
        invariant Valid() && WentOn() && i <= pipes.Length && pc == ScanHead(i)
        invariant Steadfast()
        invariant forall k | 0 <= k < pipes.Length :: pipes[k].active == pipes[k].submitted
        invariant forall k | 0 <= k < i :: pipes[k].submitted ==> InTime(k)
        invariant forall k | i <= k < pipes.Length :: OnlyFired(old(pipes[k]), pipes[k])
        invariant forall k | 0 <= k < i :: old(pipes[k].submitted && pipes[k].completed) ==> !pipes[k].submitted
        decreases pipes.Length - i
      {
        ScanTurn(i);
        i := i + 1;
      }
      Turn(Pump, SKIP);
    }

    /** One round of usb_backend_task that no caller overtakes: afterwards every activated
        request has been answered or is in flight, and none in flight has its flag up or a deadline
        that had come when the round read the clock. */
    method Round()
      requires Valid() && pc == Pump
      modifies this, pipes
      ensures Valid() && WentOn() && pc == Pump && old(ticks) <= now <= ticks
      ensures forall k | 0 <= k < pipes.Length ::
        pipes[k].active == pipes[k].submitted && (pipes[k].submitted ==> InTime(k))
      ensures Answered(old(pipes[..]), old(|log|))
    {
      ghost var from := |steps|;
      PumpEvents();
      ReadClock();
      InFlightIsActive();
      SubmitScan();
      CompletionScan();
      AllAnswered(from);
    }

    /** Each slot that was active then and is not any more has had its call answered since, with
        a status that the run explains. */
    ghost predicate Answered(was: seq<Slot>, from: nat)
      reads this, pipes
    {
      |was| == pipes.Length && |run| == |steps| + 1 &&
      forall k | 0 <= k < pipes.Length && was[k].active && !pipes[k].active ::
        AnsweredSince(run, steps, |steps|, from, k, was[k].report)
    }

    lemma AllAnswered(m: nat)
      requires Valid() && m < |run| && Engaged(run[m].pc) == NULL == Engaged(pc)
      ensures |run| == |steps| + 1 && Answered(run[m].slots, |run[m].log|)
    {
      hide AnsweredSince;
      LogGrows(run, steps, m, |steps|);
      forall k | 0 <= k < pipes.Length && run[m].slots[k].active && !pipes[k].active
        ensures AnsweredSince(run, steps, |steps|, |run[m].log|, k, run[m].slots[k].report)
      {
        AnsweredInBetween(run, steps, m, |steps|, k);
      }
    }

    /** Between slots, whatever is submitted is active: the pool's invariant, met by this object. */
    lemma InFlightIsActive()
      requires Valid() && Engaged(pc) == NULL
      ensures forall k | 0 <= k < pipes.Length :: pipes[k].submitted ==> pipes[k].active
    {
      RunInv(run, steps, |steps|);
      forall k | 0 <= k < pipes.Length ensures pipes[k].submitted ==> pipes[k].active {
        assert SlotInv(run[|steps|], k, Replay(log, BySlot(k)));
      }
    }
  }

  /** An answer that no step looks at. */
  const SKIP := Choice(false, Eio, Eio)
}
