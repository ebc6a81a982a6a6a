/** Which transfers the completion scan times out, over every run and on a tick counter that wraps
    around. */
module PipePoolDeadlines {
  import opened PipePool

  /** The backend is in phase 2, or has been. */
  predicate Scanning(pc: Pc) {
    || pc.ScanHead? || pc.Poll? || pc.Clock? || pc.Flush? || pc.Decide? || pc.Finish? || pc.Override?
    || pc.ClearSubmitted? || ((pc.ClearActive? || pc.Report? || pc.Signal?) && pc.scanning)
  }

  /** The scan has left slot k behind. */
  predicate ScannedPast(pc: Pc, k: nat) {
    pc.Pump? || (Scanning(pc) && k < pc.i)
  }

  /** The scan is at slot k and has looked at the clock. */
  predicate ClockRead(pc: Pc, k: nat) {
    (pc.Flush? || pc.Decide?) && pc.i == k
  }

  predicate DeadlineInv(s: State, k: nat)
    requires k < |s.slots|
  {
    var p := s.slots[k];
    && (p.submitted ==> p.deadline <= s.ticks + TIMEOUT)
    && (ScannedPast(s.pc, k) && p.submitted ==> !Late(s.now, p.deadline))
    && (ClockRead(s.pc, k) && !p.aborted ==> !Late(s.now, p.deadline))
    && ((s.pc.Report? || s.pc.Signal?) && s.pc.scanning && s.pc.i == k ==> !p.submitted)
  }

  ghost predicate TimeInv(s: State) {
    s.now <= s.ticks && forall k | 0 <= k < |s.slots| :: DeadlineInv(s, k)
  }

  /** Callers, callbacks and the clock leave the transfers in flight and their deadlines alone. */
  lemma OthersKeepTime(s: State, step: Step)
    requires TimeInv(s) && Enabled(s, step) && !step.Advance?
    ensures TimeInv(Do(s, step))
  {
    var t := Do(s, step);
    assert t.pc == s.pc && t.now == s.now && t.ticks >= s.ticks && |t.slots| == |s.slots|;
    forall k | 0 <= k < |t.slots| ensures DeadlineInv(t, k) {
      assert DeadlineInv(s, k);
      assert t.slots[k].submitted == s.slots[k].submitted && t.slots[k].deadline == s.slots[k].deadline
        && t.slots[k].aborted == s.slots[k].aborted;
    }
  }

  /** What a step of the backend keeps at slot k. */
  predicate TimeKept(s: State, c: Choice, k: nat)
    requires Enabled(s, Advance(c)) && k < |s.slots|
  {
    var t := Backend(s, c);
    |t.slots| == |s.slots| && t.now <= t.ticks && DeadlineInv(t, k)
  }

  lemma SubmittingKeepsTime(s: State, c: Choice, k: nat)
    requires Enabled(s, Advance(c)) && k < |s.slots| && s.now <= s.ticks && DeadlineInv(s, k)
    requires s.pc.Pump? || s.pc.SubmitHead? || s.pc.Prepare? || s.pc.Load? || s.pc.Handoff?
    ensures TimeKept(s, c, k)
  {
    hide Late;
  }

  lemma FailingKeepsTime(s: State, c: Choice, k: nat)
    requires Enabled(s, Advance(c)) && k < |s.slots| && s.now <= s.ticks && DeadlineInv(s, k)
    requires (s.pc.ClearActive? || s.pc.Report? || s.pc.Signal?) && !s.pc.scanning
    ensures TimeKept(s, c, k)
  {
    hide Late;
  }

  lemma PollingKeepsTime(s: State, c: Choice, k: nat)
    requires Enabled(s, Advance(c)) && k < |s.slots| && s.now <= s.ticks && DeadlineInv(s, k)
    requires s.pc.ScanHead? || s.pc.Poll? || s.pc.Clock? || s.pc.Flush? || s.pc.Decide?
    ensures TimeKept(s, c, k)
  {
    hide Late;
  }

  lemma FinishingKeepsTime(s: State, c: Choice, k: nat)
    requires Enabled(s, Advance(c)) && k < |s.slots| && s.now <= s.ticks && DeadlineInv(s, k)
    requires Scanning(s.pc) && !(s.pc.ScanHead? || s.pc.Poll? || s.pc.Clock? || s.pc.Flush? || s.pc.Decide?)
    ensures TimeKept(s, c, k)
  {
    hide Late;
  }

  lemma BackendKeepsTime(s: State, c: Choice, k: nat)
    requires Enabled(s, Advance(c)) && k < |s.slots| && s.now <= s.ticks && DeadlineInv(s, k)
    ensures TimeKept(s, c, k)
  {
    hide Backend, DeadlineInv;
    if s.pc.Pump? || s.pc.SubmitHead? || s.pc.Prepare? || s.pc.Load? || s.pc.Handoff? {
      SubmittingKeepsTime(s, c, k);
    } else if !Scanning(s.pc) {
      FailingKeepsTime(s, c, k);
    } else if s.pc.ScanHead? || s.pc.Poll? || s.pc.Clock? || s.pc.Flush? || s.pc.Decide? {
      PollingKeepsTime(s, c, k);
    } else {
      FinishingKeepsTime(s, c, k);
    }
  }

  lemma StepTime(s: State, step: Step)
    requires TimeInv(s) && Enabled(s, step)
    ensures TimeInv(Do(s, step))
  {
    hide Backend, DeadlineInv;
    if step.Advance? {
      var t := Backend(s, step.c);
      BackendSize(s, step.c);
      forall k | 0 <= k < |t.slots| ensures DeadlineInv(t, k) { BackendKeepsTime(s, step.c, k); }
    } else {
      OthersKeepTime(s, step);
    }
  }

  lemma BackendSize(s: State, c: Choice)
    requires Enabled(s, Advance(c))
    ensures |Backend(s, c).slots| == |s.slots|
    ensures s.now <= s.ticks ==> Backend(s, c).now <= Backend(s, c).ticks
  {
    hide Late, CancelSet, Submit;
  }

  lemma {:induction false} RunTime(run: seq<State>, steps: seq<Step>, n: nat)
    requires IsRun(run, steps) && n < |run|
    ensures TimeInv(run[n])
  {
    hide Do, TimeInv;
    if n == 0 {
      StartTime(run[0]);
    } else {
      RunTime(run, steps, n - 1);
      StepTime(run[n - 1], steps[n - 1]);
    }
  }

  lemma StartTime(s: State)
    requires Init(s)
    ensures TimeInv(s)
  {}

  /** As long as now and a deadline are less than one turn of the counter apart, the comparison says
      whether the deadline has passed if and only if the counter has not wrapped in between. */
  lemma LateExactly(now: nat, deadline: nat)
    requires now < deadline + WRAP && deadline < now + WRAP
    ensures (Late(now, deadline) <==> now >= deadline) <==> now / WRAP == deadline / WRAP
  {}

  /** Nothing in flight between two rounds had a deadline that had passed when the round began, and
      each was handed over less than TIMEOUT before that, or since; the counter has wrapped between
      the round and the deadline otherwise. */
  lemma NoneOverdue(run: seq<State>, steps: seq<Step>, n: nat, k: nat)
    requires IsRun(run, steps) && n < |run| && run[n].pc.Pump?
    requires k < |run[n].slots| && run[n].slots[k].submitted
    ensures !Late(run[n].now, run[n].slots[k].deadline)
    ensures run[n].now < run[n].slots[k].deadline <==> run[n].now / WRAP <= run[n].slots[k].deadline / WRAP
  {
    RunTime(run, steps, n);
    assert DeadlineInv(run[n], k);
  }

  // ---------------------------------------------------------------------------------------
  // The other mistake happens too

  ghost predicate Reachable(s: State) {
    exists run: seq<State>, steps: seq<Step> :: IsRun(run, steps) && s == run[|steps|]
  }

  lemma Go(s: State, step: Step) returns (t: State)
    requires Reachable(s) && Enabled(s, step)
    ensures Reachable(t) && t == Do(s, step)
  {
    hide Do, Enabled;
    var run: seq<State>, steps: seq<Step> :| IsRun(run, steps) && s == run[|steps|];
    t := Do(s, step);
    var run', steps' := run + [t], steps + [step];
    assert IsRun(run', steps') && t == run'[|steps'|];
  }

  const CHOICE := Choice(false, Eio, Success)

  /** A pool of one slot, which call 0 has been given, with the tick counter at its last value. */
  lemma Given() returns (s: State)
    ensures Reachable(s) && s.pc == Pump && s.ticks == WRAP - 1 && s.slots == [IDLE.(reserved := true)]
    ensures s.calls == map[0 := Call(Allocated(0, 0), Eio, false, false)]
  {
    s := State(1, [IDLE], map[], Pump, [], 0, 0);
    var none: seq<Step> := [];
    assert Reachable(s) by { assert IsRun([s], none) && s == [s][|none|]; }
    hide Reachable;
    s := Go(s, Elapse(WRAP - 1));
    s := Go(s, Enter(0, false));
    s := Go(s, TakePermit(0));
    assert s.slots == [IDLE] && s.calls[0] == Call(Permitted, Eio, false, false);
    s := Go(s, Allocate(0));
  }

  /** And now the slot is active. */
  lemma Activated() returns (s: State)
    ensures Reachable(s) && s.pc == Pump && s.ticks == WRAP - 1
    ensures |s.slots| == 1 && s.slots[0] == IDLE.(reserved := true, active := true, io := 0, report := 0)
  {
    hide Reachable;
    s := Given();
    s := Go(s, Fill(0));
    assert s.calls[0].pc == Allocated(0, 1) && s.slots == [IDLE.(reserved := true, io := 0)];
    s := Go(s, Fill(0));
    assert s.calls[0].pc == Allocated(0, 2) && s.slots == [IDLE.(reserved := true, io := 0, report := 0)];
    s := Go(s, Fill(0));
    s := Go(s, Start(0));
  }

  /** And the transfer has been handed over. */
  lemma HandedOver() returns (s: State)
    ensures Reachable(s) && s.pc == SubmitHead(1) && s.ticks == s.now == WRAP - 1 && |s.slots| == 1
    ensures s.slots[0].submitted && s.slots[0].flag == NULL && s.slots[0].deadline == s.now + TIMEOUT
  {
    hide Reachable;
    s := Activated();
    s := Go(s, Advance(CHOICE));
    s := Go(s, Advance(CHOICE));
    assert s.pc == Prepare(0);
    s := Go(s, Advance(CHOICE));
    s := Go(s, Advance(CHOICE));
    assert s.pc == Handoff(0) && s.slots[0].active && s.now == s.ticks == WRAP - 1;
    s := Go(s, Advance(CHOICE));
  }

  /** A transfer handed over just before the counter wraps is timed out by the next scan, with its
      whole time still to go. */
  lemma WrapTimesOutAtOnce() returns (s: State)
    ensures Reachable(s) && s.pc == Flush(0) && |s.slots| == 1
    ensures s.slots[0].submitted && s.slots[0].aborted && s.slots[0].flag == NULL
    ensures s.ticks == s.now && s.now + TIMEOUT == s.slots[0].deadline
  {
    hide Reachable;
    s := HandedOver();
    s := Go(s, Advance(CHOICE));
    s := Go(s, Advance(CHOICE));
    s := Go(s, Advance(CHOICE));
    assert s.pc == Clock(0);
    s := Go(s, Advance(CHOICE));
  }
}
