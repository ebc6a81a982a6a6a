/** Which status a call gets, over every run: the failure of its hand-over, or what the scan that
    found its transfer over made of it. */
module PipePoolStatus {
  import opened PipePool
  import opened PipePoolSafety
  import opened PipePoolPromises

  /** Step k is the backend's, at that place. */
  ghost predicate At(run: seq<State>, steps: seq<Step>, k: int, pc: Pc) {
    0 <= k < |steps| && k < |run| && steps[k].Advance? && run[k].pc == pc
  }

  /** The backend's last step before step k, or -1. */
  function Before(steps: seq<Step>, k: int): (b: int)
    requires k <= |steps|
    ensures -1 <= b && (k >= 0 ==> b < k) && (b >= 0 ==> b < |steps| && steps[b].Advance?)
    ensures forall m | b < m < k :: 0 <= m ==> !steps[m].Advance?
  {
    if k <= 0 then -1 else if steps[k - 1].Advance? then k - 1 else Before(steps, k - 1)
  }

  /** The m-th last one. */
  function Back(steps: seq<Step>, k: int, m: nat): (b: int)
    requires k <= |steps|
    ensures b <= |steps|
    decreases m
  {
    if m == 0 then k else Back(steps, Before(steps, k), m - 1)
  }

  /** Call r has raised its cancel flag, if it has one. */
  predicate Asked(s: State, r: int) {
    r in s.calls && s.calls[r].cancellable && s.calls[r].cancel
  }

  ghost predicate FiredBetween(steps: seq<Step>, t: int, k: int, i: nat) {
    exists m :: 0 <= t < m < k && m < |steps| && steps[m] == Callback(i)
  }

  // ---------------------------------------------------------------------------------------
  // Between two steps of the backend

  /** The backend's place, and what no other step changes of the slot it is at. */
  predicate SameView(s: State, t: State, i: nat) {
    && s.pc == t.pc && s.now == t.now && i < |s.slots| == |t.slots|
    && t.slots[i] == s.slots[i].(completed := t.slots[i].completed)
    && (s.slots[i].completed ==> t.slots[i].completed)
  }

  lemma OthersWait(s: State, step: Step, i: nat)
    requires Inv(s) && Enabled(s, step) && !step.Advance? && Engaged(s.pc) == i
    ensures SameView(s, Do(s, step), i)
  {
    hide Replay, Inv;
    Served(s, i);
    if step.Fill? || step.Start? || step.Collect? || step.Unassign? || step.Allocate? { HoldersWait(s, step, i); }
  }

  lemma HoldersWait(s: State, step: Step, i: nat)
    requires Inv(s) && Enabled(s, step) && Engaged(s.pc) == i
    requires step.Fill? || step.Start? || step.Collect? || step.Unassign? || step.Allocate?
    ensures SameView(s, Do(s, step), i)
  {
    hide Replay, FirstUnassigned, CancelSet, Backend;
    assert SlotInv(s, i, Replay(s.log, BySlot(i)));
    assert CallInv(s, step.r);
  }

  /** At slot i, its last step's result is what the backend finds. */
  lemma {:induction false} Resumes(run: seq<State>, steps: seq<Step>, n: nat, i: nat)
    requires IsRun(run, steps) && n < |run| && Engaged(run[n].pc) == i
    ensures var b := Before(steps, n); 0 <= b < n && SameView(run[b + 1], run[n], i)
  {
    hide Do, Inv;
    RunInv(run, steps, n);
    Served(run[n], i);
    if n > 0 && !steps[n - 1].Advance? {
      RunInv(run, steps, n - 1);
      KeepsPlace(run[n - 1], steps[n - 1]);
      Resumes(run, steps, n - 1, i);
      OthersWait(run[n - 1], steps[n - 1], i);
    }
  }

  lemma Served(s: State, i: nat)
    requires Inv(s) && Engaged(s.pc) == i
    ensures i < |s.slots|
  {}

  lemma KeepsPlace(s: State, step: Step)
    requires Enabled(s, step) && !step.Advance?
    ensures Do(s, step).pc == s.pc && Do(s, step).now == s.now
  {}

  /** Where the backend has come from, when it reports. */
  lemma Backwards(s: State, c: Choice, i: nat)
    requires Enabled(s, Advance(c)) && Engaged(Backend(s, c).pc) == i
    ensures
      var t := Backend(s, c);
      && (t.pc.Report? ==>
            s.pc == if t.pc.scanning then ClearSubmitted(i, t.pc.st) else ClearActive(i, t.pc.st, false))
      && (t.pc.ClearSubmitted? ==> s.pc == ClearActive(i, t.pc.st, true))
      && (t.pc.ClearActive? ==> if t.pc.scanning then s.pc.Override? && s.pc.i == i else s.pc == Handoff(i))
      && (t.pc.Override? ==> s.pc == Finish(i))
      && (t.pc.Finish? ==> s.pc == Decide(i))
      && (t.pc.Decide? ==> s.pc == Flush(i))
      && (t.pc.Flush? ==> s.pc == Clock(i))
      && (t.pc.Clock? ==> s.pc == Poll(i))
  {
    hide Late, Submit, CancelSet;
  }

  // ---------------------------------------------------------------------------------------
  // The flight of a transfer

  /** At step t the transfer of call r is handed to the hardware at slot i, or refused. */
  ghost predicate HandsOver(run: seq<State>, steps: seq<Step>, t: int, i: nat, r: int) {
    At(run, steps, t, Handoff(i)) && i < |run[t].slots| && run[t].slots[i].report == r
  }

  /** A slot in flight: since when, with which deadline, and whether its callback has run. */
  ghost predicate FliesSince(run: seq<State>, steps: seq<Step>, t: int, n: nat, i: nat)
    requires n < |run| && i < |run[n].slots|
  {
    var p := run[n].slots[i];
    && HandsOver(run, steps, t, i, p.report) && t < n && !steps[t].c.failed
    && p.deadline == run[t].ticks + TIMEOUT
    && (p.completed <==> FiredBetween(steps, t, n, i))
  }

  /** The slot is in flight, and was so before this step, which changed no more than `completed`. */
  predicate StillFlies(p: Slot, q: Slot, fires: bool) {
    p.submitted && q.deadline == p.deadline && q.report == p.report && (q.completed <==> p.completed || fires)
  }

  lemma FlightUnderScan(s: State, c: Choice, i: nat)
    requires Enabled(s, Advance(c)) && i < |s.slots| == |Backend(s, c).slots| && Backend(s, c).slots[i].submitted
    requires !(s.pc == Handoff(i) && !c.failed)
    ensures StillFlies(s.slots[i], Backend(s, c).slots[i], false)
  {
    hide Late, CancelSet;
  }

  lemma FlightUnderCalls(s: State, step: Step, i: nat)
    requires Inv(s) && Enabled(s, step) && !step.Advance? && i < |s.slots| == |Do(s, step).slots|
    requires Do(s, step).slots[i].submitted
    ensures StillFlies(s.slots[i], Do(s, step).slots[i], step == Callback(i))
  {
    hide Replay, Inv;
    if step.Fill? || step.Start? || step.Collect? || step.Unassign? || step.Allocate? { FlightUnderHolders(s, step, i); }
  }

  lemma FlightUnderHolders(s: State, step: Step, i: nat)
    requires Inv(s) && Enabled(s, step) && i < |s.slots| == |Do(s, step).slots| && Do(s, step).slots[i].submitted
    requires step.Fill? || step.Start? || step.Collect? || step.Unassign? || step.Allocate?
    ensures StillFlies(s.slots[i], Do(s, step).slots[i], false)
  {
    hide Replay, FirstUnassigned, CancelSet, Backend;
    assert SlotInv(s, i, Replay(s.log, BySlot(i)));
    assert CallInv(s, step.r);
  }

  lemma FlightBegins(s: State, c: Choice, i: nat)
    requires Enabled(s, Advance(c)) && s.pc == Handoff(i) && !c.failed
    ensures
      var q := Backend(s, c).slots[i];
      q.submitted && q.deadline == s.ticks + TIMEOUT && !q.completed && q.report == s.slots[i].report
  {}

  lemma {:induction false} Flight(run: seq<State>, steps: seq<Step>, n: nat, i: nat) returns (t: nat)
    requires IsRun(run, steps) && n < |run| && i < |run[n].slots| && run[n].slots[i].submitted
    ensures FliesSince(run, steps, t, n, i)
  {
    hide Do, Inv, Init, Enabled;
    if n == 0 {
      NotYet(run[0], i);
    } else {
      var s, step := run[n - 1], steps[n - 1];
      RunInv(run, steps, n - 1);
      assert Enabled(s, step) && run[n] == Do(s, step);
      SizeStep(s, step);
      if step.Advance? && s.pc == Handoff(i) && !step.c.failed {
        t := n - 1;
        DoIs(s, step.c);
        FlightBegins(s, step.c, i);
      } else {
        if step.Advance? {
          DoIs(s, step.c);
          FlightUnderScan(s, step.c, i);
        } else {
          FlightUnderCalls(s, step, i);
        }
        t := Flight(run, steps, n - 1, i);
        assert step == Callback(i) ==> t < n - 1 < n && steps[n - 1] == Callback(i);
      }
    }
  }

  lemma DoIs(s: State, c: Choice)
    requires Enabled(s, Advance(c))
    ensures Do(s, Advance(c)) == Backend(s, c)
    ensures Engaged(s.pc) == NULL || Engaged(s.pc) < |s.slots|
  {}

  lemma NotYet(s: State, i: nat)
    requires Init(s) && i < |s.slots|
    ensures !s.slots[i].submitted
  {}

  // ---------------------------------------------------------------------------------------
  // The law of statuses

  /** The scan that reports st at step k: it has polled the cancel flag of call r and compared the
      deadline of the hand-over at step t.  If neither aborted the transfer, its callback had run
      and st is the hardware's status; if one did, st says whether the flag was up at the end. */
  ghost predicate Settled(run: seq<State>, steps: seq<Step>, k: nat, t: int, i: nat, r: int, st: Status)
    requires k <= |steps|
  {
    var poll, clock, finish, override := Back(steps, k, 8), Back(steps, k, 7), Back(steps, k, 4), Back(steps, k, 3);
    && 0 <= t < poll && HandsOver(run, steps, t, i, r) && !steps[t].c.failed
    && At(run, steps, poll, Poll(i)) && At(run, steps, clock, Clock(i)) && At(run, steps, finish, Finish(i))
    && 0 <= override < |run| && run[override].pc.Override?
    && if Unaborted(run, steps, k, t, r) then st == steps[finish].c.hardware && FiredBetween(steps, t, finish, i)
       else st == if Asked(run[override], r) then Econnreset else Etimedout
  }

  /** That scan saw no cancel flag, and the 5000 ms since the hand-over were not over. */
  ghost predicate Unaborted(run: seq<State>, steps: seq<Step>, k: nat, t: int, r: int)
    requires k <= |steps|
  {
    var poll, clock := Back(steps, k, 8), Back(steps, k, 7);
    && 0 <= t < |run| && 0 <= poll < |run| && 0 <= clock < |run|
    && !Asked(run[poll], r) && !Late(run[clock].now, run[t].ticks + 500)
  }

  /** The hand-over that failed two steps before step k, with status st. */
  ghost predicate Failed(run: seq<State>, steps: seq<Step>, k: nat, i: nat, r: int, st: Status)
    requires k <= |steps|
  {
    var t := Back(steps, k, 2);
    HandsOver(run, steps, t, i, r) && steps[t].c.failed && steps[t].c.failure == st
  }

  /** Step k writes status st to call r at slot i, and this is why. */
  ghost predicate Explained(run: seq<State>, steps: seq<Step>, k: nat, i: nat, r: int, st: Status) {
    && k < |steps| && k < |run| && steps[k].Advance? && run[k].pc.Report? && run[k].pc.i == i && run[k].pc.st == st
    && i < |run[k].slots| && run[k].slots[i].report == r
    && if run[k].pc.scanning then exists t :: Settled(run, steps, k, t, i, r, st) else Failed(run, steps, k, i, r, st)
  }

  lemma Lent(s: State, i: nat)
    requires Inv(s) && Engaged(s.pc) == i && i < |s.slots|
    ensures LentBy(s, s.slots[i], s.slots[i].report)
    ensures Asked(s, s.slots[i].report) <==> CancelSet(s, s.slots[i])
  {
    hide Replay;
    assert SlotInv(s, i, Replay(s.log, BySlot(i)));
  }

  lemma {:induction false} BackAdd(steps: seq<Step>, k: int, m: nat, n: nat)
    requires k <= |steps|
    ensures Back(steps, k, m + n) == Back(steps, Back(steps, k, m), n)
    decreases m
  {
    if m > 0 { BackAdd(steps, Before(steps, k), m - 1, n); }
  }

  /** One step of the backend back. */
  lemma StepBack(run: seq<State>, steps: seq<Step>, n: nat, i: nat) returns (b: nat)
    requires IsRun(run, steps) && n < |run| && Engaged(run[n].pc) == i
    ensures b == Before(steps, n) && b < n && steps[b].Advance? && Enabled(run[b], steps[b])
    ensures Inv(run[b]) && i < |run[n].slots| && |run| == |steps| + 1
    ensures SameView(Backend(run[b], steps[b].c), run[n], i)
  {
    hide Do, Inv, Enabled, Backend;
    Resumes(run, steps, n, i);
    b := Before(steps, n);
    RunInv(run, steps, b);
    assert Enabled(run[b], steps[b]) && run[b + 1] == Do(run[b], steps[b]);
    DoIs(run[b], steps[b].c);
  }

  /** From the report of a scan back to where a forced abort overrides the status. */
  lemma ToOverride(run: seq<State>, steps: seq<Step>, k: nat, i: nat) returns (o: nat)
    requires IsRun(run, steps) && k < |run| && run[k].pc.Report? && run[k].pc.scanning && run[k].pc.i == i
    ensures o == Back(steps, k, 3) && o < k && Inv(run[o]) && i < |run[o].slots| && i < |run[k].slots|
    ensures run[o].pc.Override? && run[o].pc.i == i && run[o].slots[i].report == run[k].slots[i].report
    ensures run[k].pc.st == if !run[o].slots[i].aborted then run[o].pc.st
                            else if Asked(run[o], run[o].slots[i].report) then Econnreset else Etimedout
  {
    assert k <= |steps|;
    hide Inv, IsRun, Asked, CancelSet, Backend, Enabled, Do;
    var b := ToClearActive(run, steps, k, i);
    o := StepBack(run, steps, b, i);
    Backwards(run[o], steps[o].c, i);
    assert Back(steps, k, 3) == o by {
      BackAdd(steps, k, 2, 1);
      assert Back(steps, b, 1) == o;
    }
    Lent(run[o], i);
    Overrides(run[o], steps[o].c, i);
  }

  lemma Overrides(s: State, c: Choice, i: nat)
    requires Enabled(s, Advance(c)) && s.pc.Override? && s.pc.i == i && i < |s.slots|
    ensures
      var t := Backend(s, c);
      && |t.slots| == |s.slots| && t.slots[i] == s.slots[i] && t.pc.ClearActive?
      && t.pc.st == if !s.slots[i].aborted then s.pc.st else if CancelSet(s, s.slots[i]) then Econnreset else Etimedout
  {
    hide CancelSet;
  }

  lemma ToClearActive(run: seq<State>, steps: seq<Step>, k: nat, i: nat) returns (b: nat)
    requires IsRun(run, steps) && k < |run| && run[k].pc.Report? && run[k].pc.scanning && run[k].pc.i == i
    ensures b == Back(steps, k, 2) && b < k && i < |run[b].slots| && i < |run[k].slots|
    ensures run[b].pc == ClearActive(i, run[k].pc.st, true) && run[b].slots[i].report == run[k].slots[i].report
  {
    hide Inv, IsRun;
    var a := StepBack(run, steps, k, i);
    Backwards(run[a], steps[a].c, i);
    b := StepBack(run, steps, a, i);
    Backwards(run[b], steps[b].c, i);
    assert Back(steps, k, 2) == Back(steps, a, 1) == b;
  }

  /** From there back to where the transfer is finished. */
  lemma ToFinish(run: seq<State>, steps: seq<Step>, o: nat, i: nat) returns (f: nat)
    requires IsRun(run, steps) && o < |run| && run[o].pc.Override? && run[o].pc.i == i
    ensures f == Back(steps, o, 1) && f < o && Inv(run[f]) && i < |run[f].slots| && i < |run[o].slots|
    ensures At(run, steps, f, Finish(i))
    ensures run[o].slots[i] == run[f].slots[i].(completed := run[o].slots[i].completed)
    ensures run[o].pc.st == if run[f].slots[i].completed then steps[f].c.hardware else Etimedout
  {
    hide Inv, IsRun;
    f := StepBack(run, steps, o, i);
    Backwards(run[f], steps[f].c, i);
    assert Back(steps, o, 1) == f;
  }

  /** From there back to where the clock is looked at. */
  lemma ToClock(run: seq<State>, steps: seq<Step>, f: nat, i: nat) returns (c: nat)
    requires IsRun(run, steps) && f < |run| && run[f].pc == Finish(i)
    ensures c == Back(steps, f, 3) && c < f && Inv(run[c]) && i < |run[c].slots| && i < |run[f].slots|
    ensures At(run, steps, c, Clock(i)) && run[f].slots[i].report == run[c].slots[i].report
    ensures run[f].slots[i].submitted == run[c].slots[i].submitted
    ensures run[f].slots[i].deadline == run[c].slots[i].deadline
    ensures run[f].slots[i].aborted == (run[c].slots[i].aborted || Late(run[c].now, run[c].slots[i].deadline))
    ensures run[f].slots[i].completed || run[f].slots[i].aborted
    ensures forall t | c < t < f && steps[t].Advance? :: !run[t].pc.Handoff?
  {
    hide Inv, IsRun, Late;
    var d := StepBack(run, steps, f, i);
    Backwards(run[d], steps[d].c, i);
    var e := StepBack(run, steps, d, i);
    Backwards(run[e], steps[e].c, i);
    c := StepBack(run, steps, e, i);
    Backwards(run[c], steps[c].c, i);
    assert Back(steps, f, 3) == Back(steps, d, 2) == Back(steps, e, 1) == c;
  }

  /** And back to the poll. */
  lemma ToPoll(run: seq<State>, steps: seq<Step>, c: nat, i: nat) returns (p: nat)
    requires IsRun(run, steps) && c < |run| && run[c].pc == Clock(i)
    ensures p == Back(steps, c, 1) && p < c && Inv(run[p]) && i < |run[p].slots| && i < |run[c].slots|
    ensures At(run, steps, p, Poll(i)) && run[c].slots[i].report == run[p].slots[i].report
    ensures run[c].slots[i].submitted == run[p].slots[i].submitted
    ensures run[c].slots[i].aborted <==> Asked(run[p], run[p].slots[i].report)
    ensures forall t | p < t < c :: !steps[t].Advance?
  {
    hide Inv, IsRun, Asked, CancelSet;
    p := StepBack(run, steps, c, i);
    Backwards(run[p], steps[p].c, i);
    assert Back(steps, c, 1) == p;
    Lent(run[p], i);
    NotYetAborted(run[p], i);
    NoFlag(run[p], i);
  }

  lemma NoFlag(s: State, i: nat)
    requires i < |s.slots|
    ensures s.slots[i].flag == NULL ==> !CancelSet(s, s.slots[i])
  {}

  lemma InFlightAtPoll(s: State, i: nat)
    requires Inv(s) && s.pc == Poll(i) && i < |s.slots|
    ensures s.slots[i].submitted
  {
    hide Replay;
    assert SlotInv(s, i, Replay(s.log, BySlot(i)));
  }

  lemma ScanExplained(run: seq<State>, steps: seq<Step>, k: nat, i: nat) returns (t: nat)
    requires IsRun(run, steps) && k < |run| && run[k].pc.Report? && run[k].pc.scanning && run[k].pc.i == i
    ensures i < |run[k].slots| && Settled(run, steps, k, t, i, run[k].slots[i].report, run[k].pc.st)
  {
    assert k <= |steps|;
    hide Inv, Asked, Late, CancelSet, Back, Before, IsRun, FiredBetween, Settled, HandsOver;
    var o := ToOverride(run, steps, k, i);
    var f := ToFinish(run, steps, o, i);
    var c := ToClock(run, steps, f, i);
    var p := ToPoll(run, steps, c, i);
    InFlightAtPoll(run[p], i);
    t := Flight(run, steps, f, i);
    BackAgain(steps, k, o, f, c, p);
    Settles(run, steps, k, t, i, o, f, c, p);
  }

  lemma BackAgain(steps: seq<Step>, k: nat, o: nat, f: nat, c: nat, p: nat)
    requires k <= |steps| && o == Back(steps, k, 3)
    requires f == Back(steps, o, 1) && c == Back(steps, f, 3) && p == Back(steps, c, 1)
    ensures f == Back(steps, k, 4) && c == Back(steps, k, 7) && p == Back(steps, k, 8)
  {
    BackAdd(steps, k, 3, 1);
    BackAdd(steps, k, 4, 3);
    BackAdd(steps, k, 7, 1);
  }

  /** What the steps back have shown, put together. */
  lemma Settles(run: seq<State>, steps: seq<Step>, k: nat, t: nat, i: nat, o: nat, f: nat, c: nat, p: nat)
    requires k <= |steps| && |run| == |steps| + 1 && p < c < f < o < k && i < |run[o].slots|
    requires o == Back(steps, k, 3) && f == Back(steps, k, 4) && c == Back(steps, k, 7) && p == Back(steps, k, 8)
    requires run[k].pc.Report? && i < |run[k].slots| && i < |run[f].slots| && FliesSince(run, steps, t, f, i)
    requires forall m | p < m < c :: !steps[m].Advance?
    requires forall m | c < m < f && steps[m].Advance? :: !run[m].pc.Handoff?
    requires At(run, steps, p, Poll(i)) && At(run, steps, c, Clock(i)) && At(run, steps, f, Finish(i))
    requires run[o].pc.Override?
    requires
      var r := run[k].slots[i].report;
      && r == run[o].slots[i].report == run[f].slots[i].report
      && (run[f].slots[i].aborted <==> Asked(run[p], r) || Late(run[c].now, run[f].slots[i].deadline))
      && (run[o].slots[i].aborted <==> run[f].slots[i].aborted)
      && (run[f].slots[i].completed || run[f].slots[i].aborted)
      && run[k].pc.st == if !run[o].slots[i].aborted then steps[f].c.hardware
                         else if Asked(run[o], r) then Econnreset else Etimedout
    ensures Settled(run, steps, k, t, i, run[k].slots[i].report, run[k].pc.st)
  {
    hide Asked, Late, Back, Before, FiredBetween;
    assert t != p && t != c;
  }

  lemma FailureExplained(run: seq<State>, steps: seq<Step>, k: nat, i: nat)
    requires IsRun(run, steps) && k < |run| && run[k].pc.Report? && !run[k].pc.scanning && run[k].pc.i == i
    ensures i < |run[k].slots| && Failed(run, steps, k, i, run[k].slots[i].report, run[k].pc.st)
  {
    hide Inv, IsRun;
    var a := StepBack(run, steps, k, i);
    Backwards(run[a], steps[a].c, i);
    var t := StepBack(run, steps, a, i);
    Backwards(run[t], steps[t].c, i);
    assert Back(steps, k, 2) == Back(steps, a, 1) == t;
  }

  /** Whoever has written a log entry did so at a step of the run. */
  lemma {:induction false} Written(run: seq<State>, steps: seq<Step>, n: nat, j: nat) returns (k: nat)
    requires IsRun(run, steps) && n < |run| && j < |run[n].log|
    ensures k < n && |run[k].log| == j && run[k + 1].log == run[k].log + [run[n].log[j]]
  {
    hide Do;
    if n > 0 {
      var s, step := run[n - 1], steps[n - 1];
      assert Enabled(s, step) && run[n] == Do(s, step);
      OneEvent(s, step);
      if j < |s.log| {
        k := Written(run, steps, n - 1, j);
      } else {
        k := n - 1;
        assert run[n].log[..j] == s.log;
        assert run[n].log == s.log + [run[n].log[j]];
      }
    }
  }

  predicate OneMore(a: seq<Event>, b: seq<Event>) {
    a == b || (|b| == |a| + 1 && b[..|a|] == a)
  }

  lemma OneEvent(s: State, step: Step)
    requires Enabled(s, step)
    ensures OneMore(s.log, Do(s, step).log)
  {
    hide FirstUnassigned, Backend;
    if step.Advance? {
      if s.pc.Poll? || s.pc.Clock? || s.pc.Flush? || s.pc.Decide? || s.pc.Finish? || s.pc.Override? {
        OneEventPolled(s, step.c);
      } else {
        OneEventServed(s, step.c);
      }
    }
  }

  lemma OneEventPolled(s: State, c: Choice)
    requires Enabled(s, Advance(c))
    requires s.pc.Poll? || s.pc.Clock? || s.pc.Flush? || s.pc.Decide? || s.pc.Finish? || s.pc.Override?
    ensures OneMore(s.log, Backend(s, c).log)
  {
    hide Late, CancelSet;
  }

  lemma OneEventServed(s: State, c: Choice)
    requires Enabled(s, Advance(c))
    requires !(s.pc.Poll? || s.pc.Clock? || s.pc.Flush? || s.pc.Decide? || s.pc.Finish? || s.pc.Override?)
    ensures OneMore(s.log, Backend(s, c).log)
  {
    hide Submit;
  }

  lemma OnlyReports(s: State, step: Step, e: Event)
    requires Enabled(s, step) && Do(s, step).log == s.log + [e] && e.what.Reported?
    ensures step.Advance? && s.pc.Report? && s.pc.st == e.what.st && s.pc.i == e.slot
    ensures e.slot < |s.slots| && s.slots[e.slot].report == e.call
  {
    hide FirstUnassigned, Late, CancelSet, Submit;
    var t := Do(s, step);
    assert t.log[|s.log|] == e;
  }

  /** Every status that was written is the failure of its hand-over or what its scan settled on. */
  lemma StatusExplained(run: seq<State>, steps: seq<Step>, n: nat, j: nat) returns (k: nat)
    requires IsRun(run, steps) && n < |run| && j < |run[n].log| && run[n].log[j].what.Reported?
    ensures k < n && |run[k].log| == j
    ensures var e := run[n].log[j]; Explained(run, steps, k, e.slot, e.call, e.what.st)
  {
    hide Do, Enabled, Inv, Settled, Failed;
    k := Written(run, steps, n, j);
    var s, e := run[k], run[n].log[j];
    assert Enabled(s, steps[k]) && run[k + 1] == Do(s, steps[k]);
    OnlyReports(s, steps[k], e);
    if s.pc.scanning {
      var t := ScanExplained(run, steps, k, e.slot);
      assert Settled(run, steps, k, t, e.slot, e.call, e.what.st);
    } else {
      FailureExplained(run, steps, k, e.slot);
    }
  }

  /** What a call returns is -ENODEV, before it was activated, or the one status that was written
      for it, and that one is explained. */
  lemma ResultExplained(run: seq<State>, steps: seq<Step>, n: nat, r: CallId) returns (k: nat, i: nat)
    requires IsRun(run, steps) && n < |run| && r in run[n].calls && run[n].calls[r].pc.Returned?
    ensures
      var result := run[n].calls[r].pc.result;
      if Count(run[n].log, r, Activations) == 0 then result == Enodev
      else k < n && Explained(run, steps, k, i, r, result)
  {
    hide Inv, Explained;
    ExactlyOnce(run, steps, n, r);
    var log, result := run[n].log, run[n].calls[r].pc.result;
    k, i := 0, 0;
    if Count(log, r, Activations) != 0 {
      var j :| 0 <= j < |log| && log[j].call == r && log[j].what == Reported(result);
      k := StatusExplained(run, steps, n, j);
      i := log[j].slot;
    }
  }

  /** The hardware has ended the transfer with Success before anything aborted it. */
  ghost predicate Succeeds(run: seq<State>, steps: seq<Step>, k: nat, t: int, r: int)
    requires k <= |steps|
  {
    var finish := Back(steps, k, 4);
    && Unaborted(run, steps, k, t, r)
    && 0 <= finish < |steps| && steps[finish].Advance? && steps[finish].c.hardware == Success
  }

  /** A transfer that was handed over returns Success if and only if it succeeds. */
  lemma SuccessExactly(run: seq<State>, steps: seq<Step>, n: nat, r: CallId) returns (k: nat, i: nat, t: int)
    requires IsRun(run, steps) && n < |run| && r in run[n].calls && run[n].calls[r].pc.Returned?
    requires Count(run[n].log, r, Activations) != 0
    ensures k < n && run[k].pc.Report?
    ensures run[k].pc.scanning ==> Settled(run, steps, k, t, i, r, run[n].calls[r].pc.result)
    ensures run[k].pc.scanning ==> (run[n].calls[r].pc.result == Success <==> Succeeds(run, steps, k, t, r))
    ensures !run[k].pc.scanning ==> run[n].calls[r].pc.result != Success
    ensures !run[k].pc.scanning ==> Failed(run, steps, k, i, r, run[n].calls[r].pc.result)
  {
    hide Do, Inv, Back, Asked, Late, FiredBetween, Settled, Failed, Succeeds;
    k, i := ResultExplained(run, steps, n, r);
    t := 0;
    var result := run[n].calls[r].pc.result;
    if run[k].pc.scanning {
      t :| Settled(run, steps, k, t, i, r, result);
      SettledSuccess(run, steps, k, t, i, r, result);
    } else {
      FailedOtherwise(run, steps, k, i, r, result);
    }
  }

  lemma SettledSuccess(run: seq<State>, steps: seq<Step>, k: nat, t: int, i: nat, r: int, st: Status)
    requires k <= |steps| && Settled(run, steps, k, t, i, r, st)
    ensures st == Success <==> Succeeds(run, steps, k, t, r)
  {
    hide Back, Asked, Late, FiredBetween, Unaborted;
  }

  lemma FailedOtherwise(run: seq<State>, steps: seq<Step>, k: nat, i: nat, r: int, st: Status)
    requires IsRun(run, steps) && k <= |steps| && Failed(run, steps, k, i, r, st)
    ensures st != Success
  {
    hide Back, Do;
    var t := Back(steps, k, 2);
    assert Enabled(run[t], steps[t]);
  }

  // ---------------------------------------------------------------------------------------
  // Who leaves the hands of the backend has been answered

  predicate Serving(l: Life, r: int) {
    (l.Queued? || l.InFlight?) && l.partner == r
  }

  lemma {:induction false} EndsInReport(log: seq<Event>, m: nat, i: nat, r: int) returns (j: nat)
    requires m <= |log| && Serving(Replay(log[..m], BySlot(i)), r)
    requires Replay(log, BySlot(i)) != Bad && !Serving(Replay(log, BySlot(i)), r)
    ensures m <= j < |log| && log[j].slot == i && log[j].call == r && log[j].what.Reported?
  {
    assert log[..|log|] == log;
    var init, e := log[..|log| - 1], log[|log| - 1];
    assert init[..m] == log[..m];
    if Serving(Replay(init, BySlot(i)), r) {
      j := |log| - 1;
    } else {
      j := EndsInReport(init, m, i, r);
    }
  }

  lemma {:induction false} LogGrows(run: seq<State>, steps: seq<Step>, m: nat, n: nat)
    requires IsRun(run, steps) && m <= n < |run|
    ensures run[m].log <= run[n].log && |run[m].slots| == |run[n].slots|
    decreases n
  {
    hide Do;
    if m < n {
      LogGrows(run, steps, m, n - 1);
      assert Enabled(run[n - 1], steps[n - 1]) && run[n] == Do(run[n - 1], steps[n - 1]);
      OneEvent(run[n - 1], steps[n - 1]);
      SizeStep(run[n - 1], steps[n - 1]);
    }
  }

  lemma ActiveIsServed(s: State, i: nat)
    requires Inv(s) && i < |s.slots| && Engaged(s.pc) == NULL
    ensures s.slots[i].active ==> Serving(Replay(s.log, BySlot(i)), s.slots[i].report)
    ensures !s.slots[i].active ==> forall r :: !Serving(Replay(s.log, BySlot(i)), r)
    ensures Replay(s.log, BySlot(i)) != Bad
  {
    hide Replay;
    assert SlotInv(s, i, Replay(s.log, BySlot(i)));
  }

  /** A status was written for call r at slot i, after the first `from` events of state n. */
  ghost predicate AnsweredSince(run: seq<State>, steps: seq<Step>, n: nat, from: nat, i: nat, r: int) {
    exists k: nat, st :: k < n < |run| && from <= |run[k].log| && Explained(run, steps, k, i, r, st)
  }

  /** A slot that was active and is not any more: its call has been answered in between. */
  lemma AnsweredInBetween(run: seq<State>, steps: seq<Step>, m: nat, n: nat, i: nat)
    requires IsRun(run, steps) && m <= n < |run| && i < |run[m].slots| && |run[n].slots| == |run[m].slots|
    requires Engaged(run[m].pc) == NULL == Engaged(run[n].pc)
    requires run[m].slots[i].active && !run[n].slots[i].active
    ensures AnsweredSince(run, steps, n, |run[m].log|, i, run[m].slots[i].report)
  {
    hide Inv, Explained, IsRun, Replay, Serving;
    RunInv(run, steps, m);
    RunInv(run, steps, n);
    LogGrows(run, steps, m, n);
    ActiveIsServed(run[m], i);
    ActiveIsServed(run[n], i);
    var log, r := run[n].log, run[m].slots[i].report;
    assert log[..|run[m].log|] == run[m].log;
    var j := EndsInReport(log, |run[m].log|, i, r);
    var k := StatusExplained(run, steps, n, j);
    assert Explained(run, steps, k, i, r, log[j].what.st);
  }
}
