/** What the transfer pool promises its callers, over every run. */
module PipePoolPromises {
  import opened PipePool
  import opened PipePoolSafety

  // ---------------------------------------------------------------------------------------
  // Permits

  /** Permits are conserved, slots never outnumber the permits taken, and the branch that
      answers -EBUSY is never reached, whatever the callers and the backend do. */
  lemma PermitsConserved(run: seq<State>, steps: seq<Step>, n: nat)
    requires IsRun(run, steps) && n < |run|
    ensures
      var s := run[n];
      && s.permits + |Holders(s.calls)| == |s.slots| == |run[0].slots|
      && ReservedCount(s.slots) <= |Holders(s.calls)|
      && forall r | r in s.calls :: !s.calls[r].pc.NoSlot?
  {
    RunInv(run, steps, n);
    var s := run[n];
    assert s.slots[..|s.slots|] == s.slots;
    var held := SlotHolders(s, |s.slots|);
    SubsetSize(held, Holders(s.calls));
    PoolSize(run, steps, n);
    forall r | r in s.calls ensures !s.calls[r].pc.NoSlot? {
      assert CallInv(s, r);
    }
  }

  lemma {:induction false} PoolSize(run: seq<State>, steps: seq<Step>, n: nat)
    requires IsRun(run, steps) && n < |run|
    ensures |run[n].slots| == |run[0].slots|
  {
    hide Do;
    if n > 0 {
      PoolSize(run, steps, n - 1);
      SizeStep(run[n - 1], steps[n - 1]);
    }
  }

  lemma SizeStep(s: State, step: Step)
    requires Enabled(s, step)
    ensures |Do(s, step).slots| == |s.slots|
  {}

  // ---------------------------------------------------------------------------------------
  // Exactly-once completion

  datatype Kind = Activations | Reports | Tokens | Collections

  predicate IsKind(w: What, kind: Kind) {
    match kind
    case Activations => w.Activate?
    case Reports => w.Reported?
    case Tokens => w.Signalled?
    case Collections => w.Taken?
  }

  /** How often the log says `kind` of call r. */
  function Count(log: seq<Event>, r: CallId, kind: Kind): nat {
    if log == [] then 0
    else
      var e := log[|log| - 1];
      Count(log[..|log| - 1], r, kind) + if e.call == r && IsKind(e.what, kind) then 1 else 0
  }

  function Due(kind: Kind, l: Life): nat {
    match kind
    case Activations => if l.Free? || l.Filling? then 0 else 1
    case Reports => if l.Finished? || l.Ready? || l.Held? || l.Retired? then 1 else 0
    case Tokens => if l.Ready? || l.Held? || l.Retired? then 1 else 0
    case Collections => if l.Held? || l.Retired? then 1 else 0
  }

  lemma {:induction false} CountByLife(log: seq<Event>, r: CallId, kind: Kind)
    requires Replay(log, ByCall(r)) != Bad
    ensures Count(log, r, kind) == Due(kind, Replay(log, ByCall(r)))
  {
    if log != [] { CountByLife(log[..|log| - 1], r, kind); }
  }

  function StatusOf(l: Life): (st: Status)
    requires l.Finished? || l.Ready? || l.Held? || l.Retired?
  {
    l.st
  }

  lemma {:induction false} StatusWasReported(log: seq<Event>, r: CallId)
    requires
      var l := Replay(log, ByCall(r));
      l.Finished? || l.Ready? || l.Held? || l.Retired?
    ensures exists k :: 0 <= k < |log| && log[k].call == r && log[k].what == Reported(StatusOf(Replay(log, ByCall(r))))
  {
    var init, e := log[..|log| - 1], log[|log| - 1];
    var l := Replay(log, ByCall(r));
    if e.call == r && e.what.Reported? {
      assert log[|log| - 1].what == Reported(StatusOf(l));
    } else {
      StatusWasReported(init, r);
      var k :| 0 <= k < |init| && init[k].call == r && init[k].what == Reported(StatusOf(Replay(init, ByCall(r))));
      assert log[k] == init[k];
    }
  }

  lemma CallLife(s: State, r: CallId)
    requires Inv(s)
    ensures Replay(s.log, ByCall(r)) != Bad
  {
    if r in s.calls {
      assert CallInv(s, r);
      var i := SlotOf(s.calls[r].pc);
      if i != NULL { assert SlotInv(s, i, Replay(s.log, BySlot(i))); }
    }
  }

  /** However calls, scans and callbacks interleave and slots are reused: a call is activated
      at most once, and gets one status write per activation, one token per status write, which
      it alone collects; a call that has returned either was refused before activation, or was
      completed exactly once and returns the very status that was written for it. */
  lemma ExactlyOnce(run: seq<State>, steps: seq<Step>, n: nat, r: CallId)
    requires IsRun(run, steps) && n < |run| && r in run[n].calls
    ensures
      var log, pc := run[n].log, run[n].calls[r].pc;
      && Count(log, r, Collections) <= Count(log, r, Tokens) <= Count(log, r, Reports)
      && Count(log, r, Reports) <= Count(log, r, Activations) <= 1
      && (pc.Waiting? ==> Count(log, r, Activations) == 1 && Count(log, r, Collections) == 0)
      && (pc.Returned? ==>
            || (Count(log, r, Activations) == 0 && pc.result == Enodev)
            || (Count(log, r, Collections) == 1
                && exists k :: 0 <= k < |log| && log[k].call == r && log[k].what == Reported(pc.result)))
  {
    RunInv(run, steps, n);
    var s := run[n];
    var log, l := s.log, Replay(s.log, ByCall(r));
    CallLife(s, r);
    CountByLife(log, r, Activations);
    CountByLife(log, r, Reports);
    CountByLife(log, r, Tokens);
    CountByLife(log, r, Collections);
    assert CallInv(s, r);
    if s.calls[r].pc.Waiting? {
      var i := SlotOf(s.calls[r].pc);
      assert SlotInv(s, i, Replay(log, BySlot(i)));
    }
    if s.calls[r].pc.Returned? && l != Free { StatusWasReported(log, r); }
  }

  // ---------------------------------------------------------------------------------------
  // The life of a slot, and whose token it carries

  /** free -> filling -> queued -> (in flight ->) done -> free, one holder throughout. */
  predicate Follows(l: Life, m: Life) {
    match l
    case Free => m.Filling?
    case Filling(r) => m == Queued(r)
    case Queued(r) => m == InFlight(r, false) || (m.Finished? && m.partner == r && m.st != Success)
    case InFlight(r, saw) =>
      || (!saw && m == InFlight(r, true))
      || (m.Finished? && m.partner == r && (saw ==> m.st == Econnreset))
    case Finished(r, st) => m == Ready(r, st)
    case Ready(r, st) => m == Held(r, st)
    case Held(_, _) => m == Free
    case _ => false
  }

  lemma {:induction false} LastWord(log: seq<Event>, i: nat, r: int)
    requires Replay(log, BySlot(i)).Ready? && Replay(log, BySlot(i)).partner == r
    ensures exists k ::
      0 <= k < |log| && log[k] == Event(i, r, Signalled) && forall m | k < m < |log| :: log[m].slot != i
  {
    var init, e := log[..|log| - 1], log[|log| - 1];
    if e.slot == i {
      assert e == Event(i, r, Signalled);
      assert log[|log| - 1] == e;
    } else {
      LastWord(init, i, r);
      var k :| 0 <= k < |init| && init[k] == Event(i, r, Signalled) && forall m | k < m < |init| :: init[m].slot != i;
      assert log[k] == init[k];
      forall m | k < m < |log| ensures log[m].slot != i {
        if m < |init| { assert log[m] == init[m]; }
      }
    }
  }

  /** The prefixes of a log without a Bad end have none either. */
  lemma {:induction false} NoBadPrefix(log: seq<Event>, v: View, k: nat)
    requires Replay(log, v) != Bad && k <= |log|
    ensures Replay(log[..k], v) != Bad
    decreases |log|
  {
    if k == |log| {
      assert log[..k] == log;
    } else {
      NoBadPrefix(log[..|log| - 1], v, k);
      assert log[..|log| - 1][..k] == log[..k];
    }
  }

  lemma LifeBefore(log: seq<Event>, v: View, k: nat)
    requires Replay(log, v) != Bad && k < |log| && Concerns(log[k], v)
    ensures
      var l := Replay(log[..k], v);
      l != Bad && After(l, log[k], v) != Bad && Replay(log[..k + 1], v) == After(l, log[k], v)
  {
    NoBadPrefix(log, v, k);
    NoBadPrefix(log, v, k + 1);
    assert log[..k + 1] == log[..k] + [log[k]];
    ReplayPush(log[..k], log[k], v);
  }

  lemma SlotMoves(run: seq<State>, steps: seq<Step>, n: nat, i: nat, k: nat)
    requires IsRun(run, steps) && n < |run| && k < |run[n].log|
    ensures
      var l, m := Replay(run[n].log[..k], BySlot(i)), Replay(run[n].log[..k + 1], BySlot(i));
      l == m || Follows(l, m)
  {
    RunInv(run, steps, n);
    var log := run[n].log;
    SlotLife(run[n], i);
    if log[k].slot == i {
      LifeBefore(log, BySlot(i), k);
      LegalMove(Replay(log[..k], BySlot(i)), log[k]);
    } else {
      assert log[..k + 1] == log[..k] + [log[k]];
      ReplayPush(log[..k], log[k], BySlot(i));
    }
  }

  lemma SlotLife(s: State, i: nat)
    requires Inv(s)
    ensures Replay(s.log, BySlot(i)) != Bad
  {
    if i < |s.slots| { assert SlotInv(s, i, Replay(s.log, BySlot(i))); }
  }

  lemma LegalMove(l: Life, e: Event)
    requires After(l, e, BySlot(e.slot)) != Bad
    ensures After(l, e, BySlot(e.slot)) == l || Follows(l, After(l, e, BySlot(e.slot)))
  {}

  /** The token a call takes is the one given for it, with nothing at that slot in between. */
  lemma TokenReachesItsCall(run: seq<State>, steps: seq<Step>, n: nat, k: nat)
    requires IsRun(run, steps) && n < |run| && k < |run[n].log| && run[n].log[k].what.Taken?
    ensures
      var log := run[n].log;
      exists j :: 0 <= j < k && log[j] == Event(log[k].slot, log[k].call, Signalled)
                  && forall m | j < m < k :: log[m].slot != log[k].slot
  {
    hide Replay, Inv, IsRun;
    RunInv(run, steps, n);
    var log := run[n].log;
    var i := log[k].slot;
    SlotLife(run[n], i);
    LifeBefore(log, BySlot(i), k);
    LastWord(log[..k], i, log[k].call);
    var j :| 0 <= j < k && log[..k][j] == Event(i, log[k].call, Signalled)
             && forall m | j < m < k :: log[..k][m].slot != i;
    assert log[j] == log[..k][j];
    forall m | j < m < k ensures log[m].slot != i { assert log[m] == log[..k][m]; }
  }

  // ---------------------------------------------------------------------------------------
  // Borrowed memory

  predicate Dereferences(w: What) {
    w.Touch? || w.Polled? || w.Reported?
  }

  /** Every time the backend follows a pointer into a caller's frame, that caller has been
      activated and has not yet been given its token, so its frame is alive and lent. */
  lemma BorrowedMemory(run: seq<State>, steps: seq<Step>, n: nat, k: nat, r: CallId)
    requires IsRun(run, steps) && n < |run| && k < |run[n].log|
    requires run[n].log[k].call == r && Dereferences(run[n].log[k].what)
    ensures Count(run[n].log[..k], r, Activations) == 1 && Count(run[n].log[..k], r, Tokens) == 0
  {
    hide Replay, Inv, IsRun, Count;
    RunInv(run, steps, n);
    CallLife(run[n], r);
    LifeBefore(run[n].log, ByCall(r), k);
    CountByLife(run[n].log[..k], r, Activations);
    CountByLife(run[n].log[..k], r, Tokens);
  }

  // ---------------------------------------------------------------------------------------
  // Cancellation

  /** When the completion scan reaches an in-flight slot whose cancel flag is up, it sees it. */
  lemma ScanSeesFlag(run: seq<State>, steps: seq<Step>, n: nat, c: Choice)
    requires IsRun(run, steps) && n < |run|
    requires run[n].pc.Poll? && Possible(c) && run[n].pc.i < |run[n].slots|
    requires CancelSet(run[n], run[n].slots[run[n].pc.i])
    ensures
      var s, i := run[n], run[n].pc.i;
      Do(s, Advance(c)).log == s.log + [Event(i, s.slots[i].flag, Polled(true))]
  {
    hide Do, Inv;
    RunInv(run, steps, n);
    var s := run[n];
    NotYetAborted(s, s.pc.i);
    PollIs(s, c, s.pc.i);
  }

  lemma NotYetAborted(s: State, i: nat)
    requires Inv(s) && s.pc == Poll(i) && i < |s.slots|
    ensures !s.slots[i].aborted
  {
    hide Replay;
    assert SlotInv(s, i, Replay(s.log, BySlot(i)));
  }

  lemma {:induction false} SawUntilReported(log: seq<Event>, r: CallId, j: nat)
    requires Replay(log, ByCall(r)) != Bad && j < |log|
    requires log[j].call == r && log[j].what == Polled(true)
    ensures
      || (Replay(log, ByCall(r)).InFlight? && Replay(log, ByCall(r)).saw
          && forall m | j < m < |log| && log[m].call == r :: log[m].what.Touch?)
      || exists k :: j < k < |log| && CompletedCancelled(log, r, j, k)
  {
    LifeBefore(log, ByCall(r), j);
    var init, e := log[..|log| - 1], log[|log| - 1];
    if j == |log| - 1 {
      assert log[..j + 1] == log;
    } else {
      SawUntilReported(init, r, j);
      if k :| j < k < |init| && CompletedCancelled(init, r, j, k) {
        assert CompletedCancelled(log, r, j, k);
      } else {
        assert forall m | j < m < |init| && log[m].call == r :: init[m] == log[m] && log[m].what.Touch?;
        if e.call == r && !e.what.Touch? { assert CompletedCancelled(log, r, j, |log| - 1); }
      }
    }
  }

  /** Event k reports -ECONNRESET for r, and since j nothing was done for r but copying. */
  predicate CompletedCancelled(log: seq<Event>, r: CallId, j: nat, k: nat)
    requires j < |log| && k < |log|
  {
    log[k].call == r && log[k].what == Reported(Econnreset)
    && forall m | j < m < k && log[m].call == r :: log[m].what.Touch?
  }

  /** A scan that has read a raised flag finalises that slot before it moves on: either it is
      still serving it, or the next thing that happened to the call, with no second poll in
      between, was a status of -ECONNRESET. */
  lemma CancelIsFinal(run: seq<State>, steps: seq<Step>, n: nat, j: nat, r: CallId)
    requires IsRun(run, steps) && n < |run| && j < |run[n].log|
    requires run[n].log[j].call == r && run[n].log[j].what == Polled(true)
    ensures
      || (r in run[n].calls && run[n].calls[r].pc.Waiting? && Engaged(run[n].pc) == run[n].calls[r].pc.slot)
      || exists k :: j < k < |run[n].log| && CompletedCancelled(run[n].log, r, j, k)
  {
    RunInv(run, steps, n);
    var s := run[n];
    CallLife(s, r);
    SawUntilReported(s.log, r, j);
    if Replay(s.log, ByCall(r)).InFlight? {
      assert r in s.calls && CallInv(s, r);
      var i := SlotOf(s.calls[r].pc);
      assert SlotInv(s, i, Replay(s.log, BySlot(i)));
    }
  }

  /** Cancel flags only ever go up, and calls are never forgotten. */
  lemma {:induction false} FlagsStayUp(run: seq<State>, steps: seq<Step>, n: nat, m: nat, r: CallId)
    requires IsRun(run, steps) && n <= m < |run| && r in run[n].calls && run[n].calls[r].cancel
    ensures r in run[m].calls && run[m].calls[r].cancel
    decreases m
  {
    hide Do;
    if n < m {
      FlagsStayUp(run, steps, n, m - 1, r);
      FlagStep(run[m - 1], steps[m - 1], r);
    }
  }

  lemma FlagStep(s: State, step: Step, r: CallId)
    requires Enabled(s, step) && r in s.calls && s.calls[r].cancel
    ensures r in Do(s, step).calls && Do(s, step).calls[r].cancel
  {}
}
