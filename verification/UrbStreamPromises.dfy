/** What a connection promises, over every run of its reader and workers. */
module UrbStreamPromises {
  import opened UrbStream
  import opened UrbStreamSafety

  // ---------------------------------------------------------------------------------------
  // Reclaiming the context

  /** inflight_count is the number of work items counted in and not yet counted out. */
  lemma CountsInFlight(run: seq<State>, steps: seq<Step>, n: nat)
    requires IsRun(run, steps) && n < |run|
    ensures run[n].count == Tally(run[n].submits, Counted)
  {
    RunInv(run, steps, n);
  }

  /** Every step a worker can still take touches the context: write_mutex, fd, the table or the
      counter.  Once the context is freed, some worker will touch it exactly when the counter
      was not zero, which is what the drain loop looks at. */
  lemma FreedSafelyExactlyWhenDrained(run: seq<State>, steps: seq<Step>, n: nat)
    requires IsRun(run, steps) && n < |run| && run[n].pc.Gone?
    ensures (exists id :: WorkerEnabled(run[n], id)) <==> run[n].count != 0
  {
    RunInv(run, steps, n);
    var s := run[n];
    if id :| WorkerEnabled(s, id) {
      if Tally(s.submits, Counted) == 0 { NoneCounted(s.submits, Counted, id); }
    }
    if s.count != 0 {
      var id := TallySome(s.submits, Counted);
      assert SubmitInv(s, id);
      if s.submits[id].stage.Running? && s.mutex != NULL {
        assert SubmitInv(s, s.mutex);
        assert WorkerEnabled(s, s.mutex);
      } else {
        if !s.submits[id].stage.Cleared? && !s.submits[id].stage.Unlinked? && !s.submits[id].stage.Running? {
          assert RowOf(s.submits[id].stage) != NULL;
        }
        assert WorkerEnabled(s, id);
      }
    }
  }

  lemma {:induction false} NoneCounted(ss: seq<Submit>, f: Stage -> bool, id: nat)
    requires Tally(ss, f) == 0 && id < |ss|
    ensures !f(ss[id].stage)
  {
    if id < |ss| - 1 { NoneCounted(ss[..|ss| - 1], f, id); }
  }

  /** When the drain loop stops on zero, that is the end: nobody takes another step. */
  lemma DrainedIsTheEnd(run: seq<State>, steps: seq<Step>, n: nat)
    requires IsRun(run, steps) && n < |run| && run[n].pc.Gone? && run[n].count == 0
    ensures n == |steps|
  {
    FreedSafelyExactlyWhenDrained(run, steps, n);
    if n < |steps| { OnlyWorkersGoOn(run[n], steps[n]); }
  }

  lemma OnlyWorkersGoOn(s: State, step: Step)
    requires Enabled(s, step) && s.pc.Gone?
    ensures exists id :: WorkerEnabled(s, id)
  {
    assert step.Worker? && WorkerEnabled(s, step.id);
  }

  /** No row of in_flight has two live owners, and a row in use leads to its owner. */
  lemma OneOwnerPerRow(run: seq<State>, steps: seq<Step>, n: nat, p: nat, q: nat)
    requires IsRun(run, steps) && n < |run| && p < |run[n].submits| && q < |run[n].submits|
    requires RowOf(run[n].submits[p].stage) == RowOf(run[n].submits[q].stage) != NULL
    ensures p == q
    ensures var i := RowOf(run[n].submits[p].stage); i < |run[n].table| && run[n].table[i].ptr == p
  {
    RunInv(run, steps, n);
    assert SubmitInv(run[n], p) && SubmitInv(run[n], q);
  }

  /** When the drain starts, every SUBMIT that still has a row has been told to cancel. */
  lemma TeardownCancelsAll(run: seq<State>, steps: seq<Step>, n: nat, id: nat)
    requires IsRun(run, steps) && n < |run| && (run[n].pc.Drain? || run[n].pc.Gone?)
    requires id < |run[n].submits| && RowOf(run[n].submits[id].stage) != NULL
    ensures run[n].submits[id].cancel
  {
    RunInv(run, steps, n);
    assert SubmitInv(run[n], id);
    assert RowInv(run[n], RowOf(run[n].submits[id].stage));
  }

  /** The branch that gives up waiting for a row is never taken: only the reader tears down. */
  lemma NeverAbandons(run: seq<State>, steps: seq<Step>, n: nat)
    requires IsRun(run, steps) && n < |run|
    ensures !run[n].pc.Abandon? && (run[n].cancelled ==> PcId(run[n].pc) == NULL)
  {
    RunInv(run, steps, n);
  }

  // ---------------------------------------------------------------------------------------
  // Replies

  /** write_mutex lets one worker send at a time. */
  lemma OneSender(run: seq<State>, steps: seq<Step>, n: nat, p: nat, q: nat)
    requires IsRun(run, steps) && n < |run| && p < |run[n].submits| && q < |run[n].submits|
    requires run[n].submits[p].stage.Sending? && run[n].submits[q].stage.Sending?
    ensures p == q
  {
    RunInv(run, steps, n);
    assert SubmitInv(run[n], p) && SubmitInv(run[n], q);
  }

  lemma {:induction false} Partition(ss: seq<Submit>)
    ensures |ss| == Tally(ss, Answered) + Tally(ss, Live) + Tally(ss, Held) + Tally(ss, Lost)
  {
    if ss != [] { Partition(ss[..|ss| - 1]); }
  }

  lemma {:induction false} TallyOne(ss: seq<Submit>, f: Stage -> bool, id: nat)
    requires id < |ss| && forall q | 0 <= q < |ss| :: f(ss[q].stage) <==> q == id
    ensures Tally(ss, f) == 1
  {
    if id == |ss| - 1 {
      TallyNone(ss[..|ss| - 1], f);
    } else {
      TallyOne(ss[..|ss| - 1], f, id);
    }
  }

  /** Every SUBMIT that did not tear the connection down has had its one reply, or is with a
      worker that has yet to reply, or is the one the reader is handling; and every reply
      carries the seqnum of its own SUBMIT, no SUBMIT having two. */
  lemma RepliesConserved(run: seq<State>, steps: seq<Step>, n: nat)
    requires IsRun(run, steps) && n < |run|
    ensures
      var s := run[n];
      && |s.submits| - Tally(s.submits, Lost) ==
           |s.replies| + Tally(s.submits, Live) + (if PcId(s.pc) == NULL then 0 else 1)
      && (forall k | 0 <= k < |s.replies| ::
            s.replies[k].id < |s.submits| && s.replies[k].seqnum == s.submits[s.replies[k].id].seqnum)
      && (forall j, k | 0 <= j < k < |s.replies| :: s.replies[j].id != s.replies[k].id)
  {
    RunInv(run, steps, n);
    var s := run[n];
    Partition(s.submits);
    forall id | 0 <= id < |s.submits| ensures Held(s.submits[id].stage) <==> PcId(s.pc) == id {
      assert SubmitInv(s, id);
    }
    if PcId(s.pc) == NULL {
      TallyNone(s.submits, Held);
    } else {
      TallyOne(s.submits, Held, PcId(s.pc));
    }
    forall k | 0 <= k < |s.replies| ensures s.replies[k].id < |s.submits|
      && s.replies[k].seqnum == s.submits[s.replies[k].id].seqnum
    {
      assert ReplyInv(s, k);
    }
  }

  // ---------------------------------------------------------------------------------------
  // UNLINK

  /** SUBMIT id has a row, its number has been written there, and the row does not have it. */
  predicate NumberLost(s: State, id: nat, row: nat) {
    && id < |s.submits| && row < |s.table| && RowOf(s.submits[id].stage) == row
    && s.submits[id].seqnum != 0 && s.table[row].seqnum == 0 && !(s.pc.SetSeq? && s.pc.id == id)
  }

  /** The step from s to t is another SUBMIT's, which gave the row up and now clears its number. */
  predicate ClearedLate(s: State, t: State, q: nat, id: nat, row: nat) {
    && q != id && q < |s.submits| && q < |t.submits| && row < |s.table| && s.table[row].ptr == id
    && s.submits[q].stage.Unlinked? && s.submits[q].stage.row == row && t.submits[q].stage.Cleared?
  }

  lemma LostToWorker(s: State, w: nat, id: nat, row: nat)
    requires Inv(s) && WorkerEnabled(s, w) && NumberLost(Work(s, w), id, row)
    ensures NumberLost(s, id, row) || ClearedLate(s, Work(s, w), w, id, row)
  {
    hide Tally;
    assert SubmitInv(s, w) && SubmitInv(s, id);
  }

  lemma LostToReader(s: State, c: Choice, id: nat, row: nat)
    requires Inv(s) && ReaderEnabled(s, c) && NumberLost(Read(s, c), id, row)
    ensures NumberLost(s, id, row) || (PcId(s.pc) != NULL && ClearedLate(s, Read(s, c), PcId(s.pc), id, row))
  {
    hide Tally, Read, NumberLost, ClearedLate;
    if PcId(s.pc) == NULL {
      NothingLostIdly(s, c, id, row);
    } else {
      assert SubmitInv(s, PcId(s.pc));
      if id < |s.submits| { assert SubmitInv(s, id); }
      LostWhileHolding(s, c, PcId(s.pc), id, row);
    }
  }

  lemma NothingLostIdly(s: State, c: Choice, id: nat, row: nat)
    requires InRange(s) && ReaderEnabled(s, c) && PcId(s.pc) == NULL && NumberLost(Read(s, c), id, row)
    ensures NumberLost(s, id, row)
  {}

  lemma LostWhileHolding(s: State, c: Choice, held: nat, id: nat, row: nat)
    requires InRange(s) && ReaderEnabled(s, c) && PcId(s.pc) == held && NumberLost(Read(s, c), id, row)
    requires SubmitInv(s, held) && (id < |s.submits| ==> SubmitInv(s, id))
    ensures NumberLost(s, id, row) || ClearedLate(s, Read(s, c), held, id, row)
  {}

  predicate LostAt(run: seq<State>, m: nat, q: nat, id: nat, row: nat) {
    m + 1 < |run| && ClearedLate(run[m], run[m + 1], q, id, row)
  }

  /** And it is cleared so only by a SUBMIT that had the row before: between giving the row up
      and clearing its number, the row went to the target. */
  lemma {:induction false} LostToLastOwner(run: seq<State>, steps: seq<Step>, n: nat, id: nat, row: nat)
    requires IsRun(run, steps) && n < |run| && NumberLost(run[n], id, row)
    ensures exists m: nat, q: nat :: m < n && LostAt(run, m, q, id, row)
  {
    hide Do, Enabled, Inv, NumberLost, ClearedLate;
    if n == 0 {
      NothingLost(run[0], id, row);
    } else {
      var s := run[n - 1];
      RunInv(run, steps, n - 1);
      var q := LostBy(s, steps[n - 1], id, row);
      if NumberLost(s, id, row) {
        LostToLastOwner(run, steps, n - 1, id, row);
      } else {
        assert LostAt(run, n - 1, q, id, row);
      }
    }
  }

  lemma NothingLost(s: State, id: nat, row: nat)
    requires Init(s)
    ensures !NumberLost(s, id, row)
  {}

  lemma LostBy(s: State, step: Step, id: nat, row: nat) returns (q: nat)
    requires Inv(s) && Enabled(s, step) && NumberLost(Do(s, step), id, row)
    ensures NumberLost(s, id, row) || ClearedLate(s, Do(s, step), q, id, row)
  {
    hide Read, Work, Inv, NumberLost, ClearedLate;
    match step
    case Worker(w) =>
      LostToWorker(s, w, id, row);
      q := w;
    case Reader(c) =>
      LostToReader(s, c, id, row);
      q := if PcId(s.pc) != NULL then PcId(s.pc) else 0;
  }

  ghost predicate Reachable(s: State) {
    exists run: seq<State>, steps: seq<Step> :: IsRun(run, steps) && s == run[|steps|]
  }

  lemma Go(s: State, step: Step) returns (t: State)
    requires Reachable(s) && Enabled(s, step)
    ensures Reachable(t) && t == Do(s, step)
  {
    hide Do, Enabled;
    var run: seq<State>, steps: seq<Step> :| IsRun(run, steps) && s == run[|steps|];
    t := Do(s, step);
    var run', steps' := run + [t], steps + [step];
    assert IsRun(run', steps') && t == run'[|steps'|];
  }

  /** A SUBMIT finds the one row of the table free, and gets its worker. */
  lemma HandOver(s: State, seqnum: nat) returns (t: State)
    requires Reachable(s) && s.pc == Head && |s.table| == 1 && s.table[0].ptr == NULL
    ensures Reachable(t) && var id := |s.submits|;
      t == s.(table := [Row(id, seqnum)], count := s.count + 1,
              submits := s.submits + [Submit(seqnum, Running(0), false)])
  {
    hide Reachable;
    var id := |s.submits|;
    t := RowTaken(s, seqnum);
    t := Go(t, Reader(Well));
    assert t == s.(table := [Row(id, seqnum)], pc := CountIn(id, 0, false),
                   submits := s.submits + [Submit(seqnum, Claiming(0), false)]);
    t := Go(t, Reader(Well));
    t := Go(t, Reader(Well));
  }

  lemma RowTaken(s: State, seqnum: nat) returns (t: State)
    requires Reachable(s) && s.pc == Head && |s.table| == 1 && s.table[0].ptr == NULL
    ensures Reachable(t) && var id := |s.submits|;
      t == s.(table := [Row(id, s.table[0].seqnum)], pc := SetSeq(id, 0, false),
              submits := s.submits + [Submit(seqnum, Claiming(0), false)])
  {
    hide Reachable;
    var id := |s.submits|;
    t := Go(s, Reader(GotSubmit(seqnum)));
    t := Go(t, Reader(Accept));
    t := Go(t, Reader(Well));
    assert t == s.(pc := Take(id, 0, false), submits := s.submits + [Submit(seqnum, Handling, false)]);
    t := Go(t, Reader(Well));
  }

  /** A run may begin with a table of one row. */
  lemma OneRow() returns (s: State)
    ensures Reachable(s) && s == State([Row(NULL, 0)], 0, [], NULL, false, Head, [])
  {
    s := State([Row(NULL, 0)], 0, [], NULL, false, Head, []);
    var none: seq<Step> := [];
    assert IsRun([s], none) && s == [s][|none|];
  }

  /** A lone SUBMIT is answered; its worker has yet to clear the row's number. */
  lemma HalfFreed() returns (s: State)
    ensures Reachable(s)
    ensures s == State([Row(NULL, 1)], 1, [Submit(1, Unlinked(0, true), false)], NULL, false, Head, [Reply(0, 1)])
  {
    hide Reachable;
    s := OneRow();
    s := HandOver(s, 1);
    s := Go(s, Worker(0));
    s := Go(s, Worker(0));
    s := Go(s, Worker(0));
  }

  /** With one row, SUBMIT 2 takes the row that SUBMIT 1's worker has just given up, and the worker
      then clears the row's number. */
  lemma NumberGone() returns (s: State)
    ensures Reachable(s) && s.table == [Row(1, 0)] && s.pc == Head && s.mutex == NULL
    ensures s.submits == [Submit(1, Cleared(0, true), false), Submit(2, Running(0), false)]
  {
    hide Reachable;
    s := HalfFreed();
    s := HandOver(s, 2);
    s := Go(s, Worker(0));
  }

  /** So UNLINK of 2 can find nothing: it is answered, and SUBMIT 2 goes on. */
  lemma UnlinkCanMiss() returns (s: State)
    ensures Reachable(s) && s.pc == AnswerUnlink(2)
    ensures |s.submits| == 2 && s.submits[1] == Submit(2, Running(0), false)
  {
    hide Reachable;
    s := NumberGone();
    s := Go(s, Reader(GotUnlink(2)));
    s := Go(s, Reader(Well));
    s := Go(s, Reader(Well));
    assert s.pc == SeekPtr(2, 1);
    s := Go(s, Reader(Well));
  }

  /** An UNLINK of 0 stops at the row without a number. */
  lemma ZeroFound() returns (s: State)
    ensures Reachable(s) && s.pc == LoadRow(0, 0) && s.table == [Row(1, 0)]
    ensures |s.submits| == 2 && s.submits[1] == Submit(2, Running(0), false)
  {
    hide Reachable;
    s := NumberGone();
    s := Go(s, Reader(GotUnlink(0)));
    assert s.pc == SeekPtr(0, 0);
    s := Go(s, Reader(Well));
    s := Go(s, Reader(Well));
    assert s.pc == TestRow(0, 0);
    s := Go(s, Reader(Well));
  }

  /** And so it can cancel SUBMIT 2. */
  lemma UnlinkOfZeroHitsAnother() returns (s: State)
    ensures Reachable(s) && s.pc == AnswerUnlink(0)
    ensures |s.submits| == 2 && s.submits[1] == Submit(2, Running(0), true)
  {
    hide Reachable;
    s := ZeroFound();
    s := Go(s, Reader(Well));
    assert s.pc == StoreRow(0, 0, 1);
    s := Go(s, Reader(Well));
  }

  // ---------------------------------------------------------------------------------------
  // Where an UNLINK lands

  predicate Owned(s: State, q: nat) { q < |s.submits| && RowOf(s.submits[q].stage) != NULL }

  /** No other SUBMIT that has a row is numbered x. */
  ghost predicate OnlyOne(s: State, x: nat, id: nat) {
    forall q: nat | Owned(s, q) && q != id :: s.submits[q].seqnum != x
  }

  predicate OnUnlink(pc: Pc, x: nat) {
    && (pc.SeekPtr? || pc.SeekSeq? || pc.TestRow? || pc.LoadRow? || pc.StoreRow? || pc.AnswerUnlink?)
    && pc.seqnum == x
  }

  /** The search is about to take a row for an UNLINK of 0, whose number has been cleared there or
      whose owner has just gone. */
  predicate StopsAtZero(s: State, row: nat) {
    && s.pc.SeekSeq? && s.pc.seqnum == 0 && s.pc.i != row && s.pc.i < |s.table| && s.table[s.pc.i].seqnum == 0
    && (s.table[s.pc.i].ptr == NULL || (s.table[s.pc.i].ptr >= 0 && NumberLost(s, s.table[s.pc.i].ptr, s.pc.i)))
  }

  /** The search is about to pass by the row of SUBMIT id, or to stop at another. */
  predicate Misses(s: State, id: nat, row: nat) {
    (s.pc.SeekSeq? && NumberLost(s, id, row)) || StopsAtZero(s, row)
  }

  /** How an UNLINK of x is getting on with SUBMIT id, which had that row when it began. */
  ghost predicate OnTrack(s: State, x: nat, id: nat, row: nat) {
    && id < |s.submits| && row < |s.table|
    && s.submits[id].seqnum == x && OnlyOne(s, x, id)
    && OnUnlink(s.pc, x)
    && (s.pc.SeekSeq? && x != 0 && s.pc.i < |s.table| && s.table[s.pc.i].seqnum == x ==> s.pc.i == row)
    && RowOf(s.submits[id].stage) in {row, NULL}
    && (s.submits[id].cancel || Answered(s.submits[id].stage)
        || (RowOf(s.submits[id].stage) == row && Nearing(s.pc, id, row)))
  }

  predicate Nearing(pc: Pc, id: nat, row: nat) {
    match pc
    case SeekPtr(_, i) => i <= row
    case SeekSeq(_, i) => i <= row
    case TestRow(_, i) => i == row
    case LoadRow(_, i) => i == row
    case StoreRow(_, i, p) => i == row && p == id
    case _ => false
  }

  lemma TrackedRead(s: State, c: Choice, x: nat, id: nat, row: nat)
    requires Inv(s) && ReaderEnabled(s, c) && OnTrack(s, x, id, row) && OnUnlink(Read(s, c).pc, x)
    ensures OnTrack(Read(s, c), x, id, row) || Misses(s, id, row)
  {
    hide Tally;
    assert SubmitInv(s, id);
    var i, t := if s.pc.SeekPtr? then s.pc.i else FlagRow(s.pc), Read(s, c);
    if 0 <= i < |s.table| {
      assert RowInv(s, i);
      if s.table[i].ptr != NULL { assert Owned(s, s.table[i].ptr); }
    }
    assert forall q: nat | q < |s.submits| ::
      t.submits[q].stage == s.submits[q].stage && t.submits[q].seqnum == s.submits[q].seqnum;
    assert forall q: nat | Owned(t, q) :: Owned(s, q);
  }

  lemma TrackedWork(s: State, w: nat, x: nat, id: nat, row: nat)
    requires Inv(s) && WorkerEnabled(s, w) && OnTrack(s, x, id, row)
    ensures OnTrack(Work(s, w), x, id, row)
  {
    hide Work, Tally;
    assert SubmitInv(s, w) && SubmitInv(s, id);
    RowsOnlyGoDown(s, w);
    var t := Work(s, w);
    forall q: nat | Owned(t, q) && q != id ensures t.submits[q].seqnum != x {
      assert Owned(s, q);
    }
  }

  /** A worker's step gives out no row and no number. */
  lemma RowsOnlyGoDown(s: State, w: nat)
    requires WorkerEnabled(s, w) && SubmitInv(s, w)
    ensures
      var t := Work(s, w);
      && t.pc == s.pc && |t.submits| == |s.submits| && |t.table| == |s.table|
      && (forall i | 0 <= i < |t.table| :: t.table[i].seqnum in {s.table[i].seqnum, 0})
      && (forall q | 0 <= q < |t.submits| ::
            && t.submits[q].seqnum == s.submits[q].seqnum && t.submits[q].cancel == s.submits[q].cancel
            && RowOf(t.submits[q].stage) in {RowOf(s.submits[q].stage), NULL}
            && (RowOf(t.submits[q].stage) != RowOf(s.submits[q].stage) ==> Answered(t.submits[q].stage))
            && (Answered(s.submits[q].stage) ==> Answered(t.submits[q].stage)))
  {}

  predicate MissesAt(run: seq<State>, k: nat, id: nat, row: nat) { k < |run| && Misses(run[k], id, row) }

  /** The reader is about to start looking for x, and SUBMIT id alone has a row under that number. */
  ghost predicate Sought(s: State, x: nat, id: nat) {
    s.pc == SeekPtr(x, 0) && Owned(s, id) && s.submits[id].seqnum == x && OnlyOne(s, x, id)
  }

  /** From state m to state n the reader is with one and the same UNLINK of x. */
  ghost predicate DuringUnlink(run: seq<State>, m: nat, n: nat, x: nat) {
    m <= n < |run| && forall k | m <= k <= n :: OnUnlink(run[k].pc, x)
  }

  lemma {:induction false} Tracked(run: seq<State>, steps: seq<Step>, m: nat, n: nat, x: nat, id: nat, row: nat)
    requires IsRun(run, steps) && DuringUnlink(run, m, n, x)
    requires Sought(run[m], x, id) && row == RowOf(run[m].submits[id].stage)
    ensures OnTrack(run[n], x, id, row) || exists k: nat :: m <= k < n && MissesAt(run, k, id, row)
    decreases n
  {
    hide Tally, Inv, Read, Work, OnTrack, Misses;
    if n == m {
      RunInv(run, steps, m);
      TrackStarts(run[m], x, id);
    } else {
      Tracked(run, steps, m, n - 1, x, id, row);
      if OnTrack(run[n - 1], x, id, row) {
        RunInv(run, steps, n - 1);
        assert Enabled(run[n - 1], steps[n - 1]) && run[n] == Do(run[n - 1], steps[n - 1]);
        match steps[n - 1] {
          case Worker(w) => TrackedWork(run[n - 1], w, x, id, row);
          case Reader(c) => TrackedRead(run[n - 1], c, x, id, row);
        }
        assert OnTrack(run[n], x, id, row) || MissesAt(run, n - 1, id, row);
      }
    }
  }

  lemma TrackStarts(s: State, x: nat, id: nat)
    requires Inv(s) && Sought(s, x, id)
    ensures OnTrack(s, x, id, RowOf(s.submits[id].stage))
  {
    assert SubmitInv(s, id);
  }

  /** A search for the number of SUBMIT id takes its row if and only if the number has not been
      lost there. */
  lemma UnlinkFindsExactly(run: seq<State>, steps: seq<Step>, n: nat, c: Choice, id: nat)
    requires IsRun(run, steps) && n < |run| && run[n].pc.SeekSeq?
    requires Owned(run[n], id) && RowOf(run[n].submits[id].stage) == run[n].pc.i
    requires run[n].submits[id].seqnum == run[n].pc.seqnum
    ensures run[n].pc.i < |run[n].table|
    ensures Read(run[n], c).pc == TestRow(run[n].pc.seqnum, run[n].pc.i) <==> !NumberLost(run[n], id, run[n].pc.i)
  {
    RunInv(run, steps, n);
    assert SubmitInv(run[n], id);
    assert RowInv(run[n], run[n].pc.i);
  }

  /** So an UNLINK of x, once answered, has cancelled the one SUBMIT that had a row under that number
      when it began, unless that has been answered itself, or it lost its number to the row's last
      owner, or x is 0 and the search stopped early at a row whose number had been cleared. */
  lemma UnlinkReachesUnlessLate(run: seq<State>, steps: seq<Step>, m: nat, n: nat, x: nat, id: nat)
    requires IsRun(run, steps) && DuringUnlink(run, m, n, x) && run[n].pc.AnswerUnlink?
    requires Sought(run[m], x, id)
    ensures
      var row := RowOf(run[m].submits[id].stage);
      || (id < |run[n].submits| && (run[n].submits[id].cancel || Answered(run[n].submits[id].stage)))
      || (x != 0 && exists k: nat, q: nat :: k < n && LostAt(run, k, q, id, row))
      || (x == 0 && exists k: nat :: m <= k < n && StopsAtZero(run[k], row))
  {
    hide IsRun, LostAt;
    var row := RowOf(run[m].submits[id].stage);
    Tracked(run, steps, m, n, x, id, row);
    if !OnTrack(run[n], x, id, row) {
      var k: nat :| m <= k < n && MissesAt(run, k, id, row);
      assert OnUnlink(run[k].pc, x);
      if !StopsAtZero(run[k], row) {
        SameNumber(run, steps, m, k, id);
        LostToLastOwner(run, steps, k, id, row);
      }
    }
  }

  /** The number of a SUBMIT never changes. */
  lemma {:induction false} SameNumber(run: seq<State>, steps: seq<Step>, m: nat, n: nat, id: nat)
    requires IsRun(run, steps) && m <= n < |run| && id < |run[m].submits|
    ensures id < |run[n].submits| && run[n].submits[id].seqnum == run[m].submits[id].seqnum
    decreases n
  {
    hide Do;
    if m < n {
      SameNumber(run, steps, m, n - 1, id);
      NumberKept(run[n - 1], steps[n - 1], id);
    }
  }

  lemma NumberKept(s: State, step: Step, id: nat)
    requires Enabled(s, step) && id < |s.submits|
    ensures id < |Do(s, step).submits| && Do(s, step).submits[id].seqnum == s.submits[id].seqnum
  {
    hide Read, Work;
    match step
    case Reader(c) => NumberKeptByReader(s, c, id);
    case Worker(w) => NumberKeptByWorker(s, w, id);
  }

  lemma NumberKeptByReader(s: State, c: Choice, id: nat)
    requires ReaderEnabled(s, c) && InRange(s) && id < |s.submits|
    ensures id < |Read(s, c).submits| && Read(s, c).submits[id].seqnum == s.submits[id].seqnum
  {}

  lemma NumberKeptByWorker(s: State, w: nat, id: nat)
    requires WorkerEnabled(s, w) && id < |s.submits|
    ensures id < |Work(s, w).submits| && Work(s, w).submits[id].seqnum == s.submits[id].seqnum
  {}

  // ---------------------------------------------------------------------------------------
  // The stores through a row's pointer

  /** The reader tests row i at state k, and the row leads to SUBMIT q. */
  predicate TestedAt(run: seq<State>, k: nat, i: nat, q: nat) {
    && k < |run| && (run[k].pc.TestRow? || run[k].pc.CancelTest?) && run[k].pc.i == i < |run[k].table|
    && q < |run[k].submits| && run[k].table[i].ptr == q
  }

  /** Behind the test of a row, up to the store. */
  predicate PastTest(pc: Pc) { pc.LoadRow? || pc.StoreRow? || pc.CancelLoad? || pc.CancelStore? }

  /** What the reader knows of a row that led to SUBMIT q when it was tested. */
  predicate Follows(s: State, q: nat) {
    PastTest(s.pc) && s.pc.i < |s.table| && q < |s.submits| && Loaded(s, s.pc.i, q) && Target(s.pc) in {q, NULL}
  }

  lemma FollowsTest(s: State, c: Choice)
    requires Inv(s) && ReaderEnabled(s, c) && !PastTest(s.pc) && PastTest(Read(s, c).pc)
    ensures s.pc.TestRow? || s.pc.CancelTest?
    ensures
      var t := Read(s, c);
      s.pc.i == t.pc.i < |s.table| && 0 <= s.table[s.pc.i].ptr < |s.submits| && Follows(t, s.table[s.pc.i].ptr)
  {
    hide Tally;
    if s.pc.TestRow? || (s.pc.CancelTest? && s.pc.i < |s.table|) { assert RowInv(s, s.pc.i); }
  }

  lemma FollowsOn(s: State, step: Step, q: nat)
    requires Inv(s) && Enabled(s, step) && Follows(s, q) && PastTest(Do(s, step).pc)
    ensures Do(s, step).pc.i == s.pc.i && Follows(Do(s, step), q)
  {
    hide Tally, Work;
    if step.Worker? {
      assert SubmitInv(s, step.id);
      FollowsUnderWork(s, step.id, q);
    }
  }

  lemma FollowsUnderWork(s: State, id: nat, q: nat)
    requires InRange(s) && WorkerEnabled(s, id) && SubmitInv(s, id) && Follows(s, q)
    ensures Work(s, id).pc == s.pc && Follows(Work(s, id), q)
  {}

  lemma WorkersStay(s: State, id: nat)
    requires WorkerEnabled(s, id)
    ensures Work(s, id).pc == s.pc && |Work(s, id).submits| == |s.submits|
    ensures forall q | 0 <= q < |s.submits| :: Work(s, id).submits[q].cancel == s.submits[q].cancel
  {}

  lemma {:induction false} TestedBefore(run: seq<State>, steps: seq<Step>, n: nat) returns (k: nat, q: nat)
    requires IsRun(run, steps) && n < |run| && PastTest(run[n].pc)
    ensures Follows(run[n], q) && k < n && TestedAt(run, k, run[n].pc.i, q)
  {
    hide Inv, Tally, Read, Work, Follows;
    var s, step := run[n - 1], steps[n - 1];
    assert Enabled(s, step) && run[n] == Do(s, step);
    RunInv(run, steps, n - 1);
    if PastTest(s.pc) {
      k, q := TestedBefore(run, steps, n - 1);
      FollowsOn(s, step, q);
    } else {
      if step.Worker? { WorkersStay(s, step.id); }
      FollowsTest(s, step.c);
      k, q := n - 1, s.table[s.pc.i].ptr;
    }
  }

  /** A store through a row's pointer, by an UNLINK or the teardown, raises the flag of the SUBMIT
      that the row led to when it was tested, or else that one's worker has replied since and
      given the row up. */
  lemma StoreReachesUnlessGivenUp(run: seq<State>, steps: seq<Step>, n: nat, c: Choice) returns (k: nat, q: nat)
    requires IsRun(run, steps) && n < |run| && (run[n].pc.StoreRow? || run[n].pc.CancelStore?)
    ensures k < n && TestedAt(run, k, run[n].pc.i, q)
    ensures run[n].pc.i < |run[n].table| && q < |run[n].submits|
    ensures LeadsToItem(run[n], run[n].pc.p) ==> run[n].pc.p == q && Read(run[n], c).submits[q].cancel
    ensures !LeadsToItem(run[n], run[n].pc.p) ==>
      run[n].table[run[n].pc.i].ptr == NULL && Answered(run[n].submits[q].stage)
  {
    k, q := TestedBefore(run, steps, n);
    RunInv(run, steps, n);
  }

  /** Both ways of missing happen: the pointer is loaded after it has been cleared, or it is stored
      through after the item has been freed. */
  lemma StoreCanMiss() returns (s: State, t: State)
    ensures Reachable(s) && s.pc == StoreRow(1, 0, NULL)
    ensures Reachable(t) && t.pc == StoreRow(1, 0, 0) && t.submits == [Submit(1, Exited, false)]
  {
    hide Reachable;
    s := ToTheTest();
    s := Go(s, Reader(Well));
    t := Go(s, Reader(Well));
    s := Go(s, Worker(0));
    s := Go(s, Reader(Well));
    t := Go(t, Worker(0));
    t := Go(t, Worker(0));
    t := Go(t, Worker(0));
  }

  /** A lone SUBMIT has replied, while an UNLINK of it has found its row. */
  lemma ToTheTest() returns (s: State)
    ensures Reachable(s)
    ensures s == State([Row(0, 1)], 1, [Submit(1, Sent(0), false)], NULL, false, TestRow(1, 0), [Reply(0, 1)])
  {
    hide Reachable;
    s := OneRow();
    s := HandOver(s, 1);
    s := Go(s, Worker(0));
    s := Go(s, Worker(0));
    s := Go(s, Reader(GotUnlink(1)));
    s := Go(s, Reader(Well));
    s := Go(s, Reader(Well));
  }

  /** A flag is raised by nothing but such a store, and only that of the SUBMIT it leads to.  If the
      store is that of an UNLINK of x, this SUBMIT is not numbered x if and only if x is 0, the
      SUBMIT is numbered otherwise and its row has no number any more. */
  lemma UnlinkHitsOnlyItsTarget(run: seq<State>, steps: seq<Step>, n: nat, step: Step, id: nat)
    requires IsRun(run, steps) && n < |run| && Enabled(run[n], step) && id < |run[n].submits|
    requires Do(run[n], step).submits[id].cancel != run[n].submits[id].cancel
    ensures Do(run[n], step).submits[id].cancel
    ensures step.Reader? && (run[n].pc.StoreRow? || run[n].pc.CancelStore?) && run[n].pc.p == id
    ensures run[n].pc.i < |run[n].table|
    ensures run[n].pc.StoreRow? ==>
      (run[n].submits[id].seqnum != run[n].pc.seqnum <==>
        run[n].pc.seqnum == 0 && run[n].submits[id].seqnum != 0 && run[n].table[run[n].pc.i].seqnum == 0)
  {
    hide Do, Enabled, IsRun, Tally;
    RunInv(run, steps, n);
    NumberKept(run[n], step, id);
    OnlyStoresRaise(run[n], step, id);
  }

  lemma OnlyStoresRaise(s: State, step: Step, id: nat)
    requires Enabled(s, step) && id < |s.submits| && id < |Do(s, step).submits|
    requires Do(s, step).submits[id].cancel != s.submits[id].cancel
    ensures Do(s, step).submits[id].cancel && step.Reader? && (s.pc.StoreRow? || s.pc.CancelStore?) && s.pc.p == id
  {
    hide Read, Work;
    match step
    case Worker(w) => WorkersStay(s, w);
    case Reader(c) => ReaderRaises(s, c, id);
  }

  lemma ReaderRaises(s: State, c: Choice, id: nat)
    requires ReaderEnabled(s, c) && InRange(s) && id < |s.submits| && id < |Read(s, c).submits|
    requires Read(s, c).submits[id].cancel != s.submits[id].cancel
    ensures Read(s, c).submits[id].cancel && (s.pc.StoreRow? || s.pc.CancelStore?) && s.pc.p == id
  {}

  /** And if it is not, it lost its number to the row's last owner. */
  lemma {:induction false} UnlinkHitsAnotherOnlyWhenLost(run: seq<State>, steps: seq<Step>, n: nat)
    requires IsRun(run, steps) && n < |run| && run[n].pc.StoreRow? && run[n].pc.p != NULL
    requires 0 <= run[n].pc.p < |run[n].submits| && run[n].submits[run[n].pc.p].seqnum != run[n].pc.seqnum
    ensures exists k: nat, q: nat :: k < n && LostAt(run, k, q, run[n].pc.p, run[n].pc.i)
  {
    hide Tally, LostAt, Read, Work, Inv;
    var p, i := run[n].pc.p, run[n].pc.i;
    RunInv(run, steps, n);
    if LostNow(run[n]) {
      LostToLastOwner(run, steps, n, p, i);
    } else {
      var s, step := run[n - 1], steps[n - 1];
      assert Enabled(s, step) && run[n] == Do(s, step);
      RunInv(run, steps, n - 1);
      LostBefore(s, step);
      UnlinkHitsAnotherOnlyWhenLost(run, steps, n - 1);
    }
  }

  predicate LostNow(s: State) { s.pc.StoreRow? && s.pc.p >= 0 && NumberLost(s, s.pc.p, s.pc.i) }

  /** If the row has been given up, the store was already on its way. */
  lemma LostBefore(s: State, step: Step)
    requires Inv(s) && Enabled(s, step) && Inv(Do(s, step))
    requires
      var t := Do(s, step);
      t.pc.StoreRow? && 0 <= t.pc.p < |t.submits| && t.submits[t.pc.p].seqnum != t.pc.seqnum && !LostNow(t)
    ensures s.pc == Do(s, step).pc && s.pc.p < |s.submits|
    ensures s.submits[s.pc.p].seqnum == Do(s, step).submits[s.pc.p].seqnum
  {
    hide Tally;
  }

  // ---------------------------------------------------------------------------------------
  // The reader's way

  /** A send that failed, or a stream that broke off. */
  predicate Fails(pc: Pc, c: Choice) {
    ((pc.Head? || pc.Validate?) && c.Broken?) || ((pc.Answer? || pc.AnswerUnlink?) && c.Failed?)
  }

  /** A step of the reader begins the teardown if and only if the socket has failed it. */
  lemma TearsDownExactly(run: seq<State>, steps: seq<Step>, n: nat, c: Choice)
    requires IsRun(run, steps) && n < |run| && ReaderEnabled(run[n], c) && InRange(run[n])
    ensures Read(run[n], c).pc.Cleanup? <==> Fails(run[n].pc, c)
  {
    hide Tally, Inv;
    NeverAbandons(run, steps, n);
  }

  /** So whoever finds the connection being torn down finds that failure in its past. */
  lemma {:induction false} TornDownByFailure(run: seq<State>, steps: seq<Step>, n: nat) returns (k: nat)
    requires IsRun(run, steps) && n < |run|
    requires run[n].pc.Cleanup? || Cancelling(run[n].pc) || run[n].pc.Drain? || run[n].pc.Gone?
    ensures k < n && steps[k].Reader? && Fails(run[k].pc, steps[k].c)
  {
    hide Read, Work, Inv, Tally;
    var s, step := run[n - 1], steps[n - 1];
    assert Enabled(s, step) && run[n] == Do(s, step);
    if step.Worker? {
      WorkersStay(s, step.id);
      k := TornDownByFailure(run, steps, n - 1);
    } else if s.pc.Cleanup? || Cancelling(s.pc) || s.pc.Drain? {
      k := TornDownByFailure(run, steps, n - 1);
    } else {
      Enters(s, step.c);
      TearsDownExactly(run, steps, n - 1, step.c);
      k := n - 1;
    }
  }

  lemma Enters(s: State, c: Choice)
    requires ReaderEnabled(s, c) && InRange(s) && !(s.pc.Cleanup? || Cancelling(s.pc) || s.pc.Drain?)
    ensures var t := Read(s, c).pc; t.Cleanup? || Cancelling(t) || t.Drain? || t.Gone? ==> t.Cleanup?
  {}

  /** How many steps an UNLINK takes at most from here. */
  function StepsLeft(pc: Pc, rows: nat): int {
    match pc
    case SeekPtr(_, i) => if i >= rows then 2 else 2 * (rows - i) + 5
    case SeekSeq(_, i) => 2 * (rows - i) + 4
    case TestRow(_, _) => 4
    case LoadRow(_, _) => 3
    case StoreRow(_, _, _) => 2
    case _ => 1
  }

  /** An UNLINK comes closer to its end with every step of the reader, and the reader goes on to
      another PDU only after answering it. */
  lemma UnlinkIsAnswered(run: seq<State>, steps: seq<Step>, n: nat, c: Choice, x: nat)
    requires IsRun(run, steps) && n < |run| && ReaderEnabled(run[n], c) && InRange(run[n])
    requires OnUnlink(run[n].pc, x)
    ensures
      var s, t := run[n], Read(run[n], c);
      if s.pc.AnswerUnlink? then t.pc == (if c.Failed? then Cleanup else Head)
      else OnUnlink(t.pc, x) && 0 < StepsLeft(t.pc, |t.table|) < StepsLeft(s.pc, |s.table|)
  {}

  /** Row j was in use when the reader came by, looking for a row for SUBMIT id. */
  predicate PassedBy(run: seq<State>, m: nat, id: nat, j: nat) {
    && m < |run| && run[m].pc.Probe? && run[m].pc.id == id && run[m].pc.i == j < |run[m].table|
    && run[m].table[j].ptr != NULL
  }

  /** A SUBMIT is passed by no free row: each row before the one it is at was in use. */
  lemma {:induction false} ProbedInUse(run: seq<State>, steps: seq<Step>, n: nat, j: nat) returns (m: nat)
    requires IsRun(run, steps) && n < |run| && j < |run[n].table|
    requires (run[n].pc.Probe? || run[n].pc.Take?) && j < run[n].pc.i
    ensures m < n && PassedBy(run, m, run[n].pc.id, j)
  {
    hide Read, Work, Tally, Inv;
    var s, step := run[n - 1], steps[n - 1];
    assert Enabled(s, step) && run[n] == Do(s, step);
    if step.Worker? {
      WorkersStay(s, step.id);
      WorkersRows(s, step.id);
      m := ProbedInUse(run, steps, n - 1, j);
    } else {
      ProbesOn(s, step.c);
      if j == s.pc.i {
        m := n - 1;
      } else {
        m := ProbedInUse(run, steps, n - 1, j);
      }
    }
  }

  lemma WorkersRows(s: State, id: nat)
    requires WorkerEnabled(s, id)
    ensures |Work(s, id).table| == |s.table|
  {}

  lemma ProbesOn(s: State, c: Choice)
    requires ReaderEnabled(s, c) && InRange(s)
    ensures
      var t := Read(s, c);
      (t.pc.Probe? || t.pc.Take?) && 0 < t.pc.i ==>
        && s.pc.Probe? && s.pc.id == t.pc.id && |t.table| == |s.table| && s.pc.i < |s.table|
        && (if t.pc.Take? then s.pc.i == t.pc.i else s.pc.i + 1 == t.pc.i && s.table[s.pc.i].ptr != NULL)
  {}

  /** Cancel flags only ever go up. */
  lemma {:induction false} FlagsStayUp(run: seq<State>, steps: seq<Step>, n: nat, m: nat, id: nat)
    requires IsRun(run, steps) && n <= m < |run| && id < |run[n].submits| && run[n].submits[id].cancel
    ensures id < |run[m].submits| && run[m].submits[id].cancel
    decreases m
  {
    hide Do;
    if n < m {
      FlagsStayUp(run, steps, n, m - 1, id);
      FlagKept(run[m - 1], steps[m - 1], id);
    }
  }

  lemma FlagKept(s: State, step: Step, id: nat)
    requires Enabled(s, step) && id < |s.submits| && s.submits[id].cancel
    ensures id < |Do(s, step).submits| && Do(s, step).submits[id].cancel
  {
    hide Read, Work;
    match step
    case Reader(c) => FlagKeptByReader(s, c, id);
    case Worker(w) => FlagKeptByWorker(s, w, id);
  }

  lemma FlagKeptByReader(s: State, c: Choice, id: nat)
    requires ReaderEnabled(s, c) && InRange(s) && id < |s.submits| && s.submits[id].cancel
    ensures id < |Read(s, c).submits| && Read(s, c).submits[id].cancel
  {}

  lemma FlagKeptByWorker(s: State, w: nat, id: nat)
    requires WorkerEnabled(s, w) && id < |s.submits| && s.submits[id].cancel
    ensures id < |Work(s, w).submits| && Work(s, w).submits[id].cancel
  {}
}
