/** What every interleaving of a connection's reader and workers keeps. */
module UrbStreamSafety {
  import opened UrbStream

  /** How many SUBMITs are in a stage that f picks. */
  function Tally(ss: seq<Submit>, f: Stage -> bool): nat {
    if ss == [] then 0
    else Tally(ss[..|ss| - 1], f) + if f(ss[|ss| - 1].stage) then 1 else 0
  }

  lemma {:induction false} TallyPut(ss: seq<Submit>, id: nat, x: Submit, f: Stage -> bool)
    requires id < |ss|
    ensures Tally(ss[id := x], f) ==
              Tally(ss, f) + (if f(x.stage) then 1 else 0) - (if f(ss[id].stage) then 1 else 0)
  {
    var init := ss[..|ss| - 1];
    if id == |ss| - 1 {
      assert ss[id := x][..|ss| - 1] == init;
    } else {
      TallyPut(init, id, x, f);
      assert ss[id := x][..|ss| - 1] == init[id := x];
    }
  }

  lemma TallyPush(ss: seq<Submit>, x: Submit, f: Stage -> bool)
    ensures Tally(ss + [x], f) == Tally(ss, f) + if f(x.stage) then 1 else 0
  {
    assert (ss + [x])[..|ss|] == ss;
  }

  lemma {:induction false} TallyNone(ss: seq<Submit>, f: Stage -> bool)
    requires forall x | x in ss :: !f(x.stage)
    ensures Tally(ss, f) == 0
  {
    if ss != [] { TallyNone(ss[..|ss| - 1], f); }
  }

  lemma {:induction false} TallySome(ss: seq<Submit>, f: Stage -> bool) returns (id: nat)
    requires Tally(ss, f) > 0
    ensures id < |ss| && f(ss[id].stage)
  {
    if f(ss[|ss| - 1].stage) {
      id := |ss| - 1;
    } else {
      id := TallySome(ss[..|ss| - 1], f);
    }
  }

  // ---------------------------------------------------------------------------------------
  // The invariant

  /** Counted in inflight_count. */
  predicate Counted(stage: Stage) {
    stage.Claimed? || stage.Running? || stage.Sending? || stage.Sent? || stage.Unlinked? || stage.Cleared?
  }

  /** A reply has been attempted. */
  predicate Answered(stage: Stage) {
    stage.Sent? || stage.Exited? || stage.Rejected? || ((stage.Unlinked? || stage.Cleared?) && stage.replied)
  }

  /** With its worker, and not answered. */
  predicate Live(stage: Stage) {
    stage.Running? || stage.Sending?
  }

  /** With the reader. */
  predicate Held(stage: Stage) {
    stage.Handling? || stage.Claiming? || stage.Claimed? || ((stage.Unlinked? || stage.Cleared?) && !stage.replied)
  }

  predicate Lost(stage: Stage) { stage.Dropped? }

  /** The row whose pointer leads to it, or NULL. */
  function RowOf(stage: Stage): int {
    if stage.Claiming? || stage.Claimed? || stage.Running? || stage.Sending? || stage.Sent? then stage.row else NULL
  }

  /** The stage of the SUBMIT that the reader holds. */
  predicate HeldAs(pc: Pc, stage: Stage) {
    match pc
    case Validate(_) => stage == Handling
    case Answer(_) => stage == Handling
    case Probe(_, _, _) => stage == Handling
    case Take(_, _, _) => stage == Handling
    case SetSeq(_, i, _) => stage == Claiming(i)
    case CountIn(_, i, _) => stage == Claiming(i)
    case Spawn(_, i) => stage == Claimed(i)
    case Undo(_, i) => stage == Claimed(i)
    case UndoSeq(_, i) => stage == Unlinked(i, false)
    case UndoCount(_, i) => stage == Cleared(i, false)
    case _ => false
  }

  ghost predicate SubmitInv(s: State, id: nat)
    requires id < |s.submits|
  {
    var stage := s.submits[id].stage;
    && (RowOf(stage) != NULL ==> RowOf(stage) < |s.table| && s.table[RowOf(stage)].ptr == id)
    && (stage.Unlinked? ==> stage.row < |s.table|)
    && (Held(stage) <==> PcId(s.pc) == id)
    && (Held(stage) ==> HeldAs(s.pc, stage))
    && (stage.Sending? <==> s.mutex == id)
  }

  ghost predicate RowInv(s: State, i: nat)
    requires i < |s.table|
  {
    var row := s.table[i];
    && (row.ptr == NULL || (0 <= row.ptr < |s.submits| && RowOf(s.submits[row.ptr].stage) == i))
    && (row.ptr != NULL && !(s.pc.SetSeq? && s.pc.i == i) ==> row.seqnum in {s.submits[row.ptr].seqnum, 0})
    && (row.ptr != NULL && (s.pc.Drain? || s.pc.Gone? || (Cancelling(s.pc) && i < s.pc.i)) ==>
          s.submits[row.ptr].cancel)
  }

  predicate Cancelling(pc: Pc) { pc.CancelTest? || pc.CancelLoad? || pc.CancelStore? }

  ghost predicate ReplyInv(s: State, k: nat)
    requires k < |s.replies|
  {
    var r := s.replies[k];
    r.id < |s.submits| && s.submits[r.id].seqnum == r.seqnum && Answered(s.submits[r.id].stage)
  }

  ghost predicate Inv(s: State) {
    && InRange(s)
    && (forall id | 0 <= id < |s.submits| :: SubmitInv(s, id))
    && (forall i | 0 <= i < |s.table| :: RowInv(s, i))
    && (forall k | 0 <= k < |s.replies| :: ReplyInv(s, k))
    && (forall j, k | 0 <= j < k < |s.replies| :: s.replies[j].id != s.replies[k].id)
    && (s.mutex == NULL || 0 <= s.mutex < |s.submits|)
    && (s.cancelled <==> Cancelling(s.pc) || s.pc.Drain? || s.pc.Gone?)
    && !s.pc.Abandon?
    && s.count == Tally(s.submits, Counted)
    && |s.replies| == Tally(s.submits, Answered)
    && WayInv(s)
  }

  /** SUBMIT p is the one that row i's pointer leads to, or it was, and its worker is past that. */
  predicate HadRow(s: State, p: nat, i: nat)
    requires p < |s.submits| && i < |s.table|
  {
    var stage := s.submits[p].stage;
    if s.table[i].ptr == p then RowOf(stage) == i
    else stage.Exited? || (stage.Unlinked? && stage.replied && stage.row == i) || (stage.Cleared? && stage.replied)
  }

  /** SUBMIT p has the number x, or its row shows x because its number has been cleared there. */
  predicate Shows(s: State, p: nat, i: nat, x: nat)
    requires p < |s.submits| && i < |s.table|
  {
    s.submits[p].seqnum == x || (x == 0 && s.table[i].seqnum == 0)
  }

  /** A pointer that has been loaded from row i: it leads where the row's does, unless the row has
      been given up. */
  predicate Loaded(s: State, i: nat, p: int)
    requires i < |s.table|
  {
    s.table[i].ptr in {p, NULL} && (p == NULL || (0 <= p < |s.submits| && HadRow(s, p, i)))
  }

  /** What the reader knows on its way to a row or a flag: nobody else claims rows. */
  predicate WayInv(s: State)
    requires InRange(s)
  {
    match s.pc
    case Take(_, i, _) => s.table[i].ptr == NULL
    case TestRow(x, i) => 0 <= s.table[i].ptr < |s.submits| ==> Shows(s, s.table[i].ptr, i, x)
    case LoadRow(x, i) => 0 <= s.table[i].ptr < |s.submits| ==> Shows(s, s.table[i].ptr, i, x)
    case StoreRow(x, i, p) => Loaded(s, i, p) && (p != NULL ==> Shows(s, p, i, x))
    case CancelStore(i, p) => Loaded(s, i, p)
    case _ => true
  }

  // ---------------------------------------------------------------------------------------
  // Preservation.  A step changes at most one SUBMIT and one row.

  /** The state parts that steps of one SUBMIT and one row leave alone. */
  ghost predicate Local(s: State, t: State, id: nat, i: int)
    requires id < |s.submits|
  {
    && |t.submits| == |s.submits| && |t.table| == |s.table|
    && t.submits == s.submits[id := t.submits[id]] && t.submits[id].seqnum == s.submits[id].seqnum
    && (forall k | 0 <= k < |s.table| && k != i :: t.table[k] == s.table[k])
    && (t.replies == s.replies || t.replies == s.replies + [Reply(id, s.submits[id].seqnum)])
  }

  lemma OthersKept(s: State, t: State, id: nat, i: int)
    requires Inv(s) && id < |s.submits| && Local(s, t, id, i)
    requires RowOf(s.submits[id].stage) in {i, NULL} && RowOf(t.submits[id].stage) in {i, NULL}
    requires 0 <= i < |s.table| ==>
      t.table[i].ptr == s.table[i].ptr || (s.table[i].ptr in {id, NULL} && t.table[i].ptr in {id, NULL})
    requires PcId(s.pc) == PcId(t.pc) || (PcId(s.pc) in {id, NULL} && PcId(t.pc) in {id, NULL})
    requires PcId(s.pc) != id ==> t.pc == s.pc
    requires s.mutex == t.mutex || (s.mutex in {id, NULL} && t.mutex in {id, NULL})
    requires PcId(t.pc) != id ==> t.pc == s.pc || t.pc.Head? || t.pc.Cleanup?
    requires s.pc.SetSeq? ==> s.pc.i == i || t.pc == s.pc
    requires t.submits[id].cancel == s.submits[id].cancel
    ensures forall q | 0 <= q < |t.submits| && q != id :: SubmitInv(t, q)
    ensures forall k | 0 <= k < |t.table| && k != i :: RowInv(t, k)
  {
    forall q | 0 <= q < |t.submits| && q != id ensures SubmitInv(t, q) { assert SubmitInv(s, q); }
    forall k | 0 <= k < |t.table| && k != i ensures RowInv(t, k) { assert RowInv(s, k); }
  }

  /** The reply log after a step about SUBMIT id. */
  lemma RepliesKept(s: State, t: State, id: nat)
    requires Inv(s) && id < |s.submits| && |t.submits| >= |s.submits|
    requires forall q | 0 <= q < |s.submits| && q != id :: t.submits[q] == s.submits[q]
    requires t.submits[id].seqnum == s.submits[id].seqnum
    requires Answered(s.submits[id].stage) ==> Answered(t.submits[id].stage)
    requires
      || t.replies == s.replies
      || (t.replies == s.replies + [Reply(id, s.submits[id].seqnum)]
          && !Answered(s.submits[id].stage) && Answered(t.submits[id].stage))
    ensures forall k | 0 <= k < |t.replies| :: ReplyInv(t, k)
    ensures forall j, k | 0 <= j < k < |t.replies| :: t.replies[j].id != t.replies[k].id
  {
    forall k | 0 <= k < |t.replies| ensures ReplyInv(t, k) {
      if k < |s.replies| { assert ReplyInv(s, k); }
    }
    forall j, k | 0 <= j < k < |t.replies| ensures t.replies[j].id != t.replies[k].id {
      assert ReplyInv(s, j);
    }
  }

  /** What a step about SUBMIT id and row i has to get right itself. */
  ghost predicate OwnKept(s: State, t: State, id: nat, i: int)
    requires id < |s.submits|
  {
    && InRange(t) && Local(s, t, id, i)
    && SubmitInv(t, id) && (0 <= i < |t.table| ==> RowInv(t, i))
    && (t.mutex == NULL || 0 <= t.mutex < |t.submits|)
    && t.submits[id].cancel == s.submits[id].cancel
    && (Answered(s.submits[id].stage) ==> Answered(t.submits[id].stage))
    && (t.replies == s.replies <==> Answered(s.submits[id].stage) == Answered(t.submits[id].stage))
    && t.count == s.count + (if Counted(t.submits[id].stage) then 1 else 0)
                          - (if Counted(s.submits[id].stage) then 1 else 0)
    && |t.replies| == |s.replies| + (if Answered(t.submits[id].stage) then 1 else 0)
                                  - (if Answered(s.submits[id].stage) then 1 else 0)
    && t.cancelled == s.cancelled
    && (t.pc == s.pc || (!t.pc.Abandon? && !t.pc.Gone? && !t.pc.Drain? && !Cancelling(t.pc)))
  }

  lemma Kept(s: State, t: State, id: nat, i: int)
    requires Inv(s) && id < |s.submits| && OwnKept(s, t, id, i)
    requires !s.cancelled || t.pc == s.pc
    requires RowOf(s.submits[id].stage) in {i, NULL} && RowOf(t.submits[id].stage) in {i, NULL}
    requires 0 <= i < |s.table| ==>
      t.table[i].ptr == s.table[i].ptr || (s.table[i].ptr in {id, NULL} && t.table[i].ptr in {id, NULL})
    requires PcId(s.pc) == PcId(t.pc) || (PcId(s.pc) in {id, NULL} && PcId(t.pc) in {id, NULL})
    requires PcId(s.pc) != id ==> t.pc == s.pc
    requires s.mutex == t.mutex || (s.mutex in {id, NULL} && t.mutex in {id, NULL})
    requires PcId(t.pc) != id ==> t.pc == s.pc || t.pc.Head? || t.pc.Cleanup?
    requires s.pc.SetSeq? ==> s.pc.i == i || t.pc == s.pc
    requires WayInv(t)
    ensures Inv(t)
  {
    OthersKept(s, t, id, i);
    RepliesKept(s, t, id);
    TallyPut(s.submits, id, t.submits[id], Counted);
    TallyPut(s.submits, id, t.submits[id], Answered);
  }

  // ---------------------------------------------------------------------------------------
  // The workers

  lemma WorkOwn(s: State, id: nat, i: nat)
    requires InRange(s) && WorkerEnabled(s, id) && SubmitInv(s, id)
    requires s.submits[id].stage.Running? || s.submits[id].stage.Sending? || s.submits[id].stage.Sent?
             || s.submits[id].stage.Unlinked? || s.submits[id].stage.Cleared?
    requires i == s.submits[id].stage.row && (i < |s.table| ==> RowInv(s, i))
    requires s.mutex == NULL || 0 <= s.mutex < |s.submits|
    requires forall q | 0 <= q < |s.submits| :: RowOf(s.submits[q].stage) == i ==> i < |s.table| && s.table[i].ptr == q
    ensures OwnKept(s, Work(s, id), id, i)
  {}

  lemma WorkStep(s: State, id: nat)
    requires Inv(s) && WorkerEnabled(s, id)
    ensures Inv(Work(s, id))
  {
    hide Work, Tally;
    assert SubmitInv(s, id);
    var i := s.submits[id].stage.row;
    if i < |s.table| { assert RowInv(s, i); }
    forall q | 0 <= q < |s.submits| && RowOf(s.submits[q].stage) == i ensures i < |s.table| && s.table[i].ptr == q {
      assert SubmitInv(s, q);
    }
    WorkOwn(s, id, i);
    WorkShape(s, id);
    WorkWay(s, id);
    Kept(s, Work(s, id), id, i);
  }

  lemma WorkShape(s: State, id: nat)
    requires WorkerEnabled(s, id)
    ensures
      var t, i := Work(s, id), s.submits[id].stage.row;
      && t.pc == s.pc && RowOf(t.submits[id].stage) in {i, NULL}
      && (t.mutex == s.mutex || (s.mutex == NULL && t.mutex == id) || (s.submits[id].stage.Sending? && t.mutex == NULL))
      && (i < |s.table| && |t.table| == |s.table| && t.table[i].ptr != s.table[i].ptr ==>
            s.submits[id].stage.Sent? && t.table[i].ptr == NULL)
  {}

  /** A worker's step undoes nothing that the reader has learnt. */
  lemma WorkWay(s: State, id: nat)
    requires Inv(s) && WorkerEnabled(s, id) && InRange(Work(s, id))
    ensures WayInv(Work(s, id))
  {
    hide Tally;
    var r := FlagRow(s.pc);
    assert SubmitInv(s, id);
    if 0 <= r < |s.table| { assert RowInv(s, r); }
  }

  // ---------------------------------------------------------------------------------------
  // The reader, while it holds a SUBMIT

  /** The reader holds SUBMIT id, and this is the row it is at. */
  ghost predicate Holds(s: State, c: Choice, id: nat, i: int) {
    && ReaderEnabled(s, c) && InRange(s) && PcId(s.pc) == id && SubmitInv(s, id) && !s.pc.Abandon? && !s.cancelled
    && i == (if s.pc.Probe? then s.pc.i else PcRow(s.pc))
    && (0 <= i < |s.table| ==> RowInv(s, i))
    && (forall q | 0 <= q < |s.submits| ::
          RowOf(s.submits[q].stage) == i != NULL ==> i < |s.table| && s.table[i].ptr == q)
    && WayInv(s)
    && (s.mutex == NULL || 0 <= s.mutex < |s.submits|)
  }

  lemma ValidateOwn(s: State, c: Choice, id: nat, i: int)
    requires Holds(s, c, id, i) && (s.pc.Validate? || s.pc.Answer?)
    ensures OwnKept(s, Read(s, c), id, i)
  {}

  lemma ClaimOwn(s: State, c: Choice, id: nat, i: int)
    requires Holds(s, c, id, i) && (s.pc.Probe? || s.pc.Take? || s.pc.SetSeq?)
    ensures OwnKept(s, Read(s, c), id, i)
  {}

  lemma SpawnOwn(s: State, c: Choice, id: nat, i: int)
    requires Holds(s, c, id, i) && (s.pc.CountIn? || s.pc.Spawn?)
    ensures OwnKept(s, Read(s, c), id, i)
  {}

  lemma UndoOwn(s: State, c: Choice, id: nat, i: int)
    requires Holds(s, c, id, i) && (s.pc.Undo? || s.pc.UndoSeq? || s.pc.UndoCount?)
    ensures OwnKept(s, Read(s, c), id, i)
  {}

  lemma ReadShape(s: State, c: Choice, id: nat)
    requires ReaderEnabled(s, c) && InRange(s) && PcId(s.pc) == id && SubmitInv(s, id) && !s.cancelled && !s.pc.Abandon?
    requires WayInv(s)
    ensures InRange(Read(s, c)) ==> WayInv(Read(s, c))
    ensures
      var t, i := Read(s, c), if s.pc.Probe? then s.pc.i else PcRow(s.pc);
      && t.mutex == s.mutex && (PcId(t.pc) == id || t.pc.Head? || t.pc.Cleanup?)
      && RowOf(t.submits[id].stage) in {i, NULL} && RowOf(s.submits[id].stage) in {i, NULL}
      && (0 <= i < |s.table| && |t.table| == |s.table| && t.table[i].ptr != s.table[i].ptr ==>
            s.table[i].ptr in {id, NULL} && t.table[i].ptr in {id, NULL})
      && (s.pc.SetSeq? ==> s.pc.i == i)
  {}

  lemma HoldingStep(s: State, c: Choice)
    requires Inv(s) && ReaderEnabled(s, c) && PcId(s.pc) != NULL
    ensures Inv(Read(s, c))
  {
    hide Read, Tally;
    var id, i := PcId(s.pc), if s.pc.Probe? then s.pc.i else PcRow(s.pc);
    assert SubmitInv(s, id);
    if 0 <= i < |s.table| { assert RowInv(s, i); }
    forall q | 0 <= q < |s.submits| && RowOf(s.submits[q].stage) == i != NULL
      ensures i < |s.table| && s.table[i].ptr == q
    {
      assert SubmitInv(s, q);
    }
    if s.pc.Validate? || s.pc.Answer? {
      ValidateOwn(s, c, id, i);
    } else if s.pc.Probe? || s.pc.Take? || s.pc.SetSeq? {
      ClaimOwn(s, c, id, i);
    } else if s.pc.CountIn? || s.pc.Spawn? {
      SpawnOwn(s, c, id, i);
    } else {
      UndoOwn(s, c, id, i);
    }
    ReadShape(s, c, id);
    Kept(s, Read(s, c), id, i);
  }

  // ---------------------------------------------------------------------------------------
  // The reader between SUBMITs

  lemma SubmitStep(s: State, seqnum: nat)
    requires Inv(s) && s.pc.Head?
    ensures Inv(Read(s, GotSubmit(seqnum)))
  {
    var t := Read(s, GotSubmit(seqnum));
    TallyPush(s.submits, Submit(seqnum, Handling, false), Counted);
    TallyPush(s.submits, Submit(seqnum, Handling, false), Answered);
    forall id | 0 <= id < |t.submits| ensures SubmitInv(t, id) {
      if id < |s.submits| { assert SubmitInv(s, id); }
    }
    forall i | 0 <= i < |t.table| ensures RowInv(t, i) { assert RowInv(s, i); }
    forall k | 0 <= k < |t.replies| ensures ReplyInv(t, k) { assert ReplyInv(s, k); }
  }

  /** Raising a flag changes nothing but that flag. */
  lemma RaiseTally(s: State, p: int, f: Stage -> bool)
    ensures Tally(Raise(s, p).submits, f) == Tally(s.submits, f)
  {
    if LeadsToItem(s, p) {
      TallyPut(s.submits, p, s.submits[p].(cancel := true), f);
    }
  }

  /** The pointer that the reader is about to store through, or NULL. */
  function Target(pc: Pc): int { if pc.StoreRow? || pc.CancelStore? then pc.p else NULL }

  /** The other steps of the reader: only a flag and the program counter change. */
  lemma FlagStep(s: State, c: Choice)
    requires Inv(s) && ReaderEnabled(s, c) && PcId(s.pc) == NULL && !(s.pc.Head? && c.GotSubmit?)
    ensures Inv(Read(s, c))
  {
    hide Tally, Read, WayInv;
    var t := Read(s, c);
    FlagShape(s, c);
    FlagWay(s, c);
    RaiseTally(s, Target(s.pc), Counted);
    RaiseTally(s, Target(s.pc), Answered);
    forall id | 0 <= id < |t.submits| ensures SubmitInv(t, id) { assert SubmitInv(s, id); }
    forall k | 0 <= k < |t.table| ensures RowInv(t, k) {
      assert RowInv(s, k);
      CancelledUpTo(s, c, k);
    }
    forall k | 0 <= k < |t.replies| ensures ReplyInv(t, k) { assert ReplyInv(s, k); }
  }

  /** The rows that a teardown has dealt with: all those behind it. */
  lemma CancelledUpTo(s: State, c: Choice, k: nat)
    requires InRange(s) && WayInv(s) && ReaderEnabled(s, c) && PcId(s.pc) == NULL && !(s.pc.Head? && c.GotSubmit?)
    requires k < |s.table| && RowInv(s, k)
    ensures
      var t := Read(s, c);
      |t.table| == |s.table| && |t.submits| == |s.submits| && t.table[k] == s.table[k]
      && (t.table[k].ptr != NULL && (t.pc.Drain? || t.pc.Gone? || (Cancelling(t.pc) && k < t.pc.i)) ==>
            t.submits[t.table[k].ptr].cancel)
  {}

  lemma FlagShape(s: State, c: Choice)
    requires ReaderEnabled(s, c) && PcId(s.pc) == NULL && InRange(s) && !(s.pc.Head? && c.GotSubmit?)
    ensures
      var t := Read(s, c);
      && t == Raise(s, Target(s.pc)).(pc := t.pc, cancelled := t.cancelled)
      && |t.submits| == |s.submits|
      && (forall id | 0 <= id < |s.submits| ::
            && t.submits[id].stage == s.submits[id].stage && t.submits[id].seqnum == s.submits[id].seqnum
            && (s.submits[id].cancel ==> t.submits[id].cancel))
      && PcId(t.pc) == NULL && PcRow(t.pc) == NULL && InRange(t) && !t.pc.SetSeq? && !t.pc.Abandon?
      && t.cancelled == (s.cancelled || s.pc.Cleanup?)
      && (Cancelling(t.pc) || t.pc.Drain? || t.pc.Gone? <==> s.pc.Cleanup? || Cancelling(s.pc) || s.pc.Drain?)
  {}

  lemma FlagWay(s: State, c: Choice)
    requires Inv(s) && ReaderEnabled(s, c) && PcId(s.pc) == NULL && !(s.pc.Head? && c.GotSubmit?)
    requires InRange(Read(s, c))
    ensures WayInv(Read(s, c))
  {
    hide Tally;
    var r := FlagRow(s.pc);
    if 0 <= r < |s.table| {
      assert RowInv(s, r);
      if s.table[r].ptr != NULL { assert SubmitInv(s, s.table[r].ptr); }
    }
  }

  lemma StepInv(s: State, step: Step)
    requires Inv(s) && Enabled(s, step)
    ensures Inv(Do(s, step))
  {
    hide Read, Work, Tally, Inv;
    match step
    case Worker(id) => WorkStep(s, id);
    case Reader(c) =>
      if PcId(s.pc) != NULL {
        HoldingStep(s, c);
      } else if c.GotSubmit? && s.pc.Head? {
        SubmitStep(s, c.seqnum);
      } else {
        FlagStep(s, c);
      }
  }

  lemma InitInv(s: State)
    requires Init(s)
    ensures Inv(s)
  {}

  /** Every state of every run keeps the invariant. */
  lemma {:induction false} RunInv(run: seq<State>, steps: seq<Step>, n: nat)
    requires IsRun(run, steps) && n < |run|
    ensures Inv(run[n])
  {
    hide Do, Inv;
    if n == 0 {
      InitInv(run[0]);
    } else {
      RunInv(run, steps, n - 1);
      StepInv(run[n - 1], steps[n - 1]);
    }
  }
}
