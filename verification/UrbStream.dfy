/** One imported device's connection in main/usbip_server.c: the reader loop, the worker task of
    each accepted SUBMIT, and the context they share, as an interleaved step system.

    One step is one access to the table, the counter or a cancel flag.  In particular claiming a
    row of in_flight and freeing it take a step for each of pointer, seqnum and counter, UNLINK
    reads pointer and seqnum of each row in turn, reads the pointer it found twice more, and only
    then stores through it, and so does the teardown but for the search.  A send under write_mutex
    and giving the mutex back are one step. */
module UrbStream {

  const NULL: int := -1

  /** A row of in_flight; a cancel pointer is the number of the SUBMIT whose flag it leads to. */
  datatype Row = Row(ptr: int, seqnum: nat)

  /** How far a SUBMIT has come. */
  datatype Stage =
    | Handling                            // with the reader: validating, reading, allocating
    | Claiming(row: nat)                  // with the reader: its pointer is in the table
    | Claimed(row: nat)                   // with the reader: counted in
    | Running(row: nat)                   // with its worker: in the backend call
    | Sending(row: nat)                   // with its worker: holds write_mutex
    | Sent(row: nat)                      // with its worker: reply attempted
    | Unlinked(row: nat, replied: bool)   // pointer cleared; seqnum not yet
    | Cleared(row: nat, replied: bool)    // seqnum cleared; not yet counted out
    | Exited                              // counted out, item freed
    | Rejected                            // answered by the reader
    | Dropped                             // the connection was torn down before it was accepted

  datatype Submit = Submit(seqnum: nat, stage: Stage, cancel: bool)

  datatype Reply = Reply(id: nat, seqnum: nat)

  /** Where the reader stands. */
  datatype Pc =
    | Head                                // about to read a header
    | Validate(id: nat)
    | Answer(id: nat)                     // about to answer the SUBMIT itself
    | Probe(id: nat, i: nat, retry: bool) // looking for a free row
    | Take(id: nat, i: nat, retry: bool)  // row i's pointer was NULL; about to set it
    | SetSeq(id: nat, i: nat, retry: bool)
    | CountIn(id: nat, i: nat, retry: bool)
    | Spawn(id: nat, i: nat)
    | Undo(id: nat, i: nat)               // xTaskCreate failed: free_slot
    | UndoSeq(id: nat, i: nat)
    | UndoCount(id: nat, i: nat)
    | Abandon(id: nat)                    // `if (ctx->cancel)` while waiting for a row
    | SeekPtr(seqnum: nat, i: nat)        // UNLINK: about to read row i's pointer
    | SeekSeq(seqnum: nat, i: nat)        // it was not NULL; about to read its seqnum
    | TestRow(seqnum: nat, i: nat)        // that was the one; about to test the pointer again
    | LoadRow(seqnum: nat, i: nat)        // still not NULL; about to load it
    | StoreRow(seqnum: nat, i: nat, p: int)  // about to store through it
    | AnswerUnlink(seqnum: nat)
    | Cleanup
    | CancelTest(i: nat)                  // teardown: about to test row i's pointer
    | CancelLoad(i: nat)
    | CancelStore(i: nat, p: int)
    | Drain
    | Gone                                // the context has been freed

  datatype State = State(
    table: seq<Row>, count: int, submits: seq<Submit>, mutex: int,
    cancelled: bool, pc: Pc, replies: seq<Reply>)

  ghost predicate Init(s: State) {
    && |s.table| > 0 && (forall i | 0 <= i < |s.table| :: s.table[i] == Row(NULL, 0))
    && s.count == 0 && s.submits == [] && s.mutex == NULL && !s.cancelled && s.pc == Head && s.replies == []
  }

  /** What the reader meets: the next PDU, an outcome, a failure. */
  datatype Choice =
    | GotSubmit(seqnum: nat) | GotUnlink(seqnum: nat) | Broken   // from the socket
    | Accept | Reject                                            // of a SUBMIT
    | Well | Failed                                              // of a send, or xTaskCreate
    | Timeout                                                    // of the drain loop

  datatype Step = Reader(c: Choice) | Worker(id: nat)

  predicate ReaderEnabled(s: State, c: Choice) {
    match s.pc
    case Head => c.GotSubmit? || c.GotUnlink? || c.Broken?
    case Validate(_) => c.Accept? || c.Reject? || c.Broken?
    case Drain => s.count == 0 || c.Timeout?
    case Gone => false
    case _ => true
  }

  /** The SUBMIT the reader holds, or NULL. */
  function PcId(pc: Pc): int {
    if pc.Validate? || pc.Answer? || pc.Probe? || pc.Take? || pc.SetSeq? || pc.CountIn? || pc.Spawn? || pc.Undo?
       || pc.UndoSeq? || pc.UndoCount? || pc.Abandon?
    then pc.id else NULL
  }

  /** The row the reader has chosen for it, or NULL. */
  function PcRow(pc: Pc): int {
    if pc.Take? || pc.SetSeq? || pc.CountIn? || pc.Spawn? || pc.Undo? || pc.UndoSeq? || pc.UndoCount?
    then pc.i else NULL
  }

  /** The row whose pointer or number the reader has seen, on its way to a flag, or NULL. */
  function FlagRow(pc: Pc): int {
    if pc.SeekSeq? || pc.TestRow? || pc.LoadRow? || pc.StoreRow? || pc.CancelLoad? || pc.CancelStore?
    then pc.i else NULL
  }

  predicate InRange(s: State) {
    PcId(s.pc) < |s.submits| && PcRow(s.pc) < |s.table| && FlagRow(s.pc) < |s.table|
  }

  /** A worker that has not exited can go on, except that it waits for write_mutex. */
  predicate WorkerEnabled(s: State, id: nat) {
    && id < |s.submits|
    && match s.submits[id].stage {
         case Running(_) => s.mutex == NULL
         case Sending(_) => true
         case Sent(i) => i < |s.table|
         case Unlinked(i, replied) => replied && i < |s.table|
         case Cleared(_, replied) => replied
         case _ => false
       }
  }

  predicate Enabled(s: State, step: Step) {
    match step
    case Reader(c) => ReaderEnabled(s, c) && InRange(s)
    case Worker(id) => WorkerEnabled(s, id)
  }

  function Do(s: State, step: Step): State
    requires Enabled(s, step)
  {
    match step case Reader(c) => Read(s, c) case Worker(id) => Work(s, id)
  }

  function To(s: State, id: nat, stage: Stage): State
    requires id < |s.submits|
  {
    s.(submits := s.submits[id := s.submits[id].(stage := stage)])
  }

  function Put(s: State, i: nat, row: Row): State
    requires i < |s.table|
  {
    s.(table := s.table[i := row])
  }

  /** The pointer leads to the flag of an item that has not been freed. */
  predicate LeadsToItem(s: State, p: int) { 0 <= p < |s.submits| && !s.submits[p].stage.Exited? }

  /** A store of true through a pointer to a cancel flag, which is lost if there is no item. */
  function Raise(s: State, p: int): State {
    if LeadsToItem(s, p) then
      s.(submits := s.submits[p := s.submits[p].(cancel := true)])
    else s
  }

  function Replied(s: State, id: nat): State
    requires id < |s.submits|
  {
    s.(replies := s.replies + [Reply(id, s.submits[id].seqnum)])
  }

  function Read(s: State, c: Choice): State
    requires ReaderEnabled(s, c) && InRange(s)
  {
    match s.pc
    case Head =>
      if c.GotSubmit? then s.(submits := s.submits + [Submit(c.seqnum, Handling, false)], pc := Validate(|s.submits|))
      else if c.GotUnlink? then s.(pc := SeekPtr(c.seqnum, 0))
      else s.(pc := Cleanup)
    case Validate(id) =>
      if c.Accept? then s.(pc := Probe(id, 0, false))
      else if c.Reject? then s.(pc := Answer(id))
      else To(s, id, Dropped).(pc := Cleanup)
    case Answer(id) => To(Replied(s, id), id, Rejected).(pc := if c.Failed? then Cleanup else Head)
    case Probe(id, i, retry) =>
      if i >= |s.table| then (if retry && s.cancelled then s.(pc := Abandon(id)) else s.(pc := Probe(id, 0, true)))
      else if s.table[i].ptr != NULL then s.(pc := Probe(id, i + 1, retry))
      else s.(pc := Take(id, i, retry))
    case Take(id, i, retry) =>
      To(Put(s, i, s.table[i].(ptr := id)), id, Claiming(i)).(pc := SetSeq(id, i, retry))
    case SetSeq(id, i, retry) =>
      Put(s, i, s.table[i].(seqnum := s.submits[id].seqnum)).(pc := CountIn(id, i, retry))
    case CountIn(id, i, retry) =>
      To(s, id, Claimed(i)).(count := s.count + 1, pc := if retry && s.cancelled then Abandon(id) else Spawn(id, i))
    case Spawn(id, i) => if c.Failed? then s.(pc := Undo(id, i)) else To(s, id, Running(i)).(pc := Head)
    case Undo(id, i) => To(Put(s, i, s.table[i].(ptr := NULL)), id, Unlinked(i, false)).(pc := UndoSeq(id, i))
    case UndoSeq(id, i) => To(Put(s, i, s.table[i].(seqnum := 0)), id, Cleared(i, false)).(pc := UndoCount(id, i))
    case UndoCount(id, i) => To(s, id, Handling).(count := s.count - 1, pc := Answer(id))
    case Abandon(id) => To(s, id, Dropped).(pc := Cleanup)
    case SeekPtr(x, i) =>
      if i >= |s.table| then s.(pc := AnswerUnlink(x))
      else s.(pc := if s.table[i].ptr != NULL then SeekSeq(x, i) else SeekPtr(x, i + 1))
    case SeekSeq(x, i) => s.(pc := if s.table[i].seqnum == x then TestRow(x, i) else SeekPtr(x, i + 1))
    case TestRow(x, i) => s.(pc := if s.table[i].ptr != NULL then LoadRow(x, i) else AnswerUnlink(x))
    case LoadRow(x, i) => s.(pc := StoreRow(x, i, s.table[i].ptr))
    case StoreRow(x, _, p) => Raise(s, p).(pc := AnswerUnlink(x))
    case AnswerUnlink(_) => s.(pc := if c.Failed? then Cleanup else Head)
    case Cleanup => s.(cancelled := true, pc := CancelTest(0))
    case CancelTest(i) =>
      if i >= |s.table| then s.(pc := Drain)
      else s.(pc := if s.table[i].ptr != NULL then CancelLoad(i) else CancelTest(i + 1))
    case CancelLoad(i) => s.(pc := CancelStore(i, s.table[i].ptr))
    case CancelStore(i, p) => Raise(s, p).(pc := CancelTest(i + 1))
    case Drain => s.(pc := Gone)
  }

  /** One step of urb_worker_task after its backend call. */
  function Work(s: State, id: nat): State
    requires WorkerEnabled(s, id)
  {
    match s.submits[id].stage
    case Running(i) => To(s, id, Sending(i)).(mutex := id)
    case Sending(i) => To(Replied(s, id), id, Sent(i)).(mutex := NULL)
    case Sent(i) => To(Put(s, i, s.table[i].(ptr := NULL)), id, Unlinked(i, true))
    case Unlinked(i, _) => To(Put(s, i, s.table[i].(seqnum := 0)), id, Cleared(i, true))
    case Cleared(_, _) => To(s, id, Exited).(count := s.count - 1)
  }

  ghost predicate IsRun(run: seq<State>, steps: seq<Step>) {
    && |run| == |steps| + 1
    && Init(run[0])
    && forall k | 0 <= k < |steps| :: Enabled(run[k], steps[k]) && run[k + 1] == Do(run[k], steps[k])
  }
}
