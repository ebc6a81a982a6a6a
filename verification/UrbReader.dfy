/** The reader of main/usbip_server.c's handle_urb_stream: what it takes from the byte stream for
    each PDU, which PDUs it answers itself, and when the stream stays in step. */
module UrbReader {
  import opened Bytes
  import opened UrbHeaders
  import opened UsbipSocket

  const EINVAL := 22
  const ENODEV := 19
  const ENOMEM := 12
  const EMSGSIZE := 122
  const EOPNOTSUPP := 95

  /** Which of a PDU's allocations will succeed: its OUT and IN buffers, its work item, its task. */
  datatype Supply = Supply(outData: bool, inData: bool, item: bool, task: bool)

  /** The imported device, the configured limit, and the memory that the k-th PDU will find. */
  datatype Config = Config(devid: nat, maxTransfer: nat, memory: nat -> Supply)

  /** What became of one PDU. */
  datatype Outcome =
    | Answered(status: int, skipped: nat)             // by the reader, having taken that much of the data
    | Unlinked(target: nat)                           // an UNLINK of that seqnum, answered
    | Taken(out: seq<Byte>, inCapacity: nat)          // handed to a worker
    | TornDown                                        // not a PDU the server goes on after
    | Lost                                            // the socket failed on the way

  predicate Iso(h: Header) { Packets(h) != 0 && Packets(h) != NON_ISO }

  predicate ClashesAtEp0(h: Header) {
    Endpoint(h) == 0 && ((Direction(h) == DIR_IN) != SetupIn(h))
  }

  function OutLength(h: Header): nat {
    if Direction(h) == DIR_OUT && Length(h) > 0 then Length(h) else 0
  }

  function InCapacity(h: Header): nat {
    if Direction(h) == DIR_IN && Length(h) > 0 then Length(h) else 0
  }

  /** Memory for all that PDU h asks for. */
  predicate Enough(h: Header, m: Supply) {
    (OutLength(h) > 0 ==> m.outData) && (InCapacity(h) > 0 ==> m.inData) && m.item && m.task
  }

  /** The checks before any memory is asked for: the first that fails decides. */
  datatype Verdict = Refuse(status: int, skip: nat) | Stop | Serve | Cancel

  function Judge(h: Header, c: Config): Verdict {
    if Command(h) == CMD_UNLINK then Cancel
    else if Command(h) != CMD_SUBMIT then Stop
    else if Length(h) < 0 then Refuse(-EINVAL, 0)
    else if Length(h) > c.maxTransfer then Refuse(-EMSGSIZE, OutLength(h))
    else if Direction(h) != DIR_OUT && Direction(h) != DIR_IN then Stop
    else if Devid(h) != c.devid then Refuse(-ENODEV, OutLength(h))
    else if Iso(h) then Refuse(-EOPNOTSUPP, 0)
    else if ClashesAtEp0(h) then Refuse(-EINVAL, 0)
    else Serve
  }

  /** The outcomes a PDU can have; which of them, depends on memory and on the socket. */
  predicate Allowed(h: Header, c: Config, o: Outcome) {
    match Judge(h, c)
    case Cancel => o == Unlinked(Target(h)) || o.Lost?
    case Stop => o.TornDown?
    case Refuse(status, skip) => o == Answered(status, skip) || o.Lost?
    case Serve =>
      || o == Answered(-ENOMEM, OutLength(h)) || o.Lost?
      || (o.Taken? && |o.out| == OutLength(h) && o.inCapacity == InCapacity(h))
  }

  /** And which it has with that memory. */
  predicate Handled(h: Header, c: Config, m: Supply, o: Outcome) {
    Allowed(h, c, o) && (Judge(h, c).Serve? && !o.Lost? ==> (o.Taken? <==> Enough(h, m)))
  }

  /** How much of the stream the PDU's data took. */
  function Skipped(o: Outcome): nat {
    match o case Answered(_, n) => n case Taken(out, _) => |out| case _ => 0
  }

  /** What the reader itself sends in answer. */
  function Answer(h: Header, o: Outcome): seq<Byte>
    requires o.Answered? ==> -0x8000_0000 <= o.status < 0x8000_0000
  {
    if o.Answered? then RetSubmit(h, o.status, []) else if o.Unlinked? then RetUnlink(h) else []
  }

  /** An answer that was sent in full, or the connection is over and some of it was. */
  ghost predicate SentAnswer(before: seq<Byte>, after: seq<Byte>, answer: seq<Byte>, goOn: bool) {
    if goOn then after == before + answer else before <= after <= before + answer
  }

  method SendAnswer(sock: Socket, answer: seq<Byte>) returns (ok: bool)
    modifies sock`sent, sock`failed
    ensures SentAnswer(old(sock.sent), sock.sent, answer, ok) && sock.failed == (old(sock.failed) || !ok)
  {
    ok := sock.WriteAll(answer);
  }

  /** Refuses a SUBMIT whose data, if any, is skip bytes long and still to come. */
  method RefusePdu(sock: Socket, h: Header, status: int, skip: nat) returns (o: Outcome, goOn: bool)
    requires sock.Valid() && -0x8000_0000 <= status < 0x8000_0000
    modifies sock
    ensures sock.Valid() && sock.pos >= old(sock.pos) && (goOn ==> o.Answered?)
    ensures sock.failed == (old(sock.failed) || !goOn)
    ensures o == Answered(status, skip) || (o.Lost? && sock.sent == old(sock.sent))
    ensures o.Answered? ==>
      sock.pos == old(sock.pos) + skip && SentAnswer(old(sock.sent), sock.sent, Answer(h, o), goOn)
  {
    if skip > 0 {
      var ok := sock.DiscardExact(skip);
      if !ok { return Lost, false; }
    }
    o := Answered(status, skip);
    goOn := SendAnswer(sock, Answer(h, o));
  }

  /** Reads the data of an accepted SUBMIT and makes its work item. */
  method Admit(sock: Socket, h: Header, m: Supply) returns (o: Outcome, goOn: bool)
    requires sock.Valid() && (Direction(h) == DIR_OUT || Direction(h) == DIR_IN) && Length(h) >= 0
    modifies sock
    ensures sock.Valid() && sock.pos >= old(sock.pos) && sock.failed == (old(sock.failed) || !goOn)
    ensures o == Answered(-ENOMEM, OutLength(h)) || o.Lost?
      || (o.Taken? && |o.out| == OutLength(h) && o.inCapacity == InCapacity(h))
    ensures !o.Lost? ==> (o.Taken? <==> Enough(h, m))
    ensures o.Lost? ==> !goOn && sock.sent == old(sock.sent)
    ensures !o.Lost? ==> sock.pos == old(sock.pos) + Skipped(o)
    ensures !o.Lost? ==> SentAnswer(old(sock.sent), sock.sent, Answer(h, o), goOn)
    ensures o.Taken? ==> goOn && o.out == sock.input[old(sock.pos)..sock.pos]
  {
    var outData: seq<Byte> := [];
    var outLen: nat := if Direction(h) == DIR_OUT then Length(h) else 0;
    if outLen > 0 {
      if !m.outData {
        o, goOn := RefusePdu(sock, h, -ENOMEM, outLen);
        return;
      }
      var buf := new Byte[outLen];
      var ok := sock.ReadExact(buf, outLen);
      if !ok { return Lost, false; }
      outData := buf[..outLen];
    }
    ghost var p := sock.pos;
    var inCapacity: nat := if Direction(h) == DIR_IN then Length(h) else 0;
    if (inCapacity > 0 && !m.inData) || !m.item || !m.task {
      o := Answered(-ENOMEM, outLen);
      goOn := SendAnswer(sock, Answer(h, o));
      return;
    }
    assert outData == sock.input[old(sock.pos)..p];
    return Taken(outData, inCapacity), true;
  }

  /** One turn of the reader's loop, after the header. */
  method HandlePdu(sock: Socket, h: Header, c: Config, m: Supply) returns (o: Outcome, goOn: bool)
    requires sock.Valid()
    modifies sock
    ensures sock.Valid() && sock.pos >= old(sock.pos) && Handled(h, c, m, o)
    ensures sock.failed == (old(sock.failed) || (!goOn && !o.TornDown?))
    ensures o.Lost? || o.TornDown? ==> !goOn && sock.sent == old(sock.sent)
    ensures !o.Lost? && !o.TornDown? ==> sock.pos == old(sock.pos) + Skipped(o)
    ensures !o.Lost? && !o.TornDown? ==> SentAnswer(old(sock.sent), sock.sent, Answer(h, o), goOn)
    ensures o.Taken? ==> goOn && o.out == sock.input[old(sock.pos)..sock.pos]
  {
    hide Word, Word32, Signed, RetSubmit, RetUnlink;
    if Command(h) == CMD_UNLINK {
      o := Unlinked(Target(h));
      goOn := SendAnswer(sock, Answer(h, o));
      return;
    }
    if Command(h) != CMD_SUBMIT { return TornDown, false; }
    var direction, reqLen := Direction(h), Length(h);
    if reqLen < 0 {
      o, goOn := RefusePdu(sock, h, -EINVAL, 0);
      return;
    }
    if reqLen > c.maxTransfer {
      o, goOn := RefusePdu(sock, h, -EMSGSIZE, if direction == DIR_OUT && reqLen > 0 then reqLen else 0);
      return;
    }
    if direction != DIR_OUT && direction != DIR_IN { return TornDown, false; }
    if Devid(h) != c.devid {
      o, goOn := RefusePdu(sock, h, -ENODEV, if direction == DIR_OUT && reqLen > 0 then reqLen else 0);
      return;
    }
    if Packets(h) != NON_ISO && Packets(h) != 0 {
      o, goOn := RefusePdu(sock, h, -EOPNOTSUPP, 0);
      return;
    }
    if Endpoint(h) == 0 && (direction == DIR_IN) != SetupIn(h) {
      o, goOn := RefusePdu(sock, h, -EINVAL, 0);
      return;
    }
    o, goOn := Admit(sock, h, m);
  }

  // ---------------------------------------------------------------------------------------
  // The loop

  datatype Event = Event(at: nat, header: Header, outcome: Outcome)

  /** Where the reader looks for the header after this one. */
  function NextAt(e: Event): nat { e.at + HEADER + Skipped(e.outcome) }

  /** The k-th PDU handled: where its header was found, and what became of it. */
  ghost predicate EventOk(input: seq<Byte>, start: nat, c: Config, trace: seq<Event>, k: nat)
    requires k < |trace|
  {
    var e := trace[k];
    && e.at == (if k == 0 then start else NextAt(trace[k - 1]))
    && e.at + HEADER <= |input| && e.header == input[e.at..e.at + HEADER]
    && Handled(e.header, c, c.memory(k), e.outcome)
    && (e.outcome.Taken? ==> NextAt(e) <= |input| && e.outcome.out == input[e.at + HEADER..NextAt(e)])
    && (k + 1 < |trace| ==> !e.outcome.Lost? && !e.outcome.TornDown?)
  }

  ghost predicate IsTrace(input: seq<Byte>, start: nat, c: Config, trace: seq<Event>) {
    forall k | 0 <= k < |trace| :: EventOk(input, start, c, trace, k)
  }

  lemma StatusFits(h: Header, c: Config, o: Outcome)
    requires Allowed(h, c, o)
    ensures o.Answered? ==> -0x8000_0000 <= o.status < 0x8000_0000
  {}

  /** Everything the reader has sent: its answers, one after the other. */
  ghost function Answers(c: Config, trace: seq<Event>): seq<Byte>
    requires forall e | e in trace :: Allowed(e.header, c, e.outcome)
  {
    if trace == [] then [] else
      var e := trace[|trace| - 1];
      StatusFits(e.header, c, e.outcome);
      Answers(c, trace[..|trace| - 1]) + Answer(e.header, e.outcome)
  }

  lemma TraceGrows(input: seq<Byte>, start: nat, c: Config, trace: seq<Event>, e: Event)
    requires IsTrace(input, start, c, trace) && EventOk(input, start, c, trace + [e], |trace|)
    requires trace != [] ==> !trace[|trace| - 1].outcome.Lost? && !trace[|trace| - 1].outcome.TornDown?
    ensures IsTrace(input, start, c, trace + [e])
  {
    hide Allowed;
    forall k | 0 <= k < |trace| ensures EventOk(input, start, c, trace + [e], k) {
      assert EventOk(input, start, c, trace, k);
    }
  }

  /** The PDU that the server does not go on after. */
  predicate EndsTornDown(trace: seq<Event>) {
    trace != [] && trace[|trace| - 1].outcome.TornDown?
  }

  /** handle_urb_stream on a physical device, as far as its reader goes: with memory for its
      context it goes on until the socket fails or a PDU tears the connection down. */
  method HandleStream(sock: Socket, c: Config, memory: bool) returns (trace: seq<Event>)
    requires sock.Valid()
    modifies sock
    ensures if memory then sock.failed || EndsTornDown(trace) else trace == [] && sock.sent == old(sock.sent)
    ensures IsTrace(sock.input, old(sock.pos), c, trace)
    ensures forall e | e in trace :: Allowed(e.header, c, e.outcome)
    ensures old(sock.sent) <= sock.sent <= old(sock.sent) + Answers(c, trace)
    ensures trace != [] ==> old(sock.sent) + Answers(c, trace[..|trace| - 1]) <= sock.sent
  {
    hide Allowed, Answer, IsTrace;
    ghost var start, before := sock.pos, sock.sent;
    trace := [];
    NothingYet(sock.input, start, c);
    if !memory { return; }
    while true
      invariant sock.Valid() && sock.pos >= start && IsTrace(sock.input, start, c, trace)
      invariant forall e | e in trace :: Allowed(e.header, c, e.outcome)
      invariant sock.pos == if trace == [] then start else NextAt(trace[|trace| - 1])
      invariant trace != [] ==> !trace[|trace| - 1].outcome.Lost? && !trace[|trace| - 1].outcome.TornDown?
      invariant sock.sent == before + Answers(c, trace)
      decreases |sock.input| - sock.pos
    {
      var at := sock.pos;
      var request := new Byte[HEADER];
      var ok := sock.ReadExact(request, HEADER);
      if !ok {
        AnswersShorter(c, trace);
        return;
      }
      ghost var answered := sock.sent;
      var h: Header := request[..HEADER];
      var o, goOn := HandlePdu(sock, h, c, c.memory(|trace|));
      var e := Event(at, h, o);
      assert EventOk(sock.input, start, c, trace + [e], |trace|);
      TraceGrows(sock.input, start, c, trace, e);
      assert (trace + [e])[..|trace|] == trace;
      StatusFits(h, c, o);
      assert before + (Answers(c, trace) + Answer(h, o)) == answered + Answer(h, o);
      trace := trace + [e];
      if !goOn { return; }
    }
  }

  lemma NothingYet(input: seq<Byte>, start: nat, c: Config)
    ensures IsTrace(input, start, c, [])
  {}

  lemma AnswersShorter(c: Config, trace: seq<Event>)
    requires forall e | e in trace :: Allowed(e.header, c, e.outcome)
    ensures trace != [] ==> Answers(c, trace[..|trace| - 1]) <= Answers(c, trace)
  {}
}
