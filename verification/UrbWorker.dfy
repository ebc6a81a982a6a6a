/** urb_worker_task of main/usbip_server.c on a physical device: from a work item to the bytes of
    its RET_SUBMIT. */
module UrbWorker {
  import opened Bytes
  import opened Wrappers
  import opened UrbHeaders
  import opened UsbipSocket
  import R = UrbReader
  import opened Transfer

  /** Everything outside the program that decides how one request goes. */
  datatype World = World(
    listed: bool,            // the device and the endpoint are found when the request is made
    dev: Lookup,             // the device when the transfer is prepared
    maxTransfer: nat,
    memory: bool, submit: Submitted,
    fired: bool,             // the callback has run by the time the transfer is finalised
    abort: int,              // 0, or the error of a cancel or timeout
    staleSetup: seq<Byte>,   // what the slot's last control transfer left behind
    replyMemory: bool)       // malloc in send_ret_submit

  /** The backend finalises a transfer whose callback has run or that it has aborted. */
  predicate Sane(w: World) {
    |w.staleSetup| == SETUP && w.abort in {0, -ECONNRESET, -ETIMEDOUT} && (w.fired || w.abort != 0)
  }

  /** A transfer as the hardware was given it: an endpoint's address and a buffer; and what the
      hardware left: the buffer, a count and a status. */
  datatype Wire = Wire(address: Byte, given: seq<Byte>, left: seq<Byte>, actual: nat, status: UsbStatus)

  /** Why a transfer never reaches the hardware, or 0: the first reason that applies. */
  function Obstacle(w: World, control: bool, payload: nat): (e: int)
    ensures -EMSGSIZE <= e <= 0
    ensures e == 0 <==>
      && w.listed && w.dev.Found? && (control || w.dev.claimed)
      && payload <= w.maxTransfer && w.memory && w.submit.Accepted?
    ensures e == -122 <==> w.listed && w.dev.Found? && (control || w.dev.claimed) && payload > w.maxTransfer
    ensures e == -12 <==>
      w.listed && w.dev.Found? && (control || w.dev.claimed) && payload <= w.maxTransfer && !w.memory
    ensures !w.listed || w.dev.Missing? ==> e == -19
    ensures w.listed && w.dev.Found? && !control && !w.dev.claimed ==> e == -5
    ensures w.listed && w.dev.Found? && (control || w.dev.claimed) && payload <= w.maxTransfer && w.memory ==>
      e == if w.submit.InvalidState? then -19 else if w.submit.OtherError? then -5 else 0
  {
    if !w.listed || w.dev.Missing? then -ENODEV
    else if !control && !w.dev.claimed then -EIO
    else if payload > w.maxTransfer then -EMSGSIZE
    else if !w.memory then -ENOMEM
    else Refusal(w.submit)
  }

  /** The status of a transfer that did: that of an abort, or else the hardware's. */
  function Verdict(w: World, hw: UsbStatus): (e: int)
    requires Sane(w)
    ensures -ETIMEDOUT <= e <= 0 && (e == 0 <==> w.abort == 0 && hw.Completed?)
    ensures (w.abort != 0 ==> e == w.abort) && (w.abort == 0 ==> e == Errno(hw))
  {
    if w.abort != 0 then w.abort else Errno(hw)
  }

  /** submit_pipe_request, as its caller sees it, with the backend's part in it: the hardware is
      reached exactly when nothing stands in the way, the OUT data reach it as they are, and what
      comes in is what it left. */
  method Transact(pipe: Pipe, w: World) returns (status: int, ghost wire: Option<Wire>)
    requires pipe.Filled() && Sane(w) && pipe.inLen == 0
    modifies pipe, if pipe.inData == null then {} else {pipe.inData}
    ensures wire.Some? <==> Obstacle(w, pipe.Control(), pipe.Payload()) == 0
    ensures status == if wire.Some? then Verdict(w, wire.value.status) else Obstacle(w, pipe.Control(), pipe.Payload())
    ensures wire.Some? ==>
      |wire.value.left| == TransferLength(pipe.Control(), pipe.In(), pipe.Payload(), w.dev.mps)
    ensures wire.Some? ==> |wire.value.given| == |wire.value.left| && wire.value.actual <= |wire.value.left|
    ensures pipe.inLen == if wire.Some? && w.fired && wire.value.status.Completed? && pipe.In() && pipe.inData != null
                          then pipe.Copied(wire.value.actual) else 0
    ensures wire.Some? ==> wire.value.address == pipe.endpointAddr
    ensures wire.Some? && pipe.Control() ==> wire.value.given[..SETUP] == pipe.setup
    ensures wire.Some? && !pipe.In() && pipe.outData != null && pipe.outData != pipe.inData ==>
              wire.value.given[pipe.DataAt()..] == pipe.outData[..pipe.outLen]
    ensures wire.Some? && pipe.inData != null && pipe.inLen > 0 ==>
              pipe.inData[..pipe.inLen] == wire.value.left[pipe.DataAt()..][..pipe.inLen]
  {
    wire := None;
    if !w.listed { return -ENODEV, None; }
    status := pipe.Prepare(w.dev, w.maxTransfer, w.memory, w.submit);
    if status != 0 { return; }
    ghost var given := pipe.xfer.buffer[..];
    assert given[pipe.DataAt()..] == pipe.xfer.buffer[pipe.DataAt()..];
    pipe.xfer.Run();
    pipe.completed := w.fired;
    ghost var left := pipe.xfer.buffer[..];
    assert left[pipe.DataAt()..] == pipe.xfer.buffer[pipe.DataAt()..];
    wire := Some(Wire(pipe.xfer.address, given, left, pipe.xfer.actual, pipe.xfer.status));
    status := pipe.Complete();
    if w.abort != 0 { status := w.abort; }
  }

  /** send_ret_submit.  The header announces payloadLen bytes whether or not there are any. */
  method SendRetSubmit(sock: Socket, h: Header, status: int, payload: array?<Byte>, payloadLen: nat, memory: bool)
    returns (ok: bool)
    requires -0x8000_0000 <= status < 0x8000_0000 && payloadLen < 0x1_0000_0000
    requires payload != null ==> payloadLen <= payload.Length
    modifies sock`sent, sock`failed
    ensures sock.failed <==> old(sock.failed) || (!ok && (memory || payloadLen == 0 || payload == null))
    ensures !memory && payloadLen > 0 && payload != null ==> !ok
    ensures var bytes := RetSubmitHeader(h, status, payloadLen)
        + if payloadLen > 0 && payload != null then payload[..payloadLen] else [];
      && (ok ==> sock.sent == old(sock.sent) + bytes)
      && (!ok ==> old(sock.sent) <= sock.sent <= old(sock.sent) + bytes)
  {
    hide RetSubmitHeader;
    var head := RetSubmitHeader(h, status, payloadLen);
    if payloadLen > 0 && payload != null {
      if !memory { return false; }
      ok := sock.WriteAll(head + payload[..payloadLen]);
    } else {
      assert head + [] == head;
      ok := sock.WriteAll(head);
    }
  }

  /** The endpoint's address: its number in one byte, with the direction bit. */
  function EpAddress(h: Header): Byte {
    if Endpoint(h) == 0 then 0 else
    var low := Endpoint(h) % 256;
    if Direction(h) == DIR_IN && low < 0x80 then low + 0x80 else low
  }

  /** The setup packet a SUBMIT's transfer goes out with: endpoints whose address is 0 although
      their number is not get what the slot's last control transfer left behind. */
  function SetupFor(h: Header, w: World): seq<Byte> {
    if Endpoint(h) == 0 then h[40..48] else w.staleSetup
  }

  predicate IsIn(h: Header, w: World)
    requires Sane(w)
  {
    if EpAddress(h) == 0 then SetupFor(h, w)[0] >= 0x80 else EpAddress(h) >= 0x80
  }

  /** How many bytes of an answer there are, once the hardware has counted what came in. */
  function AnswerLength(h: Header, w: World, inCapacity: nat, actual: nat): (n: nat)
    requires Sane(w)
    ensures n <= inCapacity && n <= actual
  {
    var received := if EpAddress(h) != 0 then actual else if actual > SETUP then actual - SETUP else 0;
    if !IsIn(h, w) || Direction(h) != DIR_IN then 0 else if received > inCapacity then inCapacity else received
  }

  /** A SUBMIT that the reader hands on, to an endpoint whose number is not an address. */
  predicate Accepted(h: Header) {
    && Endpoint(h) < 0x80 && Direction(h) in {0, 1} && Length(h) >= 0
    && (Endpoint(h) == 0 ==> (Direction(h) == 1 <==> h[40] >= 0x80))
  }

  /** Such a SUBMIT in its own terms.  The hardware is addressed at the endpoint, with bit 7 for IN;
      endpoint 0 is given the setup packet, then the data, and an IN elsewhere the least number of
      whole packets.  OUT data reach it as they are; what comes in is the payload, as far as the
      SUBMIT asked for it; and the status is 0 if and only if the transfer completed unaborted. */
  ghost predicate AsAsked(h: Header, out: seq<Byte>, w: World, status: int, payload: seq<Byte>, wire: Option<Wire>)
    requires Accepted(h) && Sane(w)
  {
    var control, isIn, len := Endpoint(h) == 0, Direction(h) == 1, Length(h);
    var at := if control then 8 else 0;
    && status == (if wire.Some? then Verdict(w, wire.value.status) else Obstacle(w, control, len))
    && (wire.Some? <==> Obstacle(w, control, len) == 0)
    && (status == 0 <==> wire.Some? && w.abort == 0 && wire.value.status.Completed?)
    && (wire.Some? ==>
          && wire.value.address == Endpoint(h) + (if isIn && !control then 0x80 else 0)
          && (control ==> |wire.value.given| == 8 + len && wire.value.given[..8] == h[40..48])
          && (!isIn ==> |wire.value.given| >= at && wire.value.given[at..] == out)
          && (isIn && !control ==> WholePackets(|wire.value.given|, len, w.dev.mps)))
    && (status != 0 || !isIn ==> payload == [])
    && (status == 0 && isIn ==>
          && |payload| == Least(len, if wire.value.actual > at then wire.value.actual - at else 0)
          && |wire.value.left| >= at + |payload| && payload == wire.value.left[at..at + |payload|])
  }

  function Least(a: int, b: int): int { if a < b then a else b }

  /** The least whole number of packets that holds len bytes, for a packet size that is known. */
  predicate WholePackets(n: nat, len: nat, mps: nat) {
    if mps == 0 then n == len else len <= n < len + mps && n % mps == 0
  }

  lemma PacketsAsked(len: nat, mps: nat)
    ensures WholePackets(TransferLength(false, true, len, mps), len, mps)
  {
    if mps > 0 {
      RoundedUp(len, mps);
      LeastMultiple(len, mps, (len + mps - 1) / mps);
    }
  }

  lemma AddressOf(h: Header, w: World)
    requires Accepted(h) && Sane(w)
    ensures EpAddress(h) == Endpoint(h) + (if Direction(h) == 1 && Endpoint(h) != 0 then 0x80 else 0)
    ensures EpAddress(h) == 0 <==> Endpoint(h) == 0
    ensures IsIn(h, w) <==> Direction(h) == 1
    ensures Endpoint(h) == 0 ==> SetupFor(h, w) == h[40..48]
  {
    hide Word;
    assert Endpoint(h) == 0 ==> SetupFor(h, w)[0] == h[40];
  }

  /** What the transfer made of it, in the terms of its endpoint's address. */
  ghost predicate Transferred(
    h: Header, out: seq<Byte>, inCapacity: nat, w: World, status: int, payload: seq<Byte>, wire: Option<Wire>)
    requires Sane(w)
  {
    var control, isIn := EpAddress(h) == 0, IsIn(h, w);
    var len, at := if isIn then inCapacity else |out|, if control then SETUP else 0;
    && (wire.Some? <==> Obstacle(w, control, len) == 0)
    && status == (if wire.Some? then Verdict(w, wire.value.status) else Obstacle(w, control, len))
    && |payload| == (if status == 0 then AnswerLength(h, w, inCapacity, wire.value.actual) else 0)
    && (wire.Some? && |payload| > 0 ==>
          |wire.value.left| >= at + |payload| && payload == wire.value.left[at..][..|payload|])
    && (wire.Some? ==>
          && wire.value.address == EpAddress(h) && wire.value.actual <= |wire.value.left|
          && |wire.value.given| == |wire.value.left| == TransferLength(control, isIn, len, w.dev.mps)
          && (control ==> wire.value.given[..SETUP] == SetupFor(h, w))
          && (!isIn ==> wire.value.given[at..] == out))
  }

  lemma InItsOwnTerms(
    h: Header, out: seq<Byte>, inCapacity: nat, w: World, status: int, payload: seq<Byte>, wire: Option<Wire>)
    requires Sane(w) && Accepted(h) && inCapacity == R.InCapacity(h) && |out| == R.OutLength(h)
    requires Transferred(h, out, inCapacity, w, status, payload, wire)
    ensures AsAsked(h, out, w, status, payload, wire)
  {
    hide Word, Word32, Obstacle, Verdict, TransferLength, EpAddress, IsIn, SetupFor, WholePackets;
    AddressOf(h, w);
    PacketsAsked(inCapacity, if w.dev.Found? then w.dev.mps else 0);
    if wire.Some? {
      var at := if Endpoint(h) == 0 then 8 else 0;
      assert payload != [] ==> payload == wire.value.left[at..at + |payload|];
    }
  }

  /** The transfer and the reply of one accepted SUBMIT.  The transfer reaches the hardware exactly
      when nothing stands in the way.  The reply has its status; it announces what follows it,
      never more than the SUBMIT asked for: the bytes that the hardware left, on the success of
      an IN, and none otherwise. */
  method RunUrb(sock: Socket, h: Header, out: seq<Byte>, inCapacity: nat, w: World)
    returns (ok: bool, status: int, payload: seq<Byte>, ghost wire: Option<Wire>)
    requires Sane(w) && inCapacity == R.InCapacity(h) && |out| == R.OutLength(h)
    modifies sock`sent, sock`failed
    ensures Transferred(h, out, inCapacity, w, status, payload, wire)
    ensures |payload| > 0 ==> |payload| <= Length(h)
    ensures Accepted(h) ==> AsAsked(h, out, w, status, payload, wire)
    ensures ok ==> sock.sent == old(sock.sent) + RetSubmit(h, status, payload)
    ensures !ok ==> old(sock.sent) <= sock.sent <= old(sock.sent) + RetSubmit(h, status, payload)
    ensures !ok ==> sock.failed || (payload != [] && !w.replyMemory)
    ensures forall rest ::
      ReadReply(RetSubmit(h, status, payload) + rest) == Some((Reply(3, Seqnum(h), status, payload), rest))
  {
    hide RetSubmitHeader, ReadReply, Word, Word32, Obstacle, Verdict, TransferLength, AsAsked;
    var outData: array?<Byte> := null;
    if |out| > 0 { outData := new Byte[|out|](k requires 0 <= k < |out| => out[k]); }
    var inData: array?<Byte> := null;
    if inCapacity > 0 { inData := new Byte[inCapacity]; }
    var pipe := new Pipe(EpAddress(h), SetupFor(h, w), outData, |out|, inData, inCapacity);
    status, wire := Transact(pipe, w);
    var answers := status == 0 && Direction(h) == DIR_IN;
    var data := if answers then inData else null;
    var len := if answers then pipe.inLen else 0;
    payload := if data != null then data[..len] else [];
    assert len == |payload|;
    if Accepted(h) { InItsOwnTerms(h, out, inCapacity, w, status, payload, wire); }
    ok := SendRetSubmit(sock, h, status, data, len, w.replyMemory);
    if len == 0 { assert payload == []; }
    forall rest ensures ReadReply(RetSubmit(h, status, payload) + rest)
      == Some((Reply(3, Seqnum(h), status, payload), rest))
    {
      ReplyReadsBack(h, status, payload, rest);
    }
  }
}
