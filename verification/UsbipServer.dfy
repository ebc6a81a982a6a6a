/** handle_client of main/usbip_server.c: one TCP connection, from its first request to its end. */
module UsbipServer {
  import opened Wrappers
  import opened Bytes
  import opened UsbDevice
  import opened DeviceTable
  import opened DeviceDirectory
  import UsbipWire
  import UsbipSocket
  import UrbReader
  import UrbHeaders
  import BusIds

  const REQ_DEVLIST := 0x8005
  const REQ_IMPORT := 0x8003

  /** The configured limit, and what memory there is: for the device list, for the context of a
      URB stream, and for its PDUs. */
  datatype Means = Means(maxTransfer: nat, list: bool, stream: bool, urbs: nat -> UrbReader.Supply)

  /** What a connection came to. */
  datatype Session =
    | Ignored                                         // no request of a kind that is answered
    | Devlist(complete: bool)
    | Refused(complete: bool)                         // an import of a bus ID that is not listed
    | Imported(device: Device, trace: Option<seq<UrbReader.Event>>)

  /** The request at the head of a connection: op_common, and for an import the bus ID. */
  datatype Request = NoRequest | ForDevlist | ForImport(key: Busid)

  function Asked(input: seq<Byte>): Request {
    match UsbipWire.ReadOpCommon(input)
    case None => NoRequest
    case Some(op) =>
      if op.0.0 == REQ_DEVLIST then ForDevlist
      else if op.0.0 == REQ_IMPORT && |op.1| >= BUSID then ForImport(op.1[..BUSID])
      else NoRequest
  }

  /** What a client sends: the version, the code and a status that nobody reads, and what else it
      has to say. */
  function Op(code: seq<Byte>, status: seq<Byte>, more: seq<Byte>): seq<Byte> {
    [0x01, 0x11] + code + status + more
  }

  /** The two requests of the protocol are understood, and no other. */
  lemma RequestsAsked(code: seq<Byte>, status: seq<Byte>, key: seq<Byte>, rest: seq<Byte>)
    requires |code| == 2 && |status| == 4 && |key| == 32
    ensures var asked := Asked(Op(code, status, key + rest));
      if code == [0x80, 0x05] then asked == ForDevlist
      else if code == [0x80, 0x03] then asked == ForImport(key)
      else asked == NoRequest
  {
    hide Word32;
    var s := Op(code, status, key + rest);
    assert s[0..2] == [0x01, 0x11] && s[2..4] == code && s[8..] == key + rest;
    assert (key + rest)[..32] == key;
    assert code == [code[0], code[1]];
  }

  lemma AskedIs(input: seq<Byte>, op: seq<Byte>, key: seq<Byte>)
    requires |op| == UsbipWire.OP_COMMON && |key| in {0, BUSID} && op + key <= input
    ensures Word16(op[0..2]) != UsbipWire.VERSION ==> Asked(input) == NoRequest
    ensures Word16(op[0..2]) == UsbipWire.VERSION ==>
      match Word16(op[2..4]) {
        case 0x8005 => Asked(input) == ForDevlist
        case 0x8003 => |key| == BUSID ==> Asked(input) == ForImport(key)
        case _ => Asked(input) == NoRequest
      }
  {
    hide Word16, Word32;
    assert op[0..2] == input[0..2] && op[2..4] == input[2..4];
    assert key == input[UsbipWire.OP_COMMON..][..|key|];
  }

  predicate Virtual(virt: seq<Device>, key: Busid) { FindVirtual(virt, key) < |virt| }

  /** The URB stream behind the reply to an import: its events, and a prefix of their answers; with
      memory for it and a socket that holds, it goes on until a PDU tears it down. */
  ghost predicate Streamed(input: seq<Byte>, m: Means, d: Device, trace: seq<UrbReader.Event>,
                           answers: seq<Byte>, failed: bool)
  {
    var c := UrbReader.Config(Devid(d), m.maxTransfer, m.urbs);
    && UrbReader.IsTrace(input, UsbipWire.OP_COMMON + BUSID, c, trace)
    && (forall e | e in trace :: UrbReader.Allowed(e.header, c, e.outcome))
    && answers <= UrbReader.Answers(c, trace)
    && (m.stream && !failed ==> UrbReader.EndsTornDown(trace))
  }

  /** A session that answers an import of the bus ID: whether it is listed, with its reply in full
      unless the socket failed; then the stream, if the device is a physical one. */
  ghost predicate Answers(
    s: Session, key: Busid, now: State, input: seq<Byte>, m: Means, sent: seq<Byte>, failed: bool)
  {
    match s
    case Refused(complete) =>
      && Lookup(now, key).None? && (!failed ==> complete)
      && UsbipWire.Delivered([], sent, UsbipWire.ImportReply(None), complete)
    case Imported(d, trace) =>
      && Lookup(now, key) == Some(d) && Fits(d)
      && (trace.None? ==> sent <= UsbipWire.ImportReply(Some(d)) && (failed || Virtual(now.virt, key)))
      && (trace.Some? ==> !Virtual(now.virt, key) && UsbipWire.ImportReply(Some(d)) <= sent
                          && Streamed(input, m, d, trace.value, sent[|UsbipWire.ImportReply(Some(d))|..], failed))
    case _ => false
  }

  /** The client numbers the device as the import reply does: a PDU under that number is not answered
      -ENODEV, and no other is taken. */
  ghost predicate UnderItsNumber(sent: seq<Byte>, trace: seq<UrbReader.Event>) {
    var reply := UsbipWire.ReadImport(sent);
    && reply.Some? && reply.value.0.Some?
    && forall e | e in trace ::
         var named := UrbHeaders.Devid(e.header) == 0x1_0000 * reply.value.0.value.busnum + reply.value.0.value.devnum;
         (named ==> !(e.outcome.Answered? && e.outcome.status == -19)) && (e.outcome.Taken? ==> named)
  }

  lemma NumbersAgree(now: State, key: Busid, input: seq<Byte>, m: Means, d: Device, trace: seq<UrbReader.Event>,
                     sent: seq<Byte>, failed: bool)
    requires Inv(now) && Answers(Imported(d, Some(trace)), key, now, input, m, sent, failed)
    ensures UnderItsNumber(sent, trace)
  {
    hide UrbHeaders.Word, UsbipWire.ReadImport, UsbipWire.ImportReply, Inv;
    Physical(now, key, d);
    var reply := UsbipWire.ImportReply(Some(d));
    assert sent == reply + sent[|reply|..];
    UsbipWire.ImportReadsBack(Some(d), sent[|reply|..]);
    var c := UrbReader.Config(Devid(d), m.maxTransfer, m.urbs);
    forall e | e in trace
      ensures Devid(d) == UrbHeaders.Devid(e.header) ==> !(e.outcome.Answered? && e.outcome.status == -19)
      ensures e.outcome.Taken? ==> Devid(d) == UrbHeaders.Devid(e.header)
    {
      Judged(e.header, c, e.outcome);
    }
  }

  lemma Judged(h: UrbHeaders.Header, c: UrbReader.Config, o: UrbReader.Outcome)
    requires UrbReader.Allowed(h, c, o)
    ensures c.devid == UrbHeaders.Devid(h) ==> !(o.Answered? && o.status == -19)
    ensures o.Taken? ==> c.devid == UrbHeaders.Devid(h)
  {
    hide UrbHeaders.Word;
  }

  lemma Physical(now: State, key: Busid, d: Device)
    requires Inv(now) && Lookup(now, key) == Some(d) && !Virtual(now.virt, key)
    ensures Devid(d) == 0x1_0000 * d.busnum + d.devnum
  {
    hide BusIds.BusidOf, BusIds.Matches, Fits, VirtualOk, HandlesOk, Apart, FindVirtual;
    var i := Find(now.slots, ByBusid(key));
    assert SlotOk(now.slots[i], now.opens);
    SmallNumber(now.slots[i].device);
  }

  lemma SmallNumber(d: Device)
    requires d.busnum == 1 && d.devnum < 256
    ensures Devid(d) == 0x1_0000 * d.busnum + d.devnum
  {
  }

  /** What is asked for is what is answered: the listing for a DEVLIST, in full given memory; for
      an import the device listed under its bus ID, followed by that device's URB stream, which
      starts right behind the request; otherwise nothing.  Only a socket that fails cuts it short. */
  method HandleClient(dir: Directory, sock: UsbipSocket.Socket, m: Means) returns (s: Session)
    requires dir.Valid() && sock.Valid() && sock.pos == 0 && sock.sent == [] && !sock.failed
    requires dir.devices.Length + VIRTUAL_MAX < 0x1_0000_0000
    modifies sock
    ensures s.Ignored? ==> sock.sent == [] && (sock.failed || Asked(sock.input).NoRequest?)
    ensures s.Devlist? ==> Asked(sock.input).ForDevlist? && UsbipWire.AllFit(Listing(dir.Now()))
    ensures s.Devlist? ==> |Listing(dir.Now())| < 0x1_0000_0000
    ensures s.Devlist? ==>
      UsbipWire.Delivered([], sock.sent, UsbipWire.DevlistReply(Listing(dir.Now())), s.complete)
    ensures s.Devlist? ==> (s.complete <==> m.list && !sock.failed)
    ensures s.Refused? || s.Imported? ==> Asked(sock.input).ForImport?
    ensures s.Refused? || s.Imported? ==>
      Answers(s, Asked(sock.input).key, dir.Now(), sock.input, m, sock.sent, sock.failed)
    ensures s.Imported? && s.trace.Some? ==> UnderItsNumber(sock.sent, s.trace.value)
  {
    hide Asked, Inv, Descs, Lookup, Listing, Answers, Word16, UsbipWire.DevlistReply;
    s := Ignored;
    var buf := new Byte[UsbipWire.OP_COMMON];
    var ok := sock.ReadExact(buf, UsbipWire.OP_COMMON);
    if !ok { return; }
    var op := buf[..UsbipWire.OP_COMMON];
    AskedIs(sock.input, op, []);
    if Word16(op[0..2]) != UsbipWire.VERSION { return; }
    var code := Word16(op[2..4]);
    if code == REQ_DEVLIST {
      ok := dir.HandleDevlist(sock, m.list);
      s := Devlist(ok);
    } else if code == REQ_IMPORT {
      var field := new Byte[BUSID];
      ok := sock.ReadExact(field, BUSID);
      if !ok { return; }
      assert op + field[..BUSID] == sock.input[..UsbipWire.OP_COMMON + BUSID];
      AskedIs(sock.input, op, field[..BUSID]);
      s := Import(dir, sock, field[..BUSID], m);
    }
  }

  /** handle_import_request, after the bus ID has been read. */
  method Import(dir: Directory, sock: UsbipSocket.Socket, key: Busid, m: Means) returns (s: Session)
    requires dir.Valid() && sock.Valid() && sock.pos == UsbipWire.OP_COMMON + BUSID && sock.sent == [] && !sock.failed
    modifies sock
    ensures s.Refused? || s.Imported?
    ensures Answers(s, key, dir.Now(), sock.input, m, sock.sent, sock.failed)
    ensures s.Imported? && s.trace.Some? ==> UnderItsNumber(sock.sent, s.trace.value)
  {
    hide Inv, Descs, Lookup, FindVirtual, Fits, Devid, UsbipWire.ImportReply, UsbipWire.AllFit;
    hide UrbReader.IsTrace, UrbReader.Allowed, UrbReader.Answers, UrbReader.EndsTornDown;
    var ok, found := dir.HandleImport(sock, key);
    if found.None? { return Refused(ok); }
    if !ok { return Imported(found.value, None); }
    var i := dir.FindVirtualDevice(key);
    if i < dir.count { return Imported(found.value, None); }
    var trace := UrbReader.HandleStream(sock, UrbReader.Config(Devid(found.value), m.maxTransfer, m.urbs), m.stream);
    ghost var session := Imported(found.value, Some(trace));
    assert Answers(session, key, dir.Now(), sock.input, m, sock.sent, sock.failed);
    NumbersAgree(dir.Now(), key, sock.input, m, found.value, trace, sock.sent, sock.failed);
    return Imported(found.value, Some(trace));
  }
}
