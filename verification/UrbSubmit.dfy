/** The requests of a USB/IP client, field by field as the protocol lays them out, and what the
    reader of main/usbip_server.c does with them. */
module UrbSubmit {
  import opened Bytes
  import opened UrbHeaders
  import opened UrbReader
  import UrbSync
  import UrbWorker

  type U32 = n: nat | n < 0x1_0000_0000
  type S32 = i: int | -0x8000_0000 <= i < 0x8000_0000
  type Setup = s: seq<Byte> | |s| == 8 witness seq(8, _ => 0)

  /** USBIP_CMD_SUBMIT */
  datatype Submit = Submit(
    seqnum: U32, devid: U32, direction: U32, ep: U32, flags: U32, length: S32,
    startFrame: U32, packets: U32, interval: U32, setup: Setup)

  /** A 32-bit number as it goes over the network. */
  function Word(i: int): (s: seq<Byte>)
    requires -0x8000_0000 <= i < 0x1_0000_0000
    ensures |s| == 4
  {
    var n := if i < 0 then i + 0x1_0000_0000 else i;
    [n / 0x100_0000, n / 0x1_0000 % 0x100, n / 0x100 % 0x100, n % 0x100]
  }

  function Basic(command: U32, seqnum: U32, devid: U32, direction: U32, ep: U32): (s: seq<Byte>)
    ensures |s| == 20
  {
    Word(command) + Word(seqnum) + Word(devid) + Word(direction) + Word(ep)
  }

  function Write(x: Submit): Header {
    Basic(1, x.seqnum, x.devid, x.direction, x.ep)
    + (Word(x.flags) + Word(x.length) + Word(x.startFrame) + Word(x.packets) + Word(x.interval) + x.setup)
  }

  /** USBIP_CMD_UNLINK */
  function WriteUnlink(seqnum: U32, devid: U32, direction: U32, ep: U32, target: U32): Header {
    Basic(2, seqnum, devid, direction, ep) + (Word(target) + Zeros(24))
  }

  lemma WordReads(i: int)
    requires -0x8000_0000 <= i < 0x1_0000_0000
    ensures Word32(Word(i)) == if i < 0 then i + 0x1_0000_0000 else i
    ensures i < 0x8000_0000 ==> Signed(Word32(Word(i))) == i
  {
    var n := if i < 0 then i + 0x1_0000_0000 else i;
    BigEndian(n);
    Back32(n);
  }

  lemma BasicReads(command: U32, seqnum: U32, devid: U32, direction: U32, ep: U32, more: seq<Byte>)
    requires |more| == 28
    ensures var h: Header := Basic(command, seqnum, devid, direction, ep) + more;
      && Command(h) == command && Seqnum(h) == seqnum && Devid(h) == devid
      && Direction(h) == direction && Endpoint(h) == ep
  {
    hide Word, Word32;
    WordReads(command);
    WordReads(seqnum);
    WordReads(devid);
    WordReads(direction);
    WordReads(ep);
    var h: Header := Basic(command, seqnum, devid, direction, ep) + more;
    assert h[0..4] == Word(command) && h[4..8] == Word(seqnum) && h[8..12] == Word(devid);
    assert h[12..16] == Word(direction) && h[16..20] == Word(ep);
  }

  /** The reader finds every field where the client has put it. */
  lemma SubmitReads(x: Submit)
    ensures var h := Write(x);
      && Command(h) == 1 && Seqnum(h) == x.seqnum && Devid(h) == x.devid && Direction(h) == x.direction
      && Endpoint(h) == x.ep && Length(h) == x.length && Packets(h) == x.packets
      && h[40..48] == x.setup && (SetupIn(h) <==> x.setup[0] >= 0x80)
  {
    hide Word, Word32, Signed, Basic;
    var h := Write(x);
    var more := Word(x.flags) + Word(x.length) + Word(x.startFrame) + Word(x.packets) + Word(x.interval) + x.setup;
    BasicReads(1, x.seqnum, x.devid, x.direction, x.ep, more);
    WordReads(x.length);
    WordReads(x.packets);
    assert h[24..28] == more[4..8] == Word(x.length) && h[32..36] == more[12..16] == Word(x.packets);
    assert h[40..48] == more[20..28] == x.setup && h[40] == x.setup[0];
  }

  lemma UnlinkReads(seqnum: U32, devid: U32, direction: U32, ep: U32, target: U32)
    ensures var h := WriteUnlink(seqnum, devid, direction, ep, target);
      Command(h) == 2 && Seqnum(h) == seqnum && Target(h) == target
  {
    hide Word, Word32, Basic;
    var h := WriteUnlink(seqnum, devid, direction, ep, target);
    BasicReads(2, seqnum, devid, direction, ep, Word(target) + Zeros(24));
    WordReads(target);
    assert h[20..24] == Word(target);
  }

  // ---------------------------------------------------------------------------------------
  // What becomes of them

  /** A SUBMIT that the imported device can be given: of a size that is allowed, IN or OUT, for that
      device, not isochronous, and to endpoint 0 only in the direction of its setup packet. */
  predicate Acceptable(x: Submit, devid: nat, maxTransfer: nat) {
    && 0 <= x.length <= maxTransfer && x.direction in {0, 1} && x.devid == devid && x.packets in {0, 0xFFFF_FFFF}
    && (x.ep == 0 ==> (x.direction == 1 <==> x.setup[0] >= 0x80))
  }

  /** The memory it takes: a buffer for the data it has or asks for, its work item and a task. */
  predicate Affordable(x: Submit, m: Supply) {
    (x.length > 0 ==> if x.direction == 0 then m.outData else m.inData) && m.item && m.task
  }

  /** A SUBMIT reaches a worker if and only if it is acceptable and there is memory, unless the
      socket fails; with its data, or room for its answer. */
  lemma ServedExactly(x: Submit, c: Config, m: Supply, o: Outcome)
    requires Handled(Write(x), c, m, o) && !o.Lost?
    ensures o.Taken? <==> Acceptable(x, c.devid, c.maxTransfer) && Affordable(x, m)
    ensures o.Taken? ==> |o.out| == (if x.direction == 0 then x.length else 0)
    ensures o.Taken? ==> o.inCapacity == if x.direction == 1 then x.length else 0
  {
    hide Write, Command, Devid, Direction, Endpoint, Length, Packets, SetupIn;
    SubmitReads(x);
  }

  /** What a worker is handed is what the client has asked for. */
  lemma WorkersGet(x: Submit, c: Config, m: Supply, o: Outcome)
    requires Handled(Write(x), c, m, o) && o.Taken? && x.ep < 0x80
    ensures var h := Write(x);
      && UrbWorker.Accepted(h) && Endpoint(h) == x.ep && Direction(h) == x.direction && Length(h) == x.length
      && h[40..48] == x.setup && Seqnum(h) == x.seqnum
      && o.inCapacity == InCapacity(h) && |o.out| == OutLength(h)
  {
    hide Write, Command, Devid, Direction, Endpoint, Length, Packets, SetupIn, Seqnum;
    SubmitReads(x);
    assert Write(x)[40..48][0] == Write(x)[40];
  }

  /** Otherwise the answer says why: its size is wrong, it is for another device, it is isochronous,
      it contradicts its setup packet, or there is no memory; only a direction that does not exist
      ends the connection.  The data behind it are taken with the second, third and last answer. */
  lemma RefusedBecause(x: Submit, c: Config, m: Supply, o: Outcome)
    requires Handled(Write(x), c, m, o) && !o.Lost? && !o.Taken?
    ensures var sized, known := 0 <= x.length <= c.maxTransfer, x.direction in {0, 1};
      && (o.TornDown? <==> sized && !known) && (o.TornDown? || o.Answered?)
      && (o.Answered? ==>
            && o.status in {-22, -122, -19, -95, -12}
            && (o.status == -122 <==> x.length > c.maxTransfer)
            && (o.status == -19 <==> sized && x.devid != c.devid)
            && (o.status == -95 <==> sized && x.devid == c.devid && x.packets !in {0, 0xFFFF_FFFF})
            && (o.status == -12 <==> Acceptable(x, c.devid, c.maxTransfer))
            && o.skipped == if o.status in {-122, -19, -12} && x.direction == 0 then x.length else 0)
  {
    hide Write, Command, Devid, Direction, Endpoint, Length, Packets, SetupIn;
    SubmitReads(x);
  }

  /** An UNLINK is for the SUBMIT that it names, and is answered. */
  lemma UnlinkHandled(seqnum: U32, devid: U32, direction: U32, ep: U32, target: U32, c: Config, m: Supply, o: Outcome)
    requires Handled(WriteUnlink(seqnum, devid, direction, ep, target), c, m, o) && !o.Lost?
    ensures o == Unlinked(target)
  {
    hide WriteUnlink, Command, Target;
    UnlinkReads(seqnum, devid, direction, ep, target);
  }

  /** Any other command ends the connection. */
  lemma OtherCommands(command: U32, more: seq<Byte>, c: Config, m: Supply, o: Outcome)
    requires command !in {1, 2} && |more| == 44 && Handled(Word(command) + more, c, m, o)
    ensures o.TornDown?
  {
    hide Word, Word32;
    WordReads(command);
    assert (Word(command) + more)[0..4] == Word(command);
  }

  /** What the protocol puts behind a SUBMIT, and when the reader loses step with it. */
  lemma SubmitInStep(x: Submit, c: Config)
    ensures var h, iso := Write(x), x.packets !in {0, 0xFFFF_FFFF};
      && UrbSync.DataLength(h) ==
           (if x.direction == 0 && x.length > 0 then x.length else 0) + (if iso then 16 * x.packets else 0)
      && (UrbSync.LosesStep(h, c) <==>
            iso || (x.ep == 0 && x.direction == 0 && x.setup[0] >= 0x80
                    && x.devid == c.devid && 0 < x.length <= c.maxTransfer))
  {
    hide Write, Command, Devid, Direction, Endpoint, Length, Packets, SetupIn;
    SubmitReads(x);
  }
}
