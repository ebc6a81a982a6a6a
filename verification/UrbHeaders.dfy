/** The 48-byte header of main/usbip_protocol.h: requests as they arrive, replies as they leave. */
module UrbHeaders {
  import opened Bytes
  import opened Wrappers

  const HEADER: nat := 48
  const CMD_SUBMIT := 1
  const CMD_UNLINK := 2
  const RET_SUBMIT := 3
  const RET_UNLINK := 4
  const DIR_OUT := 0
  const DIR_IN := 1
  const NON_ISO := 0xFFFF_FFFF

  type Header = h: seq<Byte> | |h| == HEADER witness seq(48, _ => 0)

  /** The k-th 32-bit word of a header. */
  function Word(h: Header, k: nat): nat
    requires k < 12
  {
    Word32(h[4 * k..4 * k + 4])
  }

  function Command(h: Header): nat { Word(h, 0) }
  function Seqnum(h: Header): nat { Word(h, 1) }
  function Devid(h: Header): nat { Word(h, 2) }
  function Direction(h: Header): nat { Word(h, 3) }
  function Endpoint(h: Header): nat { Word(h, 4) }
  function Length(h: Header): int { Signed(Word(h, 6)) }
  function Packets(h: Header): nat { Word(h, 8) }
  function Target(h: Header): nat { Word(h, 5) }   // of an UNLINK: the seqnum of a SUBMIT
  predicate SetupIn(h: Header) { h[40] >= 0x80 }

  /** The reply header to request h that announces len bytes of data. */
  function RetSubmitHeader(h: Header, status: int, len: nat): (r: Header)
    requires -0x8000_0000 <= status < 0x8000_0000 && len < 0x1_0000_0000
  {
    Be32(RET_SUBMIT) + h[4..20] + Be32(Unsigned(status)) + Be32(len) + Zeros(20)
  }

  /** The whole reply: its header, and the data it announces. */
  function RetSubmit(h: Header, status: int, payload: seq<Byte>): seq<Byte>
    requires -0x8000_0000 <= status < 0x8000_0000 && |payload| < 0x1_0000_0000
  {
    RetSubmitHeader(h, status, |payload|) + payload
  }

  /** send_ret_unlink */
  function RetUnlink(h: Header): seq<Byte> {
    Be32(RET_UNLINK) + h[4..20] + Be32(0) + Zeros(24)
  }

  /** A reply as the client takes it apart. */
  datatype Reply = Reply(command: nat, seqnum: nat, status: int, payload: seq<Byte>)

  /** The client reads a header, and after a RET_SUBMIT as many bytes as its actual_length
      announces; what it has not read is the rest.  (The numbers are those of the protocol.) */
  function ReadReply(s: seq<Byte>): Option<(Reply, seq<Byte>)> {
    if |s| < 48 then None
    else
      var h := s[..48];
      var n := if Word(h, 0) == 3 then Word(h, 6) else 0;
      if |s| < 48 + n then None
      else Some((Reply(Word(h, 0), Word(h, 1), Signed(Word(h, 5)), s[48..48 + n]), s[48 + n..]))
  }

  /** The fields of a reply header, found again behind it. */
  lemma Fields(a: seq<Byte>, b: seq<Byte>, c: seq<Byte>, d: seq<Byte>, pad: seq<Byte>, more: seq<Byte>)
    requires |a| == 4 && |b| == 16 && |c| == 4 && |d| == 4 && |pad| == 20
    ensures var s := a + b + c + d + pad + more; var h := s[..HEADER];
      && h[0..4] == a && h[4..8] == b[0..4] && h[20..24] == c && h[24..28] == d && s[HEADER..] == more
  {
    var s := a + b + c + d + pad + more;
    assert s[..HEADER] == a + b + c + d + pad;
    assert a + b + c + d + pad == a + (b + (c + (d + pad)));
  }

  /** A reply is read back whole, under its request's seqnum, and nothing after it is touched. */
  lemma ReplyReadsBack(h: Header, status: int, payload: seq<Byte>, rest: seq<Byte>)
    requires -0x8000_0000 <= status < 0x8000_0000 && |payload| < 0x1_0000_0000
    ensures ReadReply(RetSubmit(h, status, payload) + rest)
      == Some((Reply(3, Seqnum(h), status, payload), rest))
  {
    hide Word32, Be32, Unsigned, Signed;
    var s := RetSubmit(h, status, payload) + rest;
    Back32(RET_SUBMIT);
    Back32(Unsigned(status));
    Back32(|payload|);
    Fields(Be32(RET_SUBMIT), h[4..20], Be32(Unsigned(status)), Be32(|payload|), Zeros(20), payload + rest);
    assert s == Be32(RET_SUBMIT) + h[4..20] + Be32(Unsigned(status)) + Be32(|payload|) + Zeros(20) + (payload + rest);
    assert h[4..20][0..4] == h[4..8];
    assert s[HEADER..HEADER + |payload|] == s[HEADER..][..|payload|] == payload;
    assert s[HEADER + |payload|..] == s[HEADER..][|payload|..] == rest;
  }

  lemma UnlinkReplyReadsBack(h: Header, rest: seq<Byte>)
    ensures ReadReply(RetUnlink(h) + rest) == Some((Reply(4, Seqnum(h), 0, []), rest))
  {
    hide Word32, Be32, Signed;
    var s := RetUnlink(h) + rest;
    Back32(RET_UNLINK);
    Back32(0);
    assert Signed(0) == 0 by { SignedZero(); }
    Fields(Be32(RET_UNLINK), h[4..20], Be32(0), Zeros(24)[..4], Zeros(24)[4..], rest);
    assert Zeros(24) == Zeros(24)[..4] + Zeros(24)[4..];
    assert s == Be32(RET_UNLINK) + h[4..20] + Be32(0) + Zeros(24)[..4] + Zeros(24)[4..] + rest;
    assert h[4..20][0..4] == h[4..8];
    assert s[HEADER..HEADER] == [];
  }

  lemma SignedZero()
    ensures Signed(0) == 0
  {}
}
