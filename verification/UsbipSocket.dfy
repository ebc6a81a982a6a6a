/** A TCP connection of main/usbip_server.c, and the helpers that loop over recv and send. */
module UsbipSocket {
  import opened Bytes

  const SCRATCH: nat := 128

  /** A connection: all that the peer will ever send, how much of it has been received, and what
      has been sent to the peer. */
  class Socket {
    const input: seq<Byte>
    var pos: nat
    var sent: seq<Byte>
    ghost var failed: bool   // a receive or a send has not gone through

    ghost predicate Valid()
      reads this
    {
      pos <= |input|
    }

    constructor (input: seq<Byte>)
      ensures this.input == input && pos == 0 && sent == [] && !failed && Valid()
    {
      this.input, pos, sent, failed := input, 0, [], false;
    }

    /** recv(2) into buf[at..]: the length received, or at most 0 on error or end of stream. */
    method Recv(buf: array<Byte>, at: nat, len: nat) returns (n: int)
      requires Valid() && at + len <= buf.Length
      modifies this`pos, this`failed, buf
      ensures Valid() && n <= len && failed == (old(failed) || n <= 0)
      ensures n <= 0 ==> pos == old(pos) && buf[..] == old(buf[..])
      ensures n > 0 ==> pos == old(pos) + n
      ensures n > 0 ==> buf[..] == old(buf[..at]) + input[old(pos)..pos] + old(buf[at..])[n..]
    {
      n :| n <= len && pos + n <= |input|;
      failed := failed || n <= 0;
      if n > 0 {
        forall k | 0 <= k < n { buf[at + k] := input[pos + k]; }
        pos := pos + n;
      }
    }

    /** send(2): the length taken, or at most 0 on error. */
    method Send(data: seq<Byte>) returns (n: int)
      modifies this`sent, this`failed
      ensures n <= |data| && failed == (old(failed) || n <= 0)
      ensures sent == if n > 0 then old(sent) + data[..n] else old(sent)
    {
      n :| n <= |data|;
      failed := failed || n <= 0;
      if n > 0 { sent := sent + data[..n]; }
    }

    /** read_exact: exactly len bytes, however the stream is cut up, or false. */
    method ReadExact(buf: array<Byte>, len: nat) returns (ok: bool)
      requires Valid() && len <= buf.Length
      modifies this`pos, this`failed, buf
      ensures Valid() && pos >= old(pos) && failed == (old(failed) || !ok)
      ensures ok ==> pos == old(pos) + len && buf[..len] == input[old(pos)..pos]
      ensures buf[len..] == old(buf[len..])
    {
      var remaining: nat := len;
      while remaining > 0
        invariant remaining <= len && pos == old(pos) + len - remaining && Valid() && failed == old(failed)
        invariant buf[..len - remaining] == input[old(pos)..pos]
        invariant buf[len..] == old(buf[len..])
      {
        ghost var before, from := buf[..], pos;
        var n := Recv(buf, len - remaining, remaining);
        if n <= 0 { return false; }
        assert buf[..len - remaining + n] == before[..len - remaining] + input[from..pos];
        assert input[old(pos)..pos] == input[old(pos)..from] + input[from..pos];
        assert buf[len..] == before[len..];
        remaining := remaining - n;
      }
      return true;
    }

    /** discard_exact: skips exactly len bytes, a scratch buffer at a time. */
    method DiscardExact(len: nat) returns (ok: bool)
      requires Valid()
      modifies this`pos, this`failed
      ensures Valid() && pos >= old(pos) && failed == (old(failed) || !ok)
      ensures ok ==> pos == old(pos) + len
    {
      var scratch := new Byte[SCRATCH];
      var remaining: nat := len;
      while remaining > 0
        invariant remaining <= len && pos == old(pos) + len - remaining && Valid() && failed == old(failed)
      {
        var chunk := if remaining > SCRATCH then SCRATCH else remaining;
        ok := ReadExact(scratch, chunk);
        if !ok { return false; }
        remaining := remaining - chunk;
      }
      return true;
    }

    /** write_all: all of the data, or false and some proper prefix of it. */
    method WriteAll(data: seq<Byte>) returns (ok: bool)
      modifies this`sent, this`failed
      ensures failed == (old(failed) || !ok)
      ensures ok ==> sent == old(sent) + data
      ensures !ok ==> exists n :: 0 <= n < |data| && sent == old(sent) + data[..n]
    {
      var remaining: nat := |data|;
      while remaining > 0
        invariant failed == old(failed) && remaining <= |data| && sent == old(sent) + data[..|data| - remaining]
      {
        var off := |data| - remaining;
        var n := Send(data[off..]);
        if n <= 0 { return false; }
        assert data[..off] + data[off..][..n] == data[..off + n];
        remaining := remaining - n;
      }
      return true;
    }
  }
}
