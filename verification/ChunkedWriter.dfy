/** stream_t of main/http_server.c: a buffer, a position and a sticky error, on a socket that
    may take any part of what it is given, be interrupted, or fail. */
module ChunkedWriter {
  import opened Wrappers
  import opened Numerals
  import opened ChunkedCoding

  const EINTR := 4
  const ECONNRESET := 104

  class Socket {
    var sent: string      // what the peer will receive
    var errno: int
    var interrupts: nat   // how many more times a send will be interrupted
    ghost var failed: bool  // a send has failed, other than by an interrupt

    constructor (interrupts: nat)
      ensures sent == "" && this.interrupts == interrupts && !failed
    {
      sent, errno, this.interrupts, failed := "", 0, interrupts, false;
    }

    /** send(2): -1 and errno, 0 when the peer has closed, or the length it took. */
    method Send(data: string) returns (n: int)
      requires data != ""
      modifies this
      ensures -1 <= n <= |data|
      ensures sent == if n > 0 then old(sent) + data[..n] else old(sent)
      ensures n == -1 && errno == EINTR ==> interrupts < old(interrupts)
      ensures n == -1 && errno != EINTR ==> errno > 0
      ensures interrupts <= old(interrupts)
      ensures failed == (old(failed) || n == 0 || (n == -1 && errno != EINTR))
    {
      var take: int :| -1 <= take <= |data|;
      n := take;
      failed := failed || n == 0;
      if n > 0 {
        sent := sent + data[..n];
      } else if n < 0 {
        var interrupted: bool := *;
        if interrupted && interrupts > 0 {
          errno, interrupts := EINTR, interrupts - 1;
        } else {
          var e: int :| e > 0 && e != EINTR;
          errno, failed := e, true;
        }
      }
    }
  }

  /** send_all: `err` is the sticky error before and after. */
  method SendAll(sock: Socket, data: string, err: int) returns (err': int)
    modifies sock
    ensures err != 0 ==> err' == err && sock.sent == old(sock.sent) && sock.failed == old(sock.failed)
    ensures err == 0 ==> sock.failed == (old(sock.failed) || err' != 0)
    ensures err == 0 && err' == 0 ==> sock.sent == old(sock.sent) + data
    ensures err == 0 && err' != 0 ==> exists n :: 0 <= n < |data| && sock.sent == old(sock.sent) + data[..n]
  {
    err' := err;
    if err != 0 { return; }
    var off := 0;
    while off < |data|
      invariant 0 <= off <= |data| && err' == 0
        invariant sock.failed == old(sock.failed) && sock.sent == old(sock.sent) + data[..off]
      decreases |data| - off, sock.interrupts
    {
      var n := sock.Send(data[off..]);
      if n < 0 {
        if sock.errno == EINTR { continue; }
        err' := sock.errno;
        return;
      }
      if n == 0 {
        err' := ECONNRESET;
        return;
      }
      assert data[..off] + data[off..][..n] == data[..off + n];
      off := off + n;
    }
    assert data[..off] == data;
  }

  /** What stream_printf passes on of a formatted text: its buffer holds 2047 characters. */
  function Cut(text: string): string { if |text| < 2048 then text else text[..2047] }

  class Stream {
    const sock: Socket
    const buf: array<char>
    var pos: nat
    var err: int
    ghost const base: string      // what was sent before the body: the response's header
    ghost var ideal: Ideal        // where the writer would be, had nothing failed
    ghost var content: string     // everything written so far

    /** What the peer has is always a prefix of the fault-free body, and all of it so far unless
        a send has failed. */
    ghost predicate Valid()
      reads this, sock, buf
    {
      && pos <= buf.Length && buf.Length > 0
      && NoEmptyChunk(ideal) && |ideal.pending| <= buf.Length && Content(ideal) == content
      && sock.sent <= base + Chunks(ideal.chunks)
      && (err != 0 <==> sock.failed)
      && (err == 0 ==> sock.sent == base + Chunks(ideal.chunks) && buf[..pos] == ideal.pending)
    }

    /** stream_begin, with the text of the header. */
    constructor (sock: Socket, capacity: nat, header: string)
      requires capacity > 0 && !sock.failed
      modifies sock
      ensures this.sock == sock && buf.Length == capacity && fresh(buf)
      ensures base == old(sock.sent) + header && ideal == Ideal([], "") && content == ""
      ensures Valid()
    {
      this.sock := sock;
      buf := new char[capacity];
      pos, err := 0, 0;
      base := sock.sent + header;
      ideal := Ideal([], "");
      content := "";
      new;
      err := SendAll(sock, header, err);
    }

    /** Sends one chunk: size line, data, CRLF.  The error is sticky across the three sends. */
    method SendChunk(data: string)
      modifies this`err, sock
      requires err != 0 <==> sock.failed
      ensures err != 0 <==> sock.failed
      ensures old(err) != 0 ==> err == old(err) && sock.sent == old(sock.sent)
      ensures old(err) == 0 && err == 0 ==> sock.sent == old(sock.sent) + Chunk(data)
      ensures old(err) == 0 && err != 0 ==> old(sock.sent) <= sock.sent <= old(sock.sent) + Chunk(data)
    {
      err := SendAll(sock, Print(|data|, Hex) + CRLF, err);
      err := SendAll(sock, data, err);
      err := SendAll(sock, CRLF, err);
    }

    /** stream_flush */
    method Flush()
      requires Valid()
      modifies this, sock
      ensures Valid() && ideal == Flushed(old(ideal)) && content == old(content)
      ensures pos == 0 && (old(err) != 0 ==> err == old(err))
    {
      hide Chunks, Chunk, Concat, Content;
      FlushKeeps(ideal);
      ChunksPush(ideal.chunks, ideal.pending);
      assert base + Chunks(ideal.chunks) + Chunk(ideal.pending) == base + (Chunks(ideal.chunks) + Chunk(ideal.pending));
      ideal := Flushed(ideal);
      if pos == 0 { return; }
      SendChunk(buf[..pos]);
      pos := 0;
    }

    /** stream_write, of data whose length the caller gives. */
    method Write(data: string)
      requires Valid()
      modifies this, sock, buf
      ensures Valid() && ideal == Written(old(ideal), buf.Length, data) && content == old(content) + data
    {
      hide Chunks, Chunk, Concat;
      ghost var w := ideal;
      WriteKeeps(w, buf.Length, data);
      WriteGrows(w, buf.Length, data);
      if |data| == 0 { return; }
      if err != 0 {
        ideal, content := Written(w, buf.Length, data), content + data;
        return;
      }
      if pos + |data| <= buf.Length {
        Store(data);
        ideal, content := Written(w, buf.Length, data), content + data;
        return;
      }
      Flush();
      if |data| > buf.Length {
        ChunksPush(ideal.chunks, data);
        assert base + Chunks(ideal.chunks) + Chunk(data) == base + (Chunks(ideal.chunks) + Chunk(data));
        SendChunk(data);
        ideal, content := Written(w, buf.Length, data), content + data;
        return;
      }
      Store(data);
      ideal, content := Written(w, buf.Length, data), content + data;
    }

    /** stream_printf, of text already formatted: at most 2047 characters of it. */
    method Printf(text: string)
      requires Valid()
      modifies this, sock, buf
      ensures Valid() && content == old(content) + Cut(text)
    {
      Write(Cut(text));
    }

    /** memcpy(buf + pos, data, len); pos += len */
    method Store(data: string)
      requires pos + |data| <= buf.Length
      modifies this`pos, buf
      ensures pos == old(pos) + |data| && buf[..pos] == old(buf[..pos]) + data
    {
      forall k | 0 <= k < |data| { buf[pos + k] := data[k]; }
      pos := pos + |data|;
    }

    /** stream_end.  Without a failure the peer has the whole body; in any case a prefix of it. */
    method End()
      requires Valid()
      modifies this, sock
      ensures err != 0 <==> sock.failed
      ensures sock.sent <= base + Body(old(ideal))
      ensures err == 0 ==> sock.sent == base + Body(old(ideal)) && Decode(sock.sent[|base|..]) == Some(old(content))
    {
      hide Decode, Chunks, Concat;
      BodyDecodesTo(ideal);
      Flush();
      err := SendAll(sock, LAST_CHUNK, err);
    }
  }
}
