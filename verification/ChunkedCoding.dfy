/** The chunked transfer coding of section 7.1 of RFC 9112, and what the buffered writer of
    main/http_server.c puts on a connection that never fails. */
module ChunkedCoding {
  import opened Wrappers
  import opened Numerals

  const CRLF := "\r\n"
  const LAST_CHUNK := "0\r\n\r\n"

  function Concat(parts: seq<string>): string {
    if parts == [] then "" else parts[0] + Concat(parts[1..])
  }

  lemma {:induction false} ConcatMore(a: seq<string>, b: seq<string>)
    ensures Concat(a + b) == Concat(a) + Concat(b)
  {
    if a == [] {
      assert a + b == b;
    } else {
      ConcatMore(a[1..], b);
      assert (a + b)[1..] == a[1..] + b;
    }
  }

  function Chunk(data: string): string {
    Print(|data|, Hex) + CRLF + data + CRLF
  }

  function Chunks(parts: seq<string>): string {
    if parts == [] then "" else Chunk(parts[0]) + Chunks(parts[1..])
  }

  lemma {:induction false} ChunksMore(a: seq<string>, b: seq<string>)
    ensures Chunks(a + b) == Chunks(a) + Chunks(b)
  {
    hide Chunk;
    if a == [] {
      assert a + b == b;
    } else {
      ChunksMore(a[1..], b);
      assert (a + b)[1..] == a[1..] + b;
      assert (a + b)[0] == a[0];
    }
  }

  lemma ChunksPush(a: seq<string>, data: string)
    ensures Chunks(a + [data]) == Chunks(a) + Chunk(data)
  {
    ChunksMore(a, [data]);
    assert Chunks([data]) == Chunk(data) + Chunks([]) == Chunk(data);
  }

  /** chunk-size CRLF at the head of the input, and what follows. */
  function ChunkSize(body: string): (r: Option<(nat, string)>)
    ensures r.Some? ==> |r.value.1| < |body|
  {
    var n := Run(body, Hex);
    if n == 0 || |body| < n + 2 || body[n..n + 2] != CRLF then None
    else Some((Read(body[..n], Hex), body[n + 2..]))
  }

  /** A recipient: chunk-size CRLF chunk-data CRLF, until a size of zero and a final CRLF. */
  function Decode(body: string): Option<string>
    decreases |body|
  {
    var head := ChunkSize(body);
    if head.None? then None
    else
      var (size, rest) := head.value;
      if size == 0 then (if rest == CRLF then Some("") else None)
      else if |rest| < size + 2 || rest[size..size + 2] != CRLF then None
      else
        var more := Decode(rest[size + 2..]);
        if more.None? then None else Some(rest[..size] + more.value)
  }

  lemma SizeBack(n: nat, rest: string)
    ensures ChunkSize(Print(n, Hex) + (CRLF + rest)) == Some((n, rest))
  {
    hide Read, Run, Print;
    var size := Print(n, Hex);
    var body := size + (CRLF + rest);
    ReadPrint(n, Hex);
    RunPrint(n, Hex, CRLF + rest);
    assert body[..|size|] == size && body[|size|..|size| + 2] == CRLF && body[|size| + 2..] == rest;
  }

  lemma DecodeChunk(data: string, more: string)
    requires data != ""
    ensures Decode(Chunk(data) + more) ==
              if Decode(more).None? then None else Some(data + Decode(more).value)
  {
    hide ChunkSize, Print;
    var rest := data + CRLF + more;
    SizeBack(|data|, rest);
    assert Chunk(data) + more == Print(|data|, Hex) + (CRLF + rest);
    assert rest[..|data|] == data && rest[|data|..|data| + 2] == CRLF && rest[|data| + 2..] == more;
  }

  lemma DecodeLast()
    ensures Decode(LAST_CHUNK) == Some("")
  {
    hide ChunkSize;
    assert Print(0, Hex) == "0";
    assert LAST_CHUNK == Print(0, Hex) + (CRLF + CRLF);
    SizeBack(0, CRLF);
  }

  /** Decoding recovers the data, whatever the chunk boundaries, as long as no chunk is empty. */
  lemma {:induction false} DecodeChunks(parts: seq<string>)
    requires forall p | p in parts :: p != ""
    ensures Decode(Chunks(parts) + LAST_CHUNK) == Some(Concat(parts))
  {
    hide Decode, Chunk;
    if parts == [] {
      assert Chunks(parts) + LAST_CHUNK == LAST_CHUNK;
      DecodeLast();
    } else {
      assert parts[0] in parts && forall p | p in parts[1..] :: p in parts;
      DecodeChunks(parts[1..]);
      DecodeChunk(parts[0], Chunks(parts[1..]) + LAST_CHUNK);
      assert Chunks(parts) + LAST_CHUNK == Chunk(parts[0]) + (Chunks(parts[1..]) + LAST_CHUNK);
    }
  }

  // ---------------------------------------------------------------------------------------
  // The writer on a connection that never fails

  /** The chunks emitted, and what is still in the buffer. */
  datatype Ideal = Ideal(chunks: seq<string>, pending: string)

  function Flushed(w: Ideal): Ideal {
    if w.pending == "" then w else Ideal(w.chunks + [w.pending], "")
  }

  function Written(w: Ideal, capacity: nat, data: string): Ideal {
    if data == "" then w
    else if |w.pending| + |data| <= capacity then w.(pending := w.pending + data)
    else if |data| > capacity then Ideal(Flushed(w).chunks + [data], "")
    else Ideal(Flushed(w).chunks, data)
  }

  predicate NoEmptyChunk(w: Ideal) {
    forall c | c in w.chunks :: c != ""
  }

  function Content(w: Ideal): string {
    Concat(w.chunks) + w.pending
  }

  lemma FlushKeeps(w: Ideal)
    requires NoEmptyChunk(w)
    ensures NoEmptyChunk(Flushed(w)) && Content(Flushed(w)) == Content(w)
  {
    ConcatMore(w.chunks, [w.pending]);
    assert Concat([w.pending]) == w.pending;
  }

  lemma WriteKeeps(w: Ideal, capacity: nat, data: string)
    requires NoEmptyChunk(w) && |w.pending| <= capacity
    ensures
      var v := Written(w, capacity, data);
      NoEmptyChunk(v) && |v.pending| <= capacity && Content(v) == Content(w) + data
  {
    FlushKeeps(w);
    ConcatMore(Flushed(w).chunks, [data]);
    assert Concat([data]) == data;
  }

  /** What has been emitted is never taken back. */
  lemma WriteGrows(w: Ideal, capacity: nat, data: string)
    ensures Chunks(w.chunks) <= Chunks(Written(w, capacity, data).chunks)
  {
    hide Chunks;
    ChunksMore(w.chunks, [w.pending]);
    ChunksMore(Flushed(w).chunks, [data]);
  }

  function WriteAll(w: Ideal, capacity: nat, writes: seq<string>): Ideal
    decreases writes
  {
    if writes == [] then w else WriteAll(Written(w, capacity, writes[0]), capacity, writes[1..])
  }

  lemma {:induction false} WriteAllKeeps(w: Ideal, capacity: nat, writes: seq<string>)
    requires NoEmptyChunk(w) && |w.pending| <= capacity
    ensures
      var v := WriteAll(w, capacity, writes);
      NoEmptyChunk(v) && |v.pending| <= capacity && Content(v) == Content(w) + Concat(writes)
    decreases writes
  {
    if writes != [] {
      WriteKeeps(w, capacity, writes[0]);
      WriteAllKeeps(Written(w, capacity, writes[0]), capacity, writes[1..]);
    }
  }

  /** The body of the whole response. */
  function Body(w: Ideal): string {
    Chunks(Flushed(w).chunks) + LAST_CHUNK
  }

  lemma BodyDecodesTo(w: Ideal)
    requires NoEmptyChunk(w)
    ensures Decode(Body(w)) == Some(Content(w))
  {
    hide Decode, Chunks, Concat;
    FlushKeeps(w);
    DecodeChunks(Flushed(w).chunks);
    assert Content(Flushed(w)) == Concat(Flushed(w).chunks) + "" == Concat(Flushed(w).chunks);
  }

  /** For any writes, split over chunks however the buffer falls, a recipient that decodes the
      body gets exactly what was written. */
  lemma BodyDecodes(capacity: nat, writes: seq<string>)
    ensures Decode(Body(WriteAll(Ideal([], ""), capacity, writes))) == Some(Concat(writes))
  {
    hide Decode, Body, WriteAll;
    WriteAllKeeps(Ideal([], ""), capacity, writes);
    assert Content(Ideal([], "")) == "" && "" + Concat(writes) == Concat(writes);
    BodyDecodesTo(WriteAll(Ideal([], ""), capacity, writes));
  }
}
