/** The config document of main/http_server.c: what the exporter prints and what the
    strstr/strchr importer reads back. */
module ConfigText {
  import opened Wrappers
  import opened QuotedText

  const CONFIG_EXPORT_VERSION := 1
  const DEVICE_NAME_MAX_LEN := 64

  // ---------------------------------------------------------------------------------------
  // The scanners

  /** A value between quotes: where it starts, and its length. */
  datatype Value = Value(start: nat, len: nat)

  /** json_str_after */
  function JsonStrAfter(t: string, from: nat, key: string): (r: Option<Value>)
    requires from <= |t|
    ensures r.Some? ==> from + |key| < r.value.start && r.value.start + r.value.len < |t|
    ensures r.Some? ==> t[r.value.start + r.value.len] == '"'
  {
    var k := StrStr(t, from, key);
    if k.None? then None else
    var c := StrChr(t, k.value + |key|, ':');
    if c.None? then None else QuotedAfter(t, c.value)
  }

  /** The next quoted value at or after `from`. */
  function QuotedAfter(t: string, from: nat): (r: Option<Value>)
    requires from <= |t|
    ensures r.Some? ==> from < r.value.start && r.value.start + r.value.len < |t|
    ensures r.Some? ==> t[r.value.start + r.value.len] == '"'
  {
    var q1 := StrChr(t, from, '"');
    if q1.None? then None else
    var q2 := StrChr(t, q1.value + 1, '"');
    if q2.None? then None else Some(Value(q1.value + 1, q2.value - q1.value - 1))
  }

  function Slice(t: string, v: Value): string
    requires v.start + v.len <= |t|
  {
    t[v.start..v.start + v.len]
  }

  /** strtol(t + from, &end, 10): None when end == t + from. */
  function StrToL(t: string, from: nat): (r: Option<int>)
    requires from <= |t|
    decreases |t| - from
  {
    if from == |t| then None
    else if t[from] in {' ', '\t', '\n', '\r', '\U{0B}', '\U{0C}'} then StrToL(t, from + 1)
    else if t[from] == '-' || t[from] == '+' then
      if from + 1 < |t| && IsDigit(t[from + 1]) then
        Some(if t[from] == '-' then -(Digits(t, from + 1, 0) as int) else Digits(t, from + 1, 0))
      else None
    else if IsDigit(t[from]) then Some(Digits(t, from, 0)) else None
  }

  predicate IsDigit(c: char) { '0' <= c <= '9' }

  function Digits(t: string, from: nat, acc: nat): nat
    requires from <= |t|
    decreases |t| - from
  {
    if from == |t| || !IsDigit(t[from]) then acc
    else Digits(t, from + 1, 10 * acc + (t[from] as int - '0' as int))
  }

  /** json_int_after */
  function JsonIntAfter(t: string, from: nat, key: string): Option<int>
    requires from <= |t|
  {
    var k := StrStr(t, from, key);
    if k.None? then None else
    var c := StrChr(t, k.value + |key|, ':');
    if c.None? then None else StrToL(t, PastColons(t, c.value))
  }

  function PastColons(t: string, from: nat): (r: nat)
    requires from <= |t|
    ensures from <= r <= |t|
    decreases |t| - from
  {
    if from < |t| && t[from] in {':', ' ', '\t'} then PastColons(t, from + 1) else from
  }

  /** What the wire loop makes of one "pin" it visits. */
  datatype Item = Pair(pin: string, wire: string) | NoWire

  /** One turn of the wire loop at scan position p: what it visits, and the next position,
      which is always further on and never past the terminator. */
  function Visit(t: string, p: nat): (r: Option<(Item, nat)>)
    requires p <= |t|
    ensures r.Some? ==> p < r.value.1 <= |t|
  {
    var pin := JsonStrAfter(t, p, "\"pin\"");
    if pin.None? then None else
    var end := pin.value.start + pin.value.len;
    var next := StrStr(t, end, "\"pin\"");
    var wire := JsonStrAfter(t, end + 1, "\"wire\"");
    if wire.None? || (next.Some? && wire.value.start > next.value) then
      Some((NoWire, if next.Some? then next.value else end + 1))
    else
      Some((Pair(Slice(t, pin.value), Slice(t, wire.value)), wire.value.start + wire.value.len + 1))
  }

  /** The wire loop from scan position p on. */
  function Scan(t: string, p: nat): seq<Item>
    requires p <= |t|
    decreases |t| - p
  {
    var v := Visit(t, p);
    if v.None? then [] else [v.value.0] + Scan(t, v.value.1)
  }

  /** Where the wire loop starts, if the document has wires. */
  function WiresStart(t: string): (r: Option<nat>)
    ensures r.Some? ==> r.value <= |t|
  {
    var k := StrStr(t, 0, "\"wires\"");
    if k.None? then None else
    var lb := StrChr(t, k.value, '[');
    Some(if lb.Some? then lb.value + 1 else k.value + 7)
  }

  // ---------------------------------------------------------------------------------------
  // The scanners, on a text split at its quotes

  lemma QuoteChr(t: string, p: nat, segs: seq<string>)
    requires At(t, p, segs)
    ensures StrChr(t, p, '"') == if |segs| > 1 then Some(p + |segs[0]|) else None
  {
    Skip(t, p, segs);
    assert QuoteFree(segs[0]) by { assert segs[0] in segs; }
    if |segs| > 1 {
      Step(t, p + |segs[0]|, [""] + segs[1..]);
      FirstChr(t, p, p + |segs[0]|, '"');
    } else {
      assert t[p..] == segs[0];
      NoChr(t, p, '"');
    }
  }

  lemma {:induction false} FirstChr(t: string, p: nat, q: nat, c: char)
    requires p <= q < |t| && t[q] == c && c !in t[p..q]
    ensures StrChr(t, p, c) == Some(q)
    decreases q - p
  {
    if p < q {
      assert t[p] == t[p..q][0];
      assert t[p + 1..q] == t[p..q][1..];
      FirstChr(t, p + 1, q, c);
    }
  }

  lemma {:induction false} NoChr(t: string, p: nat, c: char)
    requires p <= |t| && c !in t[p..]
    ensures StrChr(t, p, c) == None
    decreases |t| - p
  {
    if p < |t| {
      assert t[p] == t[p..][0];
      assert t[p + 1..] == t[p..][1..];
      NoChr(t, p + 1, c);
    }
  }

  /** The piece json_str_after answers with, or |segs|. */
  function ValuePiece(segs: seq<string>, key: string): (v: nat)
    requires segs != []
    ensures v == |segs| || 2 <= v < |segs| - 1
  {
    var j := NextKey(segs, key);
    if j == |segs| then |segs|
    else
      var m := j + 1 + PieceWith(segs[j + 1..], ':');
      if m + 2 < |segs| then m + 1 else |segs|
  }

  /** r is the piece v of segs, and the text goes on from there. */
  ghost predicate IsPiece(t: string, r: Option<Value>, segs: seq<string>, v: nat) {
    && (r.Some? <==> v < |segs|)
    && (r.Some? ==> r.value.start + r.value.len <= |t| && r.value.len == |segs[v]|
                    && Slice(t, r.value) == segs[v] && At(t, r.value.start, segs[v..]))
  }

  lemma NextValue(t: string, p: nat, segs: seq<string>)
    requires At(t, p, segs)
    ensures IsPiece(t, QuotedAfter(t, p), segs, if |segs| > 2 then 1 else |segs|)
  {
    QuoteChr(t, p, segs);
    Skip(t, p, segs);
    if |segs| > 1 {
      var q := p + |segs[0]| + 1;
      QuoteChr(t, q, segs[1..]);
      Skip(t, q, segs[1..]);
    }
  }

  lemma SamePieceIn(t: string, r: Option<Value>, a: seq<string>, v: nat, b: seq<string>, w: nat)
    requires IsPiece(t, r, a, v) && (v < |a| <==> w < |b|) && (v < |a| ==> a[v..] == b[w..])
    ensures IsPiece(t, r, b, w)
  {
    if v < |a| { assert a[v..][0] == b[w..][0]; }
  }

  lemma NoPiece(t: string, a: seq<string>)
    ensures IsPiece(t, None, a, |a|)
  {}

  lemma PastColon(t: string, c: nat)
    requires c < |t| && t[c] == ':'
    ensures QuotedAfter(t, c) == QuotedAfter(t, c + 1)
  {
    assert StrChr(t, c, '"') == StrChr(t, c + 1, '"');
  }

  lemma ColonThenValue(t: string, p: nat, segs: seq<string>)
    requires At(t, p, segs)
    ensures
      var m, c := PieceWith(segs, ':'), StrChr(t, p, ':');
      && (c.None? <==> m == |segs|)
      && (c.Some? ==> IsPiece(t, QuotedAfter(t, c.value), segs, if m + 2 < |segs| then m + 1 else |segs|))
  {
    hide QuotedAfter, StrChr, Join, PieceWith, IsPiece;
    FindChar(t, p, segs, ':');
    var m := PieceWith(segs, ':');
    if m < |segs| {
      var rest :| StopsIn(t, p, segs, ':', m, rest);
      var c := StrChr(t, p, ':').value;
      var tail := [rest] + segs[m + 1..];
      NextValue(t, c + 1, tail);
      PastColon(t, c);
      assert tail[1..] == segs[m + 1..];
      if |tail| > 2 {
        SamePieceIn(t, QuotedAfter(t, c), tail, 1, segs, m + 1);
      } else {
        SamePieceIn(t, QuotedAfter(t, c), tail, |tail|, segs, |segs|);
      }
    }
  }

  /** Past the quote that closes a key. */
  lemma PastKey(t: string, k: nat, segs: seq<string>)
    requires At(t, k, [""] + segs) && |segs| > 1
    ensures At(t, k + |Quoted(segs[0])|, segs[1..])
  {
    assert ([""] + segs)[1..] == segs;
    Skip(t, k, [""] + segs);
    Skip(t, k + 1, segs);
  }

  lemma FindValue(t: string, p: nat, segs: seq<string>, key: string)
    requires At(t, p, segs) && QuoteFree(key)
    ensures IsPiece(t, JsonStrAfter(t, p, Quoted(key)), segs, ValuePiece(segs, key))
  {
    hide QuotedAfter, StrChr, StrStr, Join, PieceWith, NextKey, IsPiece;
    FindKey(t, p, segs, key);
    var j := NextKey(segs, key);
    if j < |segs| {
      var k := StrStr(t, p, Quoted(key)).value;
      var rest := segs[j + 1..];
      assert segs[j..][1..] == rest;
      PastKey(t, k, segs[j..]);
      ColonThenValue(t, k + |Quoted(key)|, rest);
      var m, c := PieceWith(rest, ':'), StrChr(t, k + |Quoted(key)|, ':');
      assert JsonStrAfter(t, p, Quoted(key)) == if c.None? then None else QuotedAfter(t, c.value);
      if c.None? {
        NoPiece(t, segs);
      } else if m + 2 < |rest| {
        assert rest[m + 1..] == segs[j + 1 + m + 1..];
        SamePieceIn(t, JsonStrAfter(t, p, Quoted(key)), rest, m + 1, segs, j + m + 2);
      } else {
        SamePieceIn(t, JsonStrAfter(t, p, Quoted(key)), rest, |rest|, segs, |segs|);
      }
    } else {
      NoPiece(t, segs);
    }
  }
}
