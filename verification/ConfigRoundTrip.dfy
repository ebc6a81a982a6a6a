/** The text handle_get_config prints, and what handle_post_config's scanners see in it. */
module ConfigRoundTrip {
  import opened Wrappers
  import opened QuotedText
  import opened ConfigText

  datatype Entry = Entry(pin: string, wire: string)

  /** What the exporter prints: the names, and the pins that have a wire. */
  datatype Config = Config(hostname: string, boardId: string, board: string, entries: seq<Entry>)

  function Field(key: string, value: string): string {
    Quoted(key) + ":" + Quoted(value)
  }

  /** The entries that remain, and the end of the document. */
  function EntriesText(es: seq<Entry>, first: bool): string {
    if es == [] then "]}"
    else
      (if first then "{" else ",{") + (Field("pin", es[0].pin) + ("," + (Field("wire", es[0].wire)
        + ("}" + EntriesText(es[1..], false)))))
  }

  function ExportText(c: Config): string {
    "{" + (Quoted("version") + (":1," + (Field("hostname", c.hostname) + ("," + (Field("board_id", c.boardId)
      + ("," + (Field("board", c.board) + ("," + (Quoted("wires") + (":[" + EntriesText(c.entries, true)))))))))))
  }

  /** Names that the format can carry at all: it has no escape for a quote. */
  predicate Printable(c: Config) {
    && QuoteFree(c.hostname) && QuoteFree(c.boardId) && QuoteFree(c.board)
    && forall e | e in c.entries :: QuoteFree(e.pin) && QuoteFree(e.wire)
  }

  // ---------------------------------------------------------------------------------------
  // The text in pieces

  /** The pieces from an entry's brace on; `first` tells whether any entry has been printed. */
  function WirePieces(es: seq<Entry>, first: bool): (segs: seq<string>)
    ensures segs != []
  {
    if es == [] then [(if first then "" else "}") + "]}"]
    else
      [if first then "{" else "},{", "pin", ":", es[0].pin, ",", "wire", ":", es[0].wire] + WirePieces(es[1..], false)
  }

  function TailPieces(c: Config): (segs: seq<string>)
    ensures segs != []
  {
    var w := WirePieces(c.entries, true);
    [":[" + w[0]] + w[1..]
  }

  function HeadPieces(c: Config): seq<string> {
    ["{", "version", ":1,", "hostname", ":", c.hostname, ",", "board_id", ":", c.boardId,
     ",", "board", ":", c.board, ",", "wires"]
  }

  function DocPieces(c: Config): (segs: seq<string>)
    ensures |segs| > 16
  {
    HeadPieces(c) + TailPieces(c)
  }

  lemma JoinTwo(a: string, b: string, rest: seq<string>)
    requires rest != []
    ensures Join([a, b] + rest) == a + (Quoted(b) + Join(rest))
  {
    assert ([a, b] + rest)[1..] == [b] + rest;
    assert ([b] + rest)[1..] == rest;
  }

  lemma JoinField(pre: string, key: string, value: string, rest: seq<string>)
    requires rest != []
    ensures Join([pre, key, ":", value] + rest) == pre + (Field(key, value) + Join(rest))
  {
    JoinTwo(":", value, rest);
    JoinTwo(pre, key, [":", value] + rest);
    assert [pre, key] + ([":", value] + rest) == [pre, key, ":", value] + rest;
  }

  lemma {:induction false} JoinWires(es: seq<Entry>, first: bool)
    ensures Join(WirePieces(es, first)) == (if first then "" else "}") + EntriesText(es, first)
  {
    if es != [] {
      JoinWires(es[1..], false);
      JoinEntry(if first then "{" else "},{", es[0], WirePieces(es[1..], false));
    }
  }

  lemma JoinEntry(open: string, e: Entry, rest: seq<string>)
    requires rest != []
    ensures Join([open, "pin", ":", e.pin, ",", "wire", ":", e.wire] + rest)
            == open + (Field("pin", e.pin) + ("," + (Field("wire", e.wire) + Join(rest))))
  {
    hide Join, Field;
    JoinField(",", "wire", e.wire, rest);
    JoinField(open, "pin", e.pin, [",", "wire", ":", e.wire] + rest);
    assert [open, "pin", ":", e.pin] + ([",", "wire", ":", e.wire] + rest)
           == [open, "pin", ":", e.pin, ",", "wire", ":", e.wire] + rest;
  }

  lemma JoinTail(c: Config)
    ensures Join(TailPieces(c)) == ":[" + EntriesText(c.entries, true)
  {
    JoinWires(c.entries, true);
    var w := WirePieces(c.entries, true);
    assert Join(w) == EntriesText(c.entries, true);
    assert TailPieces(c)[1..] == w[1..];
  }

  lemma JoinExport(c: Config)
    ensures Join(DocPieces(c)) == ExportText(c)
  {
    var s0 := TailPieces(c);
    JoinTail(c);
    hide Join, Field, Quoted, EntriesText, WirePieces, TailPieces;
    JoinTwo(",", "wires", s0);
    var s1 := [",", "wires"] + s0;
    JoinField(",", "board", c.board, s1);
    var s2 := [",", "board", ":", c.board] + s1;
    JoinField(",", "board_id", c.boardId, s2);
    var s3 := [",", "board_id", ":", c.boardId] + s2;
    JoinField(":1,", "hostname", c.hostname, s3);
    var s4 := [":1,", "hostname", ":", c.hostname] + s3;
    JoinTwo("{", "version", s4);
    assert ["{", "version"] + s4 == DocPieces(c);
  }

  lemma ExportAt(c: Config)
    requires Printable(c)
    ensures At(ExportText(c), 0, DocPieces(c))
  {
    hide ExportText, Join;
    JoinExport(c);
    WiresQuoteFree(c.entries, true);
    assert ExportText(c)[0..] == ExportText(c);
  }

  lemma {:induction false} WiresQuoteFree(es: seq<Entry>, first: bool)
    requires forall e | e in es :: QuoteFree(e.pin) && QuoteFree(e.wire)
    ensures Pieces(WirePieces(es, first))
  {
    if es != [] { WiresQuoteFree(es[1..], false); }
  }

  // ---------------------------------------------------------------------------------------
  // What the scanners find

  lemma {:induction false} KeyIs(segs: seq<string>, key: string, j: nat)
    requires 1 <= j < |segs| - 1 && segs[j] == key
    requires forall k | 1 <= k < j :: segs[k] != key
    ensures NextKey(segs, key) == j
  {
    if j > 1 { KeyIs(segs[1..], key, j - 1); }
  }

  lemma {:induction false} NoKey(segs: seq<string>, key: string)
    requires segs != [] && forall k | 1 <= k < |segs| - 1 :: segs[k] != key
    ensures NextKey(segs, key) == |segs|
  {
    if |segs| > 2 { NoKey(segs[1..], key); }
  }

  lemma NoValue(segs: seq<string>, key: string)
    requires segs != [] && forall k | 1 <= k < |segs| - 1 :: segs[k] != key
    ensures ValuePiece(segs, key) == |segs|
  {
    NoKey(segs, key);
  }

  lemma {:induction false} PieceIs(segs: seq<string>, c: char, m: nat)
    requires m < |segs| && c in segs[m]
    requires forall k | 0 <= k < m :: c !in segs[k]
    ensures PieceWith(segs, c) == m
  {
    if m > 0 { PieceIs(segs[1..], c, m - 1); }
  }

  /** A key at j, its colon in piece m, and its value after that. */
  lemma ValueIs(segs: seq<string>, key: string, j: nat, m: nat)
    requires 1 <= j < m < |segs| - 2 && segs[j] == key && ':' in segs[m]
    requires forall k | 1 <= k < j :: segs[k] != key
    requires forall k | j < k < m :: ':' !in segs[k]
    ensures ValuePiece(segs, key) == m + 1
  {
    KeyIs(segs, key, j);
    PieceIs(segs[j + 1..], ':', m - j - 1);
  }

  /** The document's fixed pieces. */
  lemma Layout(c: Config)
    ensures
      var d := DocPieces(c);
      && d[1] == "version" && d[2] == ":1," && d[3] == "hostname" && d[4] == ":" && d[5] == c.hostname
      && d[6] == "," && d[7] == "board_id" && d[8] == ":" && d[9] == c.boardId && d[10] == ","
      && d[11] == "board" && d[12] == ":" && d[13] == c.board && d[14] == "," && d[15] == "wires"
      && d[16] == ":[" + WirePieces(c.entries, true)[0] && d[15..] == ["wires"] + TailPieces(c)
  {}

  lemma VersionFound(c: Config)
    requires Printable(c)
    ensures JsonIntAfter(ExportText(c), 0, "\"version\"") == Some(CONFIG_EXPORT_VERSION)
  {
    var t, d := ExportText(c), DocPieces(c);
    hide ExportText, DocPieces, Join, StrStr, StrToL, PastColons;
    ExportAt(c);
    Layout(c);
    KeyIs(d, "version", 1);
    FindKey(t, 0, d, "version");
    var k := StrStr(t, 0, Quoted("version")).value;
    PastKey(t, k, d[1..]);
    assert d[1..][1..] == d[2..];
    assert Quoted("version") == "\"version\"";
    OneComma(t, k + 9, d[2..]);
  }

  lemma OneComma(t: string, p: nat, segs: seq<string>)
    requires At(t, p, segs) && segs[0] == ":1,"
    ensures StrChr(t, p, ':') == Some(p) && StrToL(t, PastColons(t, p)) == Some(1)
  {
    Skip(t, p, segs);
    assert t[p..p + 3][0] == ':' && t[p..p + 3][1] == '1' && t[p..p + 3][2] == ',';
    assert PastColons(t, p) == p + 1;
    assert Digits(t, p + 1, 0) == Digits(t, p + 2, 1) == 1;
  }

  lemma HostnameFound(c: Config)
    requires Printable(c)
    ensures
      var v := JsonStrAfter(ExportText(c), 0, "\"hostname\"");
      v.Some? && v.value.len == |c.hostname| && Slice(ExportText(c), v.value) == c.hostname
  {
    hide ExportText, DocPieces, Join, JsonStrAfter, NextKey, ValuePiece, PieceWith;
    ExportAt(c);
    Layout(c);
    ValueIs(DocPieces(c), "hostname", 3, 4);
    FindValue(ExportText(c), 0, DocPieces(c), "hostname");
    assert Quoted("hostname") == "\"hostname\"";
  }

  /** Even a hostname that is itself the word board_id does not mislead the scanner. */
  lemma BoardIdFound(c: Config)
    requires Printable(c)
    ensures
      var v := JsonStrAfter(ExportText(c), 0, "\"board_id\"");
      v.Some? && v.value.len == |c.boardId| && Slice(ExportText(c), v.value) == c.boardId
  {
    hide ExportText, DocPieces, Join, JsonStrAfter, NextKey, ValuePiece, PieceWith;
    ExportAt(c);
    Layout(c);
    ValueIs(DocPieces(c), "board_id", if c.hostname == "board_id" then 5 else 7, 8);
    FindValue(ExportText(c), 0, DocPieces(c), "board_id");
    assert Quoted("board_id") == "\"board_id\"";
  }

  /** What the wire loop makes of each exported entry: a wire called "pin" hides its own pin. */
  function Items(es: seq<Entry>): seq<Item> {
    if es == [] then []
    else [if es[0].wire == "pin" then NoWire else Pair(es[0].pin, es[0].wire)] + Items(es[1..])
  }

  lemma SamePlace(t: string, p: nat, q: nat, segs: seq<string>)
    requires At(t, p, segs) && At(t, q, segs)
    ensures p == q
  {
    assert |t[p..]| == |t[q..]|;
  }

  function FromPin(es: seq<Entry>): seq<string>
    requires es != []
  {
    [es[0].pin, ",", "wire", ":", es[0].wire] + WirePieces(es[1..], false)
  }

  lemma PinHere(t: string, q: nat, es: seq<Entry>, first: bool)
    requires es != [] && At(t, q, WirePieces(es, first))
    ensures
      var r := JsonStrAfter(t, q, "\"pin\"");
      r.Some? && r.value.len == |es[0].pin| && Slice(t, r.value) == es[0].pin && At(t, r.value.start, FromPin(es))
  {
    hide Join, JsonStrAfter, ValuePiece, NextKey;
    var w := WirePieces(es, first);
    ValueIs(w, "pin", 1, 2);
    FindValue(t, q, w, "pin");
    assert w[3..] == FromPin(es);
    assert Quoted("pin") == "\"pin\"";
  }

  lemma WireHere(t: string, p: nat, wire: string, rest: seq<string>)
    requires rest != [] && At(t, p, [",", "wire", ":", wire] + rest)
    ensures
      var r := JsonStrAfter(t, p, "\"wire\"");
      r.Some? && r.value.len == |wire| && Slice(t, r.value) == wire && At(t, r.value.start, [wire] + rest)
  {
    hide Join, JsonStrAfter, ValuePiece, NextKey;
    var w := [",", "wire", ":", wire] + rest;
    ValueIs(w, "wire", 1, 2);
    FindValue(t, p, w, "wire");
    assert w[3..] == [wire] + rest;
    assert Quoted("wire") == "\"wire\"";
  }

  /** The next "pin" after an entry's pin name: its own wire, if that is what the wire is
      called, or the pin of the next entry. */
  lemma NextPinHere(t: string, p: nat, wire: string, es: seq<Entry>)
    requires At(t, p, ["", ",", "wire", ":", wire] + WirePieces(es, false))
    ensures
      var r := StrStr(t, p, "\"pin\"");
      if wire == "pin" then r.Some? && At(t, r.value, ["", wire] + WirePieces(es, false))
      else if es == [] then r.None?
      else r.Some? && At(t, r.value, [""] + WirePieces(es, false)[1..])
  {
    hide Join, StrStr, NextKey;
    var rest := WirePieces(es, false);
    var w := ["", ",", "wire", ":", wire] + rest;
    FindKey(t, p, w, "pin");
    assert Quoted("pin") == "\"pin\"";
    if wire == "pin" {
      KeyIs(w, "pin", 4);
      assert [""] + w[4..] == ["", wire] + rest;
    } else if es == [] {
      NoKey(w, "pin");
    } else {
      KeyIs(w, "pin", 6);
      assert w[6..] == rest[1..];
    }
  }

  lemma HiddenPieces(es: seq<Entry>)
    ensures
      var rest := WirePieces(es, false);
      var w := ["", "pin"] + rest;
      if es == [] then ValuePiece(w, "pin") == |w| && ValuePiece(rest, "pin") == |rest|
      else |rest| > 3 && ValuePiece(w, "pin") == 5 && ValuePiece(rest, "pin") == 3 && w[5..] == rest[3..]
  {
    var rest := WirePieces(es, false);
    var w := ["", "pin"] + rest;
    KeyIs(w, "pin", 1);
    assert w[2..] == rest;
    if es == [] {
      NoKey(rest, "pin");
      assert PieceWith(rest, ':') == 1;
    } else {
      ValueIs(w, "pin", 1, 4);
      ValueIs(rest, "pin", 1, 2);
    }
  }

  /** From the quote before a wire called "pin", the next pin found is that of the next entry. */
  lemma HiddenPin(t: string, p: nat, q: nat, es: seq<Entry>)
    requires At(t, p, ["", "pin"] + WirePieces(es, false)) && At(t, q, WirePieces(es, false))
    ensures JsonStrAfter(t, p, "\"pin\"") == JsonStrAfter(t, q, "\"pin\"")
  {
    hide Join, JsonStrAfter, ValuePiece, WirePieces;
    var rest := WirePieces(es, false);
    FindValue(t, p, ["", "pin"] + rest, "pin");
    FindValue(t, q, rest, "pin");
    assert Quoted("pin") == "\"pin\"";
    HiddenPieces(es);
    if es != [] {
      SamePlace(t, JsonStrAfter(t, p, "\"pin\"").value.start, JsonStrAfter(t, q, "\"pin\"").value.start, rest[3..]);
    }
  }

  /** The values found at the entry es[0], and what is left behind each. */
  lemma EntryValues(t: string, q: nat, es: seq<Entry>, first: bool) returns (pin: Value, wire: Value)
    requires es != [] && At(t, q, WirePieces(es, first))
    ensures JsonStrAfter(t, q, "\"pin\"") == Some(pin) && Slice(t, pin) == es[0].pin
    ensures JsonStrAfter(t, pin.start + pin.len + 1, "\"wire\"") == Some(wire) && Slice(t, wire) == es[0].wire
    ensures var rest := WirePieces(es[1..], false);
      && At(t, pin.start + pin.len, ["", ",", "wire", ":", es[0].wire] + rest)
      && At(t, wire.start, [es[0].wire] + rest) && wire.len == |es[0].wire|
  {
    hide Join, JsonStrAfter, StrStr, WirePieces, At, Slice;
    var rest, e := WirePieces(es[1..], false), es[0];
    PinHere(t, q, es, first);
    pin := JsonStrAfter(t, q, "\"pin\"").value;
    SomePieces(t, pin.start, FromPin(es), es[1..]);
    Skip(t, pin.start, FromPin(es));
    var tail := [",", "wire", ":", e.wire] + rest;
    assert FromPin(es)[1..] == tail;
    assert [""] + tail == ["", ",", "wire", ":", e.wire] + rest;
    WireHere(t, pin.start + pin.len + 1, e.wire, rest);
    wire := JsonStrAfter(t, pin.start + pin.len + 1, "\"wire\"").value;
  }

  lemma SomePieces(t: string, p: nat, segs: seq<string>, es: seq<Entry>)
    requires At(t, p, segs)
    ensures segs != [] && p <= |t| && WirePieces(es, false) != []
  {}

  /** One visit of the wire loop, at the entry es[0]. */
  lemma VisitEntry(t: string, q: nat, es: seq<Entry>, first: bool) returns (pin: Value, wire: Value)
    requires es != [] && At(t, q, WirePieces(es, first))
    ensures JsonStrAfter(t, q, "\"pin\"") == Some(pin) && Slice(t, pin) == es[0].pin
    ensures JsonStrAfter(t, pin.start + pin.len + 1, "\"wire\"") == Some(wire) && Slice(t, wire) == es[0].wire
    ensures At(t, wire.start + wire.len + 1, WirePieces(es[1..], false))
    ensures
      var next := StrStr(t, pin.start + pin.len, "\"pin\"");
      if es[0].wire == "pin" then
        && next.Some? && next.value < wire.start
        && At(t, next.value, ["", "pin"] + WirePieces(es[1..], false))
      else next.Some? ==> wire.start <= next.value
  {
    hide Join, JsonStrAfter, StrStr, WirePieces, Slice;
    var rest, e := WirePieces(es[1..], false), es[0];
    ManyPieces(es[1..]);
    pin, wire := EntryValues(t, q, es, first);
    var end := pin.start + pin.len;
    NextPinHere(t, end, e.wire, es[1..]);
    Skip(t, wire.start, [e.wire] + rest);
    assert ([e.wire] + rest)[1..] == rest;
    var next := StrStr(t, end, "\"pin\"");
    if e.wire == "pin" {
      Step(t, next.value, ["", e.wire] + rest);
      assert (["", e.wire] + rest)[1..] == [e.wire] + rest;
      SamePlace(t, next.value + 1, wire.start, [e.wire] + rest);
    } else if es[1..] != [] {
      Later(t, wire.start + wire.len + 1, next.value, rest);
    }
  }

  /** The wire loop visits the exported entries in order, and nothing else. */
  lemma {:induction false} ScanEntries(t: string, p: nat, q: nat, es: seq<Entry>, first: bool)
    requires p <= |t| && At(t, q, WirePieces(es, first))
    requires JsonStrAfter(t, p, "\"pin\"") == JsonStrAfter(t, q, "\"pin\"")
    ensures Scan(t, p) == Items(es)
    decreases es
  {
    hide Join, JsonStrAfter, StrStr, WirePieces, Scan, Slice;
    if es == [] {
      NothingHere(t, q, first);
      ScanNothing(t, p);
    } else {
      var pin, wire := VisitEntry(t, q, es, first);
      var q' := wire.start + wire.len + 1;
      ScanStep(t, p, pin, wire);
      if es[0].wire == "pin" {
        var next := StrStr(t, pin.start + pin.len, "\"pin\"").value;
        HiddenPin(t, next, q', es[1..]);
        ScanEntries(t, next, q', es[1..], false);
      } else {
        ScanEntries(t, q', q', es[1..], false);
      }
    }
  }

  lemma ScanStep(t: string, p: nat, pin: Value, wire: Value)
    requires p <= |t| && JsonStrAfter(t, p, "\"pin\"") == Some(pin)
    requires JsonStrAfter(t, pin.start + pin.len + 1, "\"wire\"") == Some(wire)
    ensures
      var next := StrStr(t, pin.start + pin.len, "\"pin\"");
      Scan(t, p) ==
        if next.Some? && wire.start > next.value then [NoWire] + Scan(t, next.value)
        else [Pair(Slice(t, pin), Slice(t, wire))] + Scan(t, wire.start + wire.len + 1)
  {
    hide JsonStrAfter, StrStr;
  }

  lemma ScanNothing(t: string, p: nat)
    requires p <= |t| && JsonStrAfter(t, p, "\"pin\"") == None
    ensures Scan(t, p) == []
  {}

  lemma NothingHere(t: string, q: nat, first: bool)
    requires At(t, q, WirePieces([], first))
    ensures JsonStrAfter(t, q, "\"pin\"") == None
  {
    FindValue(t, q, WirePieces([], first), "pin");
    NoKey(WirePieces([], first), "pin");
    assert Quoted("pin") == "\"pin\"";
  }

  lemma ManyPieces(es: seq<Entry>)
    ensures es != [] ==> |WirePieces(es, false)| > 1
  {}

  lemma Later(t: string, p: nat, q: nat, segs: seq<string>)
    requires |segs| > 1 && At(t, p, segs) && At(t, q, [""] + segs[1..])
    ensures p <= q
  {
    assert ([""] + segs[1..])[1..] == segs[1..];
  }

  // ---------------------------------------------------------------------------------------
  // Where the wire loop starts

  lemma {:induction false} SkipPieces(t: string, p: nat, segs: seq<string>, n: nat) returns (q: nat)
    requires At(t, p, segs) && n < |segs|
    ensures q >= p && At(t, q, segs[n..])
    decreases n
  {
    if n == 0 {
      assert segs[0..] == segs;
      q := p;
    } else {
      Skip(t, p, segs);
      q := SkipPieces(t, p + |segs[0]| + 1, segs[1..], n - 1);
      assert segs[1..][n - 1..] == segs[n..];
    }
  }

  lemma TailAt(c: Config) returns (q: nat)
    requires Printable(c)
    ensures At(ExportText(c), q, WirePieces(c.entries, true))
  {
    hide ExportText, Join;
    ExportAt(c);
    q := SkipPieces(ExportText(c), 0, DocPieces(c), 16);
    var w := WirePieces(c.entries, true);
    assert DocPieces(c)[16..] == [":[" + w[0]] + w[1..];
    Inside(ExportText(c), q, ":[", w[0], w[1..]);
    assert [w[0]] + w[1..] == w;
    q := q + 2;
  }

  lemma Inside(t: string, p: nat, a: string, b: string, rest: seq<string>)
    requires At(t, p, [a + b] + rest)
    ensures At(t, p + |a|, [b] + rest)
  {
    var x, y := [a + b] + rest, [b] + rest;
    assert x[1..] == rest == y[1..];
    assert Join(x) == a + Join(y);
    assert t[p + |a|..] == t[p..][|a|..];
    assert QuoteFree(a + b) by { assert a + b in x; }
    forall s | s in y ensures QuoteFree(s) {
      if s == b { assert forall i | 0 <= i < |b| :: b[i] == (a + b)[|a| + i]; }
    }
  }

  /** The names with which the wire loop starts inside the board ID, so that it meets the board's
      name first and takes it for a key. */
  predicate Misleads(c: Config) {
    c.board == "pin" && c.hostname == "wires" && '[' in c.boardId
  }

  /** From any place between the board_id and the first entry, the next pin is the first
      entry's, unless a board called "pin" comes in between. */
  lemma PinFromHead(c: Config, n: nat, rest: string)
    requires 9 <= n <= 16 && (c.board == "pin" ==> n >= 13)
    ensures
      var y, w := [rest] + DocPieces(c)[n + 1..], WirePieces(c.entries, true);
      if c.entries == [] then ValuePiece(y, "pin") == |y| && ValuePiece(w, "pin") == |w|
      else
        && ValuePiece(y, "pin") == 20 - n - 1 < |y| && ValuePiece(w, "pin") == 3 < |w|
        && y[20 - n - 1..] == w[3..]
  {
    var d, w := DocPieces(c), WirePieces(c.entries, true);
    hide HeadPieces, TailPieces, DocPieces, ValuePiece, WirePieces;
    Layout(c);
    TailLayout(c);
    FirstWire(c.entries);
    assert d[16][0] == ':' && forall k | n < k <= 16 :: d[k] != "pin";
    if c.entries == [] {
      NoPinIn(d, w, n, rest);
    } else {
      PinAt17(d, w, n, rest);
    }
  }

  lemma NoPinIn(d: seq<string>, w: seq<string>, n: nat, rest: string)
    requires |d| == 17 && |w| == 1 && n <= 16 && forall k | n < k <= 16 :: d[k] != "pin"
    ensures var y := [rest] + d[n + 1..]; ValuePiece(y, "pin") == |y| && ValuePiece(w, "pin") == |w|
  {
    hide ValuePiece;
    var y := [rest] + d[n + 1..];
    assert forall k | 1 <= k < |y| :: y[k] == d[n + k];
    NoValue(y, "pin");
    NoValue(w, "pin");
  }

  lemma PinAt17(d: seq<string>, w: seq<string>, n: nat, rest: string)
    requires |d| == 16 + |w| && |w| > 4 && d[17..] == w[1..] && w[1] == "pin" && w[2] == ":"
    requires n <= 16 && forall k | n < k <= 16 :: d[k] != "pin"
    ensures var y := [rest] + d[n + 1..];
      ValuePiece(y, "pin") == 19 - n < |y| && ValuePiece(w, "pin") == 3 && y[19 - n..] == w[3..]
  {
    hide ValuePiece;
    var y := [rest] + d[n + 1..];
    assert forall k | 1 <= k < |y| :: y[k] == d[n + k];
    assert forall k | 17 <= k < |d| :: d[k] == d[17..][k - 17] == w[k - 16];
    ValueIs(y, "pin", 17 - n, 18 - n);
    ValueIs(w, "pin", 1, 2);
  }

  lemma FirstWire(es: seq<Entry>)
    ensures es == [] ==> forall s | s in WirePieces(es, true) :: s != "pin"
    ensures es == [] ==> |WirePieces(es, true)| == 1
    ensures es != [] ==>
      var ps := WirePieces(es, true); |ps| > 4 && ps[1] == "pin" && ps[2] == ":"
  {}

  lemma TailLayout(c: Config)
    ensures
      var d, w := DocPieces(c), WirePieces(c.entries, true);
      && |d| == 16 + |w| && d[17..] == w[1..]
      && (c.entries != [] ==> d[19..] == w[3..])
  {}

  /** The first '[' after the word wires, wherever that word comes first. */
  lemma BracketPiece(c: Config) returns (j: nat, n: nat)
    ensures
      var d := DocPieces(c);
      && NextKey(d, "wires") == j < n && 9 <= n <= 16 < |d|
      && PieceWith([""] + d[j..], '[') == n - j + 1
      && (n < 13 <==> c.hostname == "wires" && '[' in c.boardId) && n in {9, 13, 16}
  {
    var d := DocPieces(c);
    hide HeadPieces, TailPieces, DocPieces, ValuePiece, WirePieces;
    Layout(c);
    TailLayout(c);
    FirstWire(c.entries);
    j := if c.hostname == "wires" then 5 else if c.boardId == "wires" then 9 else if c.board == "wires" then 13 else 15;
    KeyIs(d, "wires", j);
    n := if j < 9 && '[' in c.boardId then 9 else if j < 13 && '[' in c.board then 13 else 16;
    PieceIs([""] + d[j..], '[', n - j + 1);
  }

  /** Where the wire loop starts: behind the '[' of piece n, of which `rest` remains. */
  lemma WiresFrom(c: Config) returns (n: nat, rest: string)
    requires Printable(c)
    ensures n in {9, 13, 16} && |DocPieces(c)| > 16 && (n < 13 <==> c.hostname == "wires" && '[' in c.boardId)
    ensures WiresStart(ExportText(c)).Some?
    ensures At(ExportText(c), WiresStart(ExportText(c)).value, [rest] + DocPieces(c)[n + 1..])
  {
    var t, d := ExportText(c), DocPieces(c);
    hide ExportText, DocPieces, WirePieces, Join, StrStr, NextKey, PieceWith;
    ExportAt(c);
    var j: nat;
    j, n := BracketPiece(c);
    FindKey(t, 0, d, "wires");
    assert Quoted("wires") == "\"wires\"";
    var k := StrStr(t, 0, "\"wires\"").value;
    var x := [""] + d[j..];
    FindChar(t, k, x, '[');
    rest :| StopsIn(t, k, x, '[', n - j + 1, rest);
    assert x[n - j + 1 + 1..] == d[n + 1..];
  }

  /** The importer's wire loop, on the exporter's text, when it starts behind the board's name: one
      visit per exported entry, in order, with its own pin and wire, except that an entry whose wire is
      called "pin" is dropped. */
  lemma WiresFound(c: Config)
    requires Printable(c) && !Misleads(c)
    ensures WiresStart(ExportText(c)).Some?
    ensures Scan(ExportText(c), WiresStart(ExportText(c)).value) == Items(c.entries)
  {
    var t, d := ExportText(c), DocPieces(c);
    hide ExportText, DocPieces, WirePieces, Join, WiresStart, JsonStrAfter, Scan, ValuePiece;
    var n, rest := WiresFrom(c);
    var p := WiresStart(t).value;
    var q := TailAt(c);
    PinFromHead(c, n, rest);
    SamePin(t, p, [rest] + d[n + 1..], 20 - n - 1, q, WirePieces(c.entries, true), c.entries == []);
    ScanEntries(t, p, q, c.entries, true);
  }

  lemma SamePin(t: string, p: nat, y: seq<string>, v: nat, q: nat, w: seq<string>, none: bool)
    requires At(t, p, y) && At(t, q, w)
    requires
      if none then ValuePiece(y, "pin") == |y| && ValuePiece(w, "pin") == |w|
      else ValuePiece(y, "pin") == v < |y| && ValuePiece(w, "pin") == 3 < |w| && y[v..] == w[3..]
    ensures JsonStrAfter(t, p, "\"pin\"") == JsonStrAfter(t, q, "\"pin\"")
  {
    hide Join, JsonStrAfter, ValuePiece;
    FindValue(t, p, y, "pin");
    FindValue(t, q, w, "pin");
    assert Quoted("pin") == "\"pin\"";
    if !none {
      SamePlace(t, JsonStrAfter(t, p, "\"pin\"").value.start, JsonStrAfter(t, q, "\"pin\"").value.start, w[3..]);
    }
  }
}
