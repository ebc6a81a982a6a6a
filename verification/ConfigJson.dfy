/** The exported document as a JSON parser (RFC 8259) reads it. */
module ConfigJson {
  import opened Wrappers
  import opened Numerals
  import opened QuotedText
  import opened ConfigRoundTrip

  datatype Json = Num(n: nat) | Str(s: string) | Arr(items: seq<Json>) | Obj(members: seq<Member>)

  datatype Member = Member(key: string, value: Json)

  // ---------------------------------------------------------------------------------------
  // A parser for values without white space, escapes, signs and fractions

  /** A character that stands for itself in a string. */
  predicate Unescaped(c: char) { c >= ' ' && c != '"' && c != '\\' }

  predicate AllUnescaped(s: string) {
    forall k | 0 <= k < |s| :: Unescaped(s[k])
  }

  function Span(s: string): (n: nat)
    ensures n <= |s|
  {
    if s == "" || !Unescaped(s[0]) then 0 else 1 + Span(s[1..])
  }

  function ParseString(s: string): (r: Option<(string, string)>)
    ensures r.Some? ==> |r.value.1| < |s|
  {
    if s == "" || s[0] != '"' then None
    else
      var n := Span(s[1..]);
      if n + 1 == |s| || s[n + 1] != '"' then None else Some((s[1..n + 1], s[n + 2..]))
  }

  function ParseValue(s: string): (r: Option<(Json, string)>)
    ensures r.Some? ==> |r.value.1| < |s|
    decreases |s|, 0
  {
    if s == "" then None
    else if s[0] == '"' then
      var v := ParseString(s);
      if v.None? then None else Some((Str(v.value.0), v.value.1))
    else if s[0] == '[' then
      if |s| > 1 && s[1] == ']' then Some((Arr([]), s[2..]))
      else
        var v := ParseItems(s[1..]);
        if v.None? then None else Some((Arr(v.value.0), v.value.1))
    else if s[0] == '{' then
      if |s| > 1 && s[1] == '}' then Some((Obj([]), s[2..]))
      else
        var v := ParseMembers(s[1..]);
        if v.None? then None else Some((Obj(v.value.0), v.value.1))
    else
      var d := Run(s, Dec);
      if d == 0 || (s[0] == '0' && d > 1) then None else Some((Num(Read(s[..d], Dec)), s[d..]))
  }

  /** The values of an array, up to its end. */
  function ParseItems(s: string): (r: Option<(seq<Json>, string)>)
    ensures r.Some? ==> |r.value.1| < |s|
    decreases |s|, 1
  {
    var v := ParseValue(s);
    if v.None? || v.value.1 == "" then None
    else if v.value.1[0] == ']' then Some(([v.value.0], v.value.1[1..]))
    else if v.value.1[0] != ',' then None
    else
      var more := ParseItems(v.value.1[1..]);
      if more.None? then None else Some(([v.value.0] + more.value.0, more.value.1))
  }

  /** The members of an object, up to its end. */
  function ParseMembers(s: string): (r: Option<(seq<Member>, string)>)
    ensures r.Some? ==> |r.value.1| < |s|
    decreases |s|, 1
  {
    var k := ParseString(s);
    if k.None? || k.value.1 == "" || k.value.1[0] != ':' then None
    else
      var v := ParseValue(k.value.1[1..]);
      if v.None? || v.value.1 == "" then None
      else if v.value.1[0] == '}' then Some(([Member(k.value.0, v.value.0)], v.value.1[1..]))
      else if v.value.1[0] != ',' then None
      else
        var more := ParseMembers(v.value.1[1..]);
        if more.None? then None else Some(([Member(k.value.0, v.value.0)] + more.value.0, more.value.1))
  }

  // ---------------------------------------------------------------------------------------
  // What it makes of the document

  function Entries(es: seq<Entry>): seq<Json> {
    if es == [] then []
    else [Obj([Member("pin", Str(es[0].pin)), Member("wire", Str(es[0].wire))])] + Entries(es[1..])
  }

  predicate Writable(c: Config) {
    && AllUnescaped(c.hostname) && AllUnescaped(c.boardId) && AllUnescaped(c.board)
    && forall e | e in c.entries :: AllUnescaped(e.pin) && AllUnescaped(e.wire)
  }

  lemma {:induction false} SpanOf(s: string, rest: string)
    requires AllUnescaped(s) && (rest != "" ==> !Unescaped(rest[0]))
    ensures Span(s + rest) == |s|
  {
    if s == "" {
      assert s + rest == rest;
    } else {
      SpanOf(s[1..], rest);
      assert (s + rest)[1..] == s[1..] + rest;
    }
  }

  lemma StringParsed(s: string, rest: string)
    requires AllUnescaped(s)
    ensures ParseString(Quoted(s) + rest) == Some((s, rest))
    ensures ParseValue(Quoted(s) + rest) == Some((Str(s), rest))
  {
    var t := Quoted(s) + rest;
    assert t[1..] == s + ("\"" + rest);
    SpanOf(s, "\"" + rest);
    assert t[|s| + 1] == '"' && t[1..|s| + 1] == s && t[|s| + 2..] == rest;
  }

  /** A member whose value is a string, and what is behind it. */
  lemma FieldParsed(key: string, value: string, rest: string)
    requires AllUnescaped(key) && AllUnescaped(value) && rest != ""
    ensures var m := Member(key, Str(value));
      ParseMembers(Field(key, value) + rest) ==
        if rest[0] == '}' then Some(([m], rest[1..]))
        else if rest[0] != ',' || ParseMembers(rest[1..]).None? then None
        else Some(([m] + ParseMembers(rest[1..]).value.0, ParseMembers(rest[1..]).value.1))
  {
    hide ParseString, ParseValue, Quoted;
    var t := Field(key, value) + rest;
    assert t == Quoted(key) + (":" + (Quoted(value) + rest));
    StringParsed(key, ":" + (Quoted(value) + rest));
    assert (":" + (Quoted(value) + rest))[1..] == Quoted(value) + rest;
    StringParsed(value, rest);
  }

  lemma EntryParsed(e: Entry, rest: string)
    requires AllUnescaped(e.pin) && AllUnescaped(e.wire)
    ensures ParseValue("{" + (Field("pin", e.pin) + ("," + (Field("wire", e.wire) + ("}" + rest)))))
      == Some((Obj([Member("pin", Str(e.pin)), Member("wire", Str(e.wire))]), rest))
  {
    hide ParseMembers, Field;
    FieldParsed("wire", e.wire, "}" + rest);
    assert ("}" + rest)[1..] == rest;
    var more := Field("wire", e.wire) + ("}" + rest);
    FieldParsed("pin", e.pin, "," + more);
    assert ("," + more)[1..] == more;
    var members := Field("pin", e.pin) + ("," + more);
    QuoteFirst("pin", e.pin, "," + more);
    assert ("{" + members)[1..] == members;
    assert [Member("pin", Str(e.pin))] + [Member("wire", Str(e.wire))]
      == [Member("pin", Str(e.pin)), Member("wire", Str(e.wire))];
  }

  lemma QuoteFirst(key: string, value: string, rest: string)
    ensures (Field(key, value) + rest)[0] == '"'
  {}

  lemma {:induction false} EntriesParsed(es: seq<Entry>)
    requires es != [] && forall e | e in es :: AllUnescaped(e.pin) && AllUnescaped(e.wire)
    ensures ParseItems(EntriesText(es, true)) == Some((Entries(es), "}"))
  {
    hide ParseValue, Field;
    var e, rest := es[0], EntriesText(es[1..], false);
    assert e in es;
    EntryParsed(e, rest);
    if es[1..] == [] {
      assert rest == "]}" && rest[1..] == "}";
      assert Entries(es) == [ParseValue(EntriesText(es, true)).value.0];
    } else {
      EntriesParsed(es[1..]);
      LaterEntries(es[1..]);
      assert rest[1..] == EntriesText(es[1..], true);
    }
  }

  lemma LaterEntries(es: seq<Entry>)
    requires es != []
    ensures EntriesText(es, false) == "," + EntriesText(es, true)
  {
    var more := Field("pin", es[0].pin) + ("," + (Field("wire", es[0].wire) + ("}" + EntriesText(es[1..], false))));
    assert ",{" + more == "," + ("{" + more);
  }

  lemma WiresParsed(es: seq<Entry>)
    requires forall e | e in es :: AllUnescaped(e.pin) && AllUnescaped(e.wire)
    ensures ParseValue("[" + EntriesText(es, true)) == Some((Arr(Entries(es)), "}"))
  {
    hide ParseItems, Field;
    var t := EntriesText(es, true);
    assert ("[" + t)[1..] == t;
    if es == [] {
      assert ("[" + t)[2..] == "}";
    } else {
      EntriesParsed(es);
      assert t[0] == '{';
    }
  }

  /** The exported text is one JSON object, and it says what the exporter knows. */
  lemma DocumentParsed(c: Config)
    requires Writable(c)
    ensures ParseValue(ExportText(c)) == Some((Obj([
      Member("version", Num(1)), Member("hostname", Str(c.hostname)), Member("board_id", Str(c.boardId)),
      Member("board", Str(c.board)), Member("wires", Arr(Entries(c.entries)))]), ""))
  {
    hide ParseMembers, Field, EntriesText, Quoted;
    var w := Quoted("wires") + (":[" + EntriesText(c.entries, true));
    LastMember(c.entries);
    var b := Field("board", c.board) + ("," + w);
    FieldParsed("board", c.board, "," + w);
    assert ("," + w)[1..] == w;
    var i := Field("board_id", c.boardId) + ("," + b);
    FieldParsed("board_id", c.boardId, "," + b);
    assert ("," + b)[1..] == b;
    var h := Field("hostname", c.hostname) + ("," + i);
    FieldParsed("hostname", c.hostname, "," + i);
    assert ("," + i)[1..] == i;
    FirstMember(h);
    var t := Quoted("version") + (":1," + h);
    var names := [Member("hostname", Str(c.hostname)), Member("board_id", Str(c.boardId)),
                  Member("board", Str(c.board))];
    var wires := Member("wires", Arr(Entries(c.entries)));
    assert ParseMembers(h).value.0 == names + [wires];
    var version := Member("version", Num(1));
    assert [version] + (names + [wires]) == [version, names[0], names[1], names[2], wires];
    assert ("{" + t)[1..] == t && t[0] == '"' by { QuotedFirst("version", ":1," + h); }
    assert ExportText(c) == "{" + t;
    OneObject(t);
  }

  lemma OneObject(t: string)
    requires t != "" && t[0] == '"' && ParseMembers(t).Some?
    ensures ParseValue("{" + t) == Some((Obj(ParseMembers(t).value.0), ParseMembers(t).value.1))
  {
    assert ("{" + t)[1..] == t;
  }

  lemma QuotedFirst(s: string, rest: string)
    ensures (Quoted(s) + rest)[0] == '"'
  {}

  lemma FirstMember(rest: string)
    requires ParseMembers(rest).Some?
    ensures ParseMembers(Quoted("version") + (":1," + rest))
      == Some(([Member("version", Num(1))] + ParseMembers(rest).value.0, ParseMembers(rest).value.1))
  {
    hide ParseString, Quoted;
    StringParsed("version", ":1," + rest);
    assert (":1," + rest)[1..] == "1," + rest;
    One(rest);
    assert ("," + rest)[1..] == rest;
  }

  lemma One(rest: string)
    ensures ParseValue("1," + rest) == Some((Num(1), "," + rest))
  {
    var s := "1," + rest;
    assert s[1..][0] == ',' && Run(s[1..], Dec) == 0;
    assert s[..1] == "1" && s[1..] == "," + rest;
    ReadOne('1', Dec);
  }

  lemma LastMember(es: seq<Entry>)
    requires forall e | e in es :: AllUnescaped(e.pin) && AllUnescaped(e.wire)
    ensures ParseMembers(Quoted("wires") + (":[" + EntriesText(es, true)))
      == Some(([Member("wires", Arr(Entries(es)))], ""))
  {
    hide ParseString, ParseValue, Quoted, EntriesText;
    var t := EntriesText(es, true);
    StringParsed("wires", ":[" + t);
    assert (":[" + t)[1..] == "[" + t;
    WiresParsed(es);
  }
}
