/** What the wire loop makes of the exporter's text for every choice of names, including those with
    which it starts too early. */
module ConfigMisled {
  import opened Wrappers
  import opened QuotedText
  import opened ConfigText
  import opened ConfigRoundTrip

  /** The items that a loop starting too early visits: it reads the key of the first entry for a
      label, and that entry's label not at all, unless the label is itself the word. */
  function Misread(es: seq<Entry>): seq<Item> {
    if es == [] then []
    else if es[0].pin == "pin" then [NoWire, NoWire] + Items(es[1..])
    else [if es[0].wire == "pin" then NoWire else Pair("pin", es[0].wire)] + Items(es[1..])
  }

  /** Whether the loop visits the entries as they are. */
  predicate ReadsRight(c: Config) {
    Misleads(c) && c.entries != [] ==> c.entries[0].wire == "pin" && c.entries[0].pin != "pin"
  }

  lemma {:induction false} ItemsLength(es: seq<Entry>)
    ensures |Items(es)| == |es|
  {
    if es != [] { ItemsLength(es[1..]); }
  }

  /** It does exactly then: a misread entry is always seen. */
  lemma MisreadDiffers(c: Config)
    ensures (if Misleads(c) then Misread(c.entries) else Items(c.entries)) == Items(c.entries) <==> ReadsRight(c)
  {
    var es := c.entries;
    if es != [] {
      ItemsLength(es);
      ItemsLength(es[1..]);
      assert Items(es)[0] == if es[0].wire == "pin" then NoWire else Pair(es[0].pin, es[0].wire);
      if es[0].pin != "pin" {
        assert Misread(es)[0] == if es[0].wire == "pin" then NoWire else Pair("pin", es[0].wire);
      }
    }
  }

  /** One turn of the loop that finds no wire of its own for the pin it is at. */
  lemma ScanSkips(t: string, p: nat, pin: Value)
    requires p <= |t| && JsonStrAfter(t, p, "\"pin\"") == Some(pin)
    requires
      var next, wire := StrStr(t, pin.start + pin.len, "\"pin\""), JsonStrAfter(t, pin.start + pin.len + 1, "\"wire\"");
      wire.None? || (next.Some? && wire.value.start > next.value)
    ensures
      var next := StrStr(t, pin.start + pin.len, "\"pin\"");
      Scan(t, p) == [NoWire] + Scan(t, if next.Some? then next.value else pin.start + pin.len + 1)
  {
    hide JsonStrAfter, StrStr;
  }

  /** Going over whole pieces from one known place leads to any other further on. */
  lemma Before(t: string, p: nat, segs: seq<string>, n: nat, q: nat)
    requires At(t, p, segs) && n < |segs| && At(t, q, segs[n..])
    ensures p <= q
  {
    hide At;
    var r := SkipPieces(t, p, segs, n);
    SamePlace(t, r, q, segs[n..]);
  }

  /** The text as it goes on behind the key of the first entry, of which `rest` are the others. */
  function FromKey(es: seq<Entry>): seq<string>
    requires es != []
  {
    ["pin", ":"] + FromPin(es)
  }

  /** The first value that a misled loop reads is the key word. */
  lemma MisledPin(c: Config) returns (p: nat, pin: Value)
    requires Printable(c) && Misleads(c) && c.entries != []
    ensures WiresStart(ExportText(c)) == Some(p) && JsonStrAfter(ExportText(c), p, "\"pin\"") == Some(pin)
    ensures pin.len == 3 && Slice(ExportText(c), pin) == "pin" && At(ExportText(c), pin.start, FromKey(c.entries))
  {
    var t, d := ExportText(c), DocPieces(c);
    hide ExportText, DocPieces, WirePieces, Join, WiresStart, JsonStrAfter, ValuePiece;
    var n, rest := WiresFrom(c);
    p := WiresStart(t).value;
    Layout(c);
    TailLayout(c);
    FirstWire(c.entries);
    var y := [rest] + d[10..];
    assert forall k | 1 <= k < |y| :: y[k] == d[9 + k];
    assert d[16][0] == ':' && d[17] == d[17..][0];
    ValueIs(y, "pin", 4, 7);
    FindValue(t, p, y, "pin");
    assert Quoted("pin") == "\"pin\"";
    pin := JsonStrAfter(t, p, "\"pin\"").value;
    FirstPieces(c.entries, true);
    assert y[8..] == d[17..];
  }

  lemma FirstPieces(es: seq<Entry>, first: bool)
    requires es != []
    ensures WirePieces(es, first)[1..] == FromKey(es) && |WirePieces(es, first)| > 6
  {
    var here := [if first then "{" else "},{", "pin", ":", es[0].pin, ",", "wire", ":", es[0].wire];
    Regroup(here, WirePieces(es[1..], false));
  }

  lemma Regroup(s: seq<string>, more: seq<string>)
    requires |s| == 8
    ensures (s + more)[1..] == [s[1], s[2]] + ([s[3], s[4], s[5], s[6], s[7]] + more)
  {
    assert (s + more)[1..] == s[1..] + more;
    assert s[1..] == [s[1], s[2]] + [s[3], s[4], s[5], s[6], s[7]];
  }

  lemma BraceFirst(es: seq<Entry>)
    ensures WirePieces(es, false) != [] && WirePieces(es, false)[0] != "pin"
  {
    var brace := WirePieces(es, false)[0];
    hide WirePieces;
    assert brace == (if es == [] then "}]}" else "},{") ==> brace[0] == '}';
    BraceIs(es);
  }

  lemma BraceIs(es: seq<Entry>)
    ensures WirePieces(es, false)[0] == if es == [] then "}]}" else "},{"
  {}

  /** Without entries there is nothing to misread. */
  lemma MisledNothing(c: Config)
    requires Printable(c) && Misleads(c) && c.entries == []
    ensures WiresStart(ExportText(c)).Some? && Scan(ExportText(c), WiresStart(ExportText(c)).value) == []
  {
    var t, d := ExportText(c), DocPieces(c);
    hide ExportText, DocPieces, WirePieces, Join, WiresStart, JsonStrAfter, ValuePiece, Scan;
    var n, rest := WiresFrom(c);
    Layout(c);
    TailLayout(c);
    FirstWire(c.entries);
    var y := [rest] + d[10..];
    assert forall k | 1 <= k < |y| :: y[k] == d[9 + k];
    NoValueAfter(y, 4);
    FindValue(t, WiresStart(t).value, y, "pin");
    assert Quoted("pin") == "\"pin\"";
    ScanNothing(t, WiresStart(t).value);
  }

  /** A key whose next colon is in the last piece has no value. */
  lemma NoValueAfter(segs: seq<string>, j: nat)
    requires 1 <= j < |segs| - 1 && segs[j] == "pin" && forall k | 1 <= k < j :: segs[k] != "pin"
    requires forall k | j < k < |segs| - 1 :: ':' !in segs[k]
    ensures ValuePiece(segs, "pin") == |segs|
  {
    KeyIs(segs, "pin", j);
    var more := segs[j + 1..];
    assert forall k | 0 <= k < |more| - 1 :: ':' !in more[k];
  }

  /** From the key on, the loop finds the first entry's wire, whatever the names. */
  lemma WireBehind(t: string, p: nat, es: seq<Entry>) returns (wire: Value)
    requires es != [] && At(t, p, [":"] + FromPin(es))
    ensures p <= |t| && JsonStrAfter(t, p, "\"wire\"") == Some(wire)
    ensures Slice(t, wire) == es[0].wire && wire.len == |es[0].wire|
    ensures At(t, wire.start, [es[0].wire] + WirePieces(es[1..], false))
  {
    hide Join, JsonStrAfter, ValuePiece, WirePieces;
    BraceFirst(es[1..]);
    var segs := [":"] + FromPin(es);
    ValueIs(segs, "wire", if es[0].pin == "wire" then 1 else 3, 4);
    FindValue(t, p, segs, "wire");
    assert Quoted("wire") == "\"wire\"";
    assert segs[5..] == [es[0].wire] + WirePieces(es[1..], false);
    wire := JsonStrAfter(t, p, "\"wire\"").value;
  }

  /** The next "pin" behind the key: the label, the wire or the next entry's key. */
  lemma PinBehind(t: string, p: nat, es: seq<Entry>)
    requires es != [] && At(t, p, ["", ":"] + FromPin(es))
    ensures
      var r, rest := StrStr(t, p, "\"pin\""), WirePieces(es[1..], false);
      if es[0].pin == "pin" then r.Some? && At(t, r.value, [""] + FromPin(es))
      else if es[0].wire == "pin" then r.Some? && At(t, r.value, ["", es[0].wire] + rest)
      else if es[1..] == [] then r.None?
      else r.Some? && At(t, r.value, [""] + rest[1..])
  {
    hide Join, StrStr, NextKey, WirePieces;
    var rest, w := WirePieces(es[1..], false), ["", ":"] + FromPin(es);
    BraceFirst(es[1..]);
    if es[1..] != [] { FirstPieces(es[1..], false); }
    LastPieces();
    FindKey(t, p, w, "pin");
    assert Quoted("pin") == "\"pin\"";
    if es[0].pin == "pin" {
      KeyIs(w, "pin", 2);
      assert w[2..] == FromPin(es);
    } else if es[0].wire == "pin" {
      KeyIs(w, "pin", 6);
      assert [""] + w[6..] == ["", es[0].wire] + rest;
    } else if es[1..] == [] {
      NoKey(w, "pin");
    } else {
      assert w[8] == rest[1] == FromKey(es[1..])[0];
      KeyIs(w, "pin", 8);
      assert w[8..] == rest[1..];
    }
  }

  lemma LastPieces()
    ensures |WirePieces([], false)| == 1
  {}

  /** A misled loop at an entry whose label is not the word. */
  lemma MisledEntry(t: string, p: nat, pin: Value, es: seq<Entry>)
    requires es != [] && es[0].pin != "pin" && p <= |t| && JsonStrAfter(t, p, "\"pin\"") == Some(pin)
    requires pin.len == 3 && Slice(t, pin) == "pin" && At(t, pin.start, FromKey(es))
    ensures Scan(t, p) == Misread(es)
  {
    hide Join, JsonStrAfter, StrStr, WirePieces, Scan, Slice, At, Items;
    var rest, e, end := WirePieces(es[1..], false), es[0], pin.start + 3;
    BraceFirst(es[1..]);
    if es[1..] != [] { FirstPieces(es[1..], false); }
    Skip(t, pin.start, FromKey(es));
    assert FromKey(es)[1..] == [":"] + FromPin(es);
    assert [""] + ([":"] + FromPin(es)) == ["", ":"] + FromPin(es);
    PinBehind(t, end, es);
    var wire := WireBehind(t, end + 1, es);
    var q := wire.start + wire.len + 1;
    BehindWire(t, wire.start, e.wire, es[1..]);
    ScanStep(t, p, pin, wire);
    var next := StrStr(t, end, "\"pin\"");
    if e.wire == "pin" {
      HiddenNext(t, next.value, wire.start, e.wire, es[1..]);
    } else {
      if es[1..] != [] { Later(t, q, next.value, rest); }
      ScanEntries(t, q, q, es[1..], false);
    }
  }

  lemma HiddenNext(t: string, p: nat, q: nat, wire: string, es: seq<Entry>)
    requires wire == "pin" && At(t, p, ["", wire] + WirePieces(es, false)) && At(t, q, [wire] + WirePieces(es, false))
    ensures p + 1 == q && Scan(t, p) == Items(es)
  {
    hide Join, JsonStrAfter, WirePieces, Scan, At, Items;
    var rest := WirePieces(es, false);
    assert ["", wire] + rest == [""] + ([wire] + rest);
    Opened(t, p, [wire] + rest);
    SamePlace(t, p + 1, q, [wire] + rest);
    BehindWire(t, q, wire, es);
    HiddenPin(t, p, q + |wire| + 1, es);
    ScanEntries(t, p, q + |wire| + 1, es, false);
  }

  /** The quote in front of a piece. */
  lemma Opened(t: string, p: nat, segs: seq<string>)
    requires segs != [] && At(t, p, [""] + segs)
    ensures p < |t| && At(t, p + 1, segs)
  {
    assert ([""] + segs)[1..] == segs;
    Skip(t, p, [""] + segs);
  }

  lemma BehindWire(t: string, p: nat, wire: string, es: seq<Entry>)
    requires At(t, p, [wire] + WirePieces(es, false))
    ensures p + |wire| + 1 <= |t| && At(t, p + |wire|, [""] + WirePieces(es, false))
    ensures At(t, p + |wire| + 1, WirePieces(es, false))
  {
    hide Join, WirePieces;
    BraceFirst(es);
    assert ([wire] + WirePieces(es, false))[1..] == WirePieces(es, false);
    Skip(t, p, [wire] + WirePieces(es, false));
  }

  /** A misled loop at an entry whose label is the word: it then takes the label for a key. */
  lemma MisledTwice(t: string, p: nat, pin: Value, es: seq<Entry>)
    requires es != [] && es[0].pin == "pin" && p <= |t| && JsonStrAfter(t, p, "\"pin\"") == Some(pin)
    requires pin.len == 3 && Slice(t, pin) == "pin" && At(t, pin.start, FromKey(es))
    ensures Scan(t, p) == Misread(es)
  {
    hide Join, JsonStrAfter, StrStr, WirePieces, Scan, Slice, At, Items, Misread;
    var end := pin.start + 3;
    Skip(t, pin.start, FromKey(es));
    assert FromKey(es)[1..] == [":"] + FromPin(es);
    assert [""] + ([":"] + FromPin(es)) == ["", ":"] + FromPin(es);
    PinBehind(t, end, es);
    var wire := WireBehind(t, end + 1, es);
    var next := StrStr(t, end, "\"pin\"").value;
    Opened(t, next, FromPin(es));
    assert FromPin(es)[4..] == [es[0].wire] + WirePieces(es[1..], false);
    Before(t, next + 1, FromPin(es), 4, wire.start);
    ScanSkips(t, p, pin);
    LabelAsKey(t, next, es);
    TwoSkips(es);
  }

  lemma TwoSkips(es: seq<Entry>)
    requires es != [] && es[0].pin == "pin"
    ensures [NoWire] + ([NoWire] + Items(es[1..])) == Misread(es)
  {
    hide Items;
  }

  /** The second visit of such a loop: it reads the wire for a label, and goes on to the next entry. */
  lemma LabelAsKey(t: string, p: nat, es: seq<Entry>)
    requires es != [] && es[0].pin == "pin" && p <= |t| && At(t, p, [""] + FromPin(es))
    ensures Scan(t, p) == [NoWire] + Items(es[1..])
  {
    hide Join, JsonStrAfter, StrStr, WirePieces, Scan, ValuePiece, At;
    var rest, segs := WirePieces(es[1..], false), [""] + FromPin(es);
    BraceFirst(es[1..]);
    ValueIs(segs, "pin", 1, 4);
    FindValue(t, p, segs, "pin");
    assert Quoted("pin") == "\"pin\"";
    var pin := JsonStrAfter(t, p, "\"pin\"").value;
    assert segs[5..] == [es[0].wire] + rest;
    BehindWire(t, pin.start, es[0].wire, es[1..]);
    var end := pin.start + pin.len;
    if es[1..] == [] {
      NothingMore(t, end);
      ScanSkips(t, p, pin);
      ScanEntries(t, end + 1, end + 1, [], false);
    } else {
      MoreBehind(t, end, es[1..]);
      ScanSkips(t, p, pin);
    }
  }

  lemma NothingMore(t: string, p: nat)
    requires p < |t| && At(t, p, [""] + WirePieces([], false)) && At(t, p + 1, WirePieces([], false))
    ensures StrStr(t, p, "\"pin\"").None? && JsonStrAfter(t, p + 1, "\"wire\"").None?
  {
    hide Join, JsonStrAfter, StrStr, WirePieces, NextKey, ValuePiece;
    LastPieces();
    FindKey(t, p, [""] + WirePieces([], false), "pin");
    NoKey([""] + WirePieces([], false), "pin");
    FindValue(t, p + 1, WirePieces([], false), "wire");
    NoValue(WirePieces([], false), "wire");
    assert Quoted("pin") == "\"pin\"" && Quoted("wire") == "\"wire\"";
  }

  /** Behind a value, the next entry's key comes before any wire, and scanning from it visits the
      entries from there on. */
  lemma MoreBehind(t: string, p: nat, es: seq<Entry>)
    requires es != [] && p < |t| && At(t, p, [""] + WirePieces(es, false)) && At(t, p + 1, WirePieces(es, false))
    ensures
      var next, wire := StrStr(t, p, "\"pin\""), JsonStrAfter(t, p + 1, "\"wire\"");
      next.Some? && (wire.Some? ==> wire.value.start > next.value) && Scan(t, next.value) == Items(es)
  {
    hide Join, JsonStrAfter, StrStr, WirePieces, NextKey, ValuePiece, Scan, Items, At;
    var w := WirePieces(es, false);
    BraceFirst(es);
    FirstPieces(es, false);
    assert w[1] == FromKey(es)[0] && w[2] == w[1..][1] == ":";
    FindKey(t, p, [""] + w, "pin");
    assert Quoted("pin") == "\"pin\"" && Quoted("wire") == "\"wire\"";
    KeyIs([""] + w, "pin", 2);
    assert ([""] + w)[2..] == w[1..];
    var next := StrStr(t, p, "\"pin\"").value;
    Opened(t, next, w[1..]);
    FindValue(t, p + 1, w, "wire");
    var v := ValuePiece(w, "wire");
    if v < |w| {
      assert w[1..][v - 1..] == w[v..];
      Before(t, next + 1, w[1..], v - 1, JsonStrAfter(t, p + 1, "\"wire\"").value.start);
    }
    var x := [""] + w[1..];
    assert x[1] == "pin" && x[2] == ":";
    ValueIs(x, "pin", 1, 2);
    ValueIs(w, "pin", 1, 2);
    assert x[3..] == w[3..];
    SamePin(t, next, x, 3, p + 1, w, false);
    ScanEntries(t, next, p + 1, es, false);
  }

  /** The wire loop on the exporter's text, for all names that the format can carry at all: the
      entries, or what is misread of them. */
  lemma ScanExactly(c: Config)
    requires Printable(c)
    ensures WiresStart(ExportText(c)).Some?
    ensures Scan(ExportText(c), WiresStart(ExportText(c)).value) ==
              if Misleads(c) then Misread(c.entries) else Items(c.entries)
  {
    hide ExportText, JsonStrAfter, Scan, WiresStart, Slice, At;
    if !Misleads(c) {
      WiresFound(c);
    } else if c.entries == [] {
      MisledNothing(c);
    } else {
      var p, pin := MisledPin(c);
      if c.entries[0].pin == "pin" {
        MisledTwice(ExportText(c), p, pin, c.entries);
      } else {
        MisledEntry(ExportText(c), p, pin, c.entries);
      }
    }
  }

  /** So the loop visits the exported entries in order and nothing else if and only if the names do
      not mislead it, or there is nothing to misread, or what is misread is dropped either way. */
  lemma EntriesFoundExactly(c: Config)
    requires Printable(c)
    ensures WiresStart(ExportText(c)).Some?
    ensures Scan(ExportText(c), WiresStart(ExportText(c)).value) == Items(c.entries) <==> ReadsRight(c)
  {
    hide ExportText, Scan, WiresStart;
    ScanExactly(c);
    MisreadDiffers(c);
  }
}
