/** Which documents the importer takes, and what becomes of the pins that a document does not
    mention. */
module ConfigVersions {
  import opened Wrappers
  import opened Numerals
  import opened QuotedText
  import opened ConfigText
  import opened ConfigRoundTrip
  import opened ConfigServer
  import opened ConfigTransfer

  /** A number as JSON writes it. */
  function Number(i: int): (s: string)
    ensures s != ""
  {
    if i < 0 then "-" + Print(-i, Dec) else Print(i, Dec)
  }

  /** White space, as far as the importer skips it. */
  predicate Blank(gap: string) {
    forall k | 0 <= k < |gap| :: gap[k] in {' ', '\t'}
  }

  /** A document of this version, and whatever else. */
  function Versioned(gap: string, version: int, rest: string): string {
    "{\"version\":" + gap + Number(version) + rest
  }

  lemma {:induction false} ReadDigits(t: string, p: nat, digits: string)
    requires p + |digits| <= |t| && t[p..p + |digits|] == digits && AllDigits(digits, Dec)
    requires p + |digits| < |t| ==> !IsDigit(t[p + |digits|])
    ensures Digits(t, p, 0) == Read(digits, Dec)
  {
    hide Digits, Read;
    DigitsFrom(t, p, digits, |digits|);
    assert digits[..|digits|] == digits;
    NoMoreDigits(t, p + |digits|, Read(digits, Dec));
  }

  lemma NoMoreDigits(t: string, p: nat, acc: nat)
    requires p <= |t| && (p < |t| ==> !IsDigit(t[p]))
    ensures Digits(t, p, acc) == acc
  {}

  lemma {:induction false} DigitsFrom(t: string, p: nat, digits: string, n: nat)
    requires n <= |digits| && p + |digits| <= |t| && t[p..p + |digits|] == digits && AllDigits(digits, Dec)
    ensures Digits(t, p, 0) == Digits(t, p + n, Read(digits[..n], Dec))
  {
    if n == 0 {
      assert digits[..0] == "";
    } else {
      DigitsFrom(t, p, digits, n - 1);
      var c := digits[n - 1];
      assert t[p + n - 1] == t[p..p + |digits|][n - 1] == c;
      assert c in digits;
      ReadMore(digits[..n - 1], c, Dec);
      assert digits[..n] == digits[..n - 1] + [c];
      OneDigit(t, p + n - 1, Read(digits[..n - 1], Dec));
    }
  }

  lemma OneDigit(t: string, p: nat, acc: nat)
    requires p < |t| && DigitValue(t[p]) < 10
    ensures IsDigit(t[p]) && Digits(t, p, acc) == Digits(t, p + 1, 10 * acc + DigitValue(t[p]))
  {}

  lemma {:induction false} PastBlanks(t: string, p: nat, gap: string)
    requires p + |gap| < |t| && t[p..p + |gap|] == gap && Blank(gap) && t[p + |gap|] !in {':', ' ', '\t'}
    ensures PastColons(t, p) == p + |gap|
    decreases |gap|
  {
    if gap != "" {
      assert t[p] == t[p..p + |gap|][0] == gap[0];
      assert t[p + 1..p + |gap|] == t[p..p + |gap|][1..] == gap[1..];
      assert Blank(gap[1..]);
      PastBlanks(t, p + 1, gap[1..]);
    }
  }

  /** A number is read where it stands, whatever follows it. */
  lemma NumberRead(t: string, p: nat, i: int)
    requires p + |Number(i)| <= |t| && t[p..p + |Number(i)|] == Number(i)
    requires p + |Number(i)| < |t| ==> !IsDigit(t[p + |Number(i)|])
    ensures t[p] !in {':', ' ', '\t'} && StrToL(t, p) == Some(i)
  {
    hide Print, Read, Digits, DigitValue;
    var n: nat := if i < 0 then -i else i;
    var digits, at := Print(n, Dec), if i < 0 then p + 1 else p;
    ReadPrint(n, Dec);
    assert Number(i)[at - p..] == digits;
    assert t[at..at + |digits|] == t[p..p + |Number(i)|][at - p..] == digits;
    assert t[p] == t[p..p + |Number(i)|][0] == Number(i)[0];
    assert t[at] == t[at..at + |digits|][0] == digits[0] && digits[0] in digits;
    FirstDigit(digits[0]);
    ReadDigits(t, at, digits);
    assert t[at] !in {' ', '\t', '\n', '\r', '\U{0B}', '\U{0C}', '-', '+'};
  }

  lemma FirstDigit(c: char)
    requires DigitValue(c) < 10
    ensures IsDigit(c)
  {}

  /** The version is found whatever follows it. */
  lemma VersionRead(gap: string, version: int, rest: string)
    requires Blank(gap) && (rest != "" ==> !IsDigit(rest[0]))
    ensures JsonIntAfter(Versioned(gap, version, rest), 0, "\"version\"") == Some(version)
  {
    hide Number, StrToL, PastColons, Blank;
    var t, number, at := Versioned(gap, version, rest), Number(version), 11 + |gap|;
    assert t == "{\"version\":" + (gap + (number + rest));
    assert t[..11] == "{\"version\":" && t[11..at] == gap && t[at..at + |number|] == number;
    assert t[at + |number|..] == rest;
    KeyThere(t);
    NumberRead(t, at, version);
    PastBlanks(t, 11, gap);
    FirstColon(t, 10);
  }

  lemma KeyThere(t: string)
    requires |t| > 11 && t[..11] == "{\"version\":"
    ensures StrStr(t, 0, "\"version\"") == Some(1) && t[10] == ':' && StrChr(t, 10, ':') == Some(10)
  {
    assert t[0] == t[..11][0] == '{' && t[0..9][0] == '{';
    assert t[1..10] == t[..11][1..10] == "\"version\"";
    assert t[0..9] != "\"version\"";
    assert t[10] == t[..11][10];
  }

  lemma FirstColon(t: string, p: nat)
    requires p < |t| && t[p] == ':'
    ensures PastColons(t, p) == PastColons(t, p + 1)
  {}

  /** A document of version 1 is taken, and one of any other version changes nothing. */
  lemma VersionDecides(b: Board, s: Settings, gap: string, version: int, rest: string)
    requires Blank(gap) && (rest != "" ==> !IsDigit(rest[0]))
    ensures Supported(Versioned(gap, version, rest)) <==> version == 1
    ensures version != 1 ==> Imported(b, s, Versioned(gap, version, rest)) == s
  {
    hide JsonIntAfter, Versioned;
    VersionRead(gap, version, rest);
  }

  predicate OccursAt(t: string, i: nat, key: string) { i + |key| <= |t| && t[i..i + |key|] == key }

  lemma {:induction false} NotThere(t: string, p: nat, key: string)
    requires p <= |t| && forall i: nat :: !OccursAt(t, i, key)
    ensures StrStr(t, p, key).None?
    decreases |t| - p
  {
    assert !OccursAt(t, p, key);
    if p + |key| <= |t| && p < |t| { NotThere(t, p + 1, key); }
  }

  /** A document in which the key does not occur is taken as well. */
  lemma NoVersionIsTaken(body: string)
    requires forall i: nat :: !OccursAt(body, i, "\"version\"")
    ensures Supported(body)
  {
    NotThere(body, 0, "\"version\"");
  }

  /** Of a document that is taken, each pin that no item gives a wire to ends up without one, and
      nothing but pins changes on its wires. */
  lemma UnlistedPinsEndUpCleared(b: Board, s: Settings, body: string, pin: string)
    requires Supported(body) && pin in b.labels
    requires forall i | i in ItemsOf(body) && Applies(b, i) :: b.key(i.pin) != b.key(pin)
    ensures Wire(b, Imported(b, s, body), pin) == ""
  {
    hide Supported, ItemsOf, Cleared, ApplyAll, Applies, HostnameFrom, BoardIdFrom;
    ClearedWire(b, s.wires, b.labels, b.key(pin));
    Untouched(b, Cleared(b, s.wires, b.labels), ItemsOf(body), b.key(pin));
  }

  lemma {:induction false} Untouched(b: Board, wires: map<string, string>, items: seq<Item>, k: string)
    requires forall i | i in items && Applies(b, i) :: b.key(i.pin) != k
    ensures
      var w := ApplyAll(b, wires, items);
      (k in w <==> k in wires) && (k in wires ==> w[k] == wires[k])
  {
    hide Applies;
    if items != [] { Untouched(b, wires, items[..|items| - 1], k); }
  }

  /** The hostname of an exported text is taken if it is not empty and short enough, and the board
      ID if it is short enough; otherwise the importer keeps its own. */
  lemma NamesTaken(b: Board, s: Settings, c: Config)
    requires Printable(c)
    ensures var r := Imported(b, s, ExportText(c));
      && r.hostname == (if 0 < |c.hostname| < 64 then c.hostname else s.hostname)
      && r.boardId == (if |c.boardId| < 64 then c.boardId else s.boardId)
  {
    hide ExportText, JsonIntAfter, JsonStrAfter, ItemsOf, ApplyAll, Cleared;
    VersionFound(c);
    HostnameFound(c);
    BoardIdFound(c);
  }

  /** The same letter in upper and in lower case, or the same character. */
  predicate Alike(a: char, b: char) {
    a == b || ('A' <= a <= 'Z' && b as int == a as int + 32) || ('A' <= b <= 'Z' && a as int == b as int + 32)
  }

  /** A pin is known by its label in letters of either case. */
  lemma CaseIgnored(labels: seq<string>, pin: string)
    ensures KnownLabel(labels, pin) <==>
      exists l :: l in labels && |l| == |pin| && forall i | 0 <= i < |l| :: Alike(l[i], pin[i])
  {
    if KnownLabel(labels, pin) {
      var i :| 0 <= i < |labels| && SameLabel(labels[i], pin);
      assert labels[i] in labels;
      forall k | 0 <= k < |pin| ensures Alike(labels[i][k], pin[k]) { LowerAlike(labels[i][k], pin[k]); }
    }
    if l :| l in labels && |l| == |pin| && forall i | 0 <= i < |l| :: Alike(l[i], pin[i]) {
      var i :| 0 <= i < |labels| && labels[i] == l;
      forall k | 0 <= k < |pin| ensures Lower(l[k]) == Lower(pin[k]) { LowerAlike(l[k], pin[k]); }
      assert SameLabel(labels[i], pin);
    }
  }

  lemma LowerAlike(a: char, b: char)
    ensures Lower(a) == Lower(b) <==> Alike(a, b)
  {}
}
