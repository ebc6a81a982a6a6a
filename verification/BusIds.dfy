/** Bus IDs: 32-byte fields that hold "1-<address>" or "2-<number>", padded with zeros. */
module BusIds {
  import opened Bytes
  import opened Numerals
  import opened UsbDevice

  /** The characters of a text, one byte each. */
  function Ascii(text: string): (s: seq<Byte>)
    ensures |s| == |text| && forall k | 0 <= k < |s| :: s[k] == text[k] as int % 256
  {
    seq(|text|, k requires 0 <= k < |text| => text[k] as int % 256)
  }

  /** What snprintf leaves in a zeroed field of the given size. */
  function Field(text: string, size: nat): (s: seq<Byte>)
    requires size > 0
    ensures |s| == size
  {
    if |text| < size then Ascii(text) + Zeros(size - |text|) else Ascii(text[..size - 1]) + [0]
  }

  predicate Plain(text: string) {
    forall c | c in text :: 0 < c as int < 256
  }

  function StrLen(s: seq<Byte>): (n: nat)
    ensures n <= |s| && (n < |s| ==> s[n] == 0) && forall k | 0 <= k < n :: s[k] != 0
  {
    if s == [] || s[0] == 0 then 0 else 1 + StrLen(s[1..])
  }

  /** strlcpy of a stored bus ID into a zeroed field. */
  function Expected(stored: Busid): Busid {
    var n := StrLen(stored);
    var m := if n < BUSID then n else BUSID - 1;
    stored[..m] + Zeros(BUSID - m)
  }

  /** busid_matches_key, and the comparison in virtual_device_find_by_busid. */
  predicate Matches(key: Busid, stored: Busid) {
    key == Expected(stored)
  }

  /** What snprintf leaves in a field that may hold something already: the text, its terminator,
      and the old bytes behind it. */
  function Printed(field: seq<Byte>, text: string): (s: seq<Byte>)
    requires |text| < |field|
    ensures |s| == |field|
  {
    Ascii(text) + [0] + field[|text| + 1..]
  }

  /** Nothing but zeros behind the first one. */
  predicate Clean(s: seq<Byte>) {
    forall k | StrLen(s) <= k < |s| :: s[k] == 0
  }

  function Name(bus: char, number: nat): string {
    [bus] + "-" + Print(number, Dec)
  }

  function BusidOf(bus: char, number: nat): Busid {
    Field(Name(bus, number), BUSID)
  }

  lemma {:induction false} PrintFits(n: nat, k: nat)
    requires n < Pow10(k) && k > 0
    ensures |Print(n, Dec)| <= k
  {
    if n >= 10 { PrintFits(n / 10, k - 1); }
  }

  function Pow10(k: nat): (p: nat)
    ensures p > 0
  {
    if k == 0 then 1 else 10 * Pow10(k - 1)
  }

  predicate Bus(c: char) { c == '1' || c == '2' }

  lemma NameFits(bus: char, n: nat)
    requires Bus(bus) && n < 0x1_0000_0000
    ensures Plain(Name(bus, n)) && |Name(bus, n)| <= 12
  {
    hide Print, DigitValue;
    TenDigits();
    PrintFits(n, 10);
    ReadPrint(n, Dec);
    forall c | c in Print(n, Dec) ensures 0 < c as int < 256 {
      assert DigitValue(c) < 10;
      DigitsArePlain(c);
    }
  }

  lemma TenDigits()
    ensures 0x1_0000_0000 < Pow10(10)
  {
    assert Pow10(5) == 100_000;
    assert Pow10(8) == 100_000_000;
  }

  lemma DigitsArePlain(c: char)
    requires DigitValue(c) < 16
    ensures 0 < c as int < 256
  {}

  lemma StrLenOfField(text: string, size: nat)
    requires Plain(text) && |text| < size
    ensures StrLen(Field(text, size)) == |text|
  {
    var s := Field(text, size);
    forall k | 0 <= k < |text| ensures s[k] != 0 { assert text[k] in text; }
    assert s[|text|] == 0;
  }

  /** A stored bus ID is its own key. */
  lemma MatchesItself(bus: char, n: nat)
    requires Bus(bus) && n < 0x1_0000_0000
    ensures Expected(BusidOf(bus, n)) == BusidOf(bus, n)
  {
    hide Name;
    var text := Name(bus, n);
    NameFits(bus, n);
    StrLenOfField(text, BUSID);
    assert Field(text, BUSID)[..|text|] == Ascii(text);
  }

  /** Whatever the field held before, what is printed there is looked up under the zeroed text. */
  lemma PrintedMatches(field: Busid, bus: char, n: nat)
    requires Bus(bus) && n < 0x1_0000_0000
    ensures |Name(bus, n)| < BUSID
    ensures Expected(Printed(field, Name(bus, n))) == BusidOf(bus, n)
  {
    hide Name;
    var text := Name(bus, n);
    NameFits(bus, n);
    var s := Printed(field, text);
    forall k | 0 <= k < |text| ensures s[k] != 0 {
      assert text[k] in text;
      assert s[k] == Ascii(text)[k];
    }
    assert s[|text|] == 0;
    assert s[..|text|] == Ascii(text);
  }

  /** A field is its own key exactly when it is clean and has a terminator. */
  lemma OwnKeyExactly(stored: Busid)
    ensures Expected(stored) == stored <==> Clean(stored) && StrLen(stored) < BUSID
  {
    var n, e := StrLen(stored), Expected(stored);
    if e == stored {
      assert e[BUSID - 1] == 0 || n < BUSID;
      assert forall k | n <= k < BUSID :: e[k] == 0;
    }
  }

  lemma FieldInjective(a: string, b: string, size: nat)
    requires Plain(a) && Plain(b) && |a| < size && |b| < size && Field(a, size) == Field(b, size)
    ensures a == b
  {
    hide Plain, StrLen;
    StrLenOfField(a, size);
    StrLenOfField(b, size);
    forall k | 0 <= k < |a| ensures a[k] == b[k] {
      FieldAt(a, size, k);
      FieldAt(b, size, k);
    }
  }

  lemma FieldAt(text: string, size: nat, k: nat)
    requires Plain(text) && k < |text| < size
    ensures Field(text, size)[k] == text[k] as int
  {
    assert text[k] in text;
    assert Field(text, size)[k] == Ascii(text)[k];
  }

  /** Different devices have different bus IDs. */
  lemma BusidInjective(bus: char, n: nat, bus': char, n': nat)
    requires Bus(bus) && Bus(bus') && n < 0x1_0000_0000 && n' < 0x1_0000_0000
    requires BusidOf(bus, n) == BusidOf(bus', n')
    ensures bus == bus' && n == n'
  {
    hide Field, Print;
    NameFits(bus, n);
    NameFits(bus', n');
    FieldInjective(Name(bus, n), Name(bus', n'), BUSID);
    assert Name(bus, n)[0] == Name(bus', n')[0];
    assert Name(bus, n)[2..] == Print(n, Dec) && Name(bus', n')[2..] == Print(n', Dec);
    PrintInjective(n, n', Dec);
  }
}
