/** Printing naturals the way printf's %u and %x do, and reading them back. */
module Numerals {

  /** The two bases the code prints in; spelled out so that the arithmetic stays linear. */
  datatype Base = Dec | Hex

  function Radix(b: Base): nat { if b.Dec? then 10 else 16 }

  function Quotient(n: nat, b: Base): (q: nat)
    ensures n >= Radix(b) ==> q < n
  {
    if b.Dec? then n / 10 else n / 16
  }

  function Remainder(n: nat, b: Base): (r: nat)
    ensures r < Radix(b) && n == Shift(Quotient(n, b), b) + r
  {
    if b.Dec? then n % 10 else n % 16
  }

  function Shift(n: nat, b: Base): nat { if b.Dec? then 10 * n else 16 * n }

  function DigitChar(d: nat): char
    requires d < 16
  {
    "0123456789abcdef"[d]
  }

  /** The value of a digit character, of either case, or 16 for any other character. */
  function DigitValue(c: char): (d: nat)
    ensures d <= 16
  {
    if '0' <= c <= '9' then c as int - '0' as int
    else if 'a' <= c <= 'f' then c as int - 'a' as int + 10
    else if 'A' <= c <= 'F' then c as int - 'A' as int + 10
    else 16
  }

  function Print(n: nat, base: Base): (s: string)
    ensures s != ""
  {
    if n < Radix(base) then [DigitChar(n)] else Print(Quotient(n, base), base) + [DigitChar(Remainder(n, base))]
  }

  predicate AllDigits(s: string, base: Base) {
    forall c | c in s :: DigitValue(c) < Radix(base)
  }

  /** Reading digits, most significant first. */
  function Read(s: string, base: Base): nat {
    if s == "" then 0 else Shift(Read(s[..|s| - 1], base), base) + DigitValue(s[|s| - 1])
  }

  /** How many leading characters of s are digits. */
  function Run(s: string, base: Base): (n: nat)
    ensures n <= |s| && AllDigits(s[..n], base)
    ensures n < |s| ==> DigitValue(s[n]) >= Radix(base)
  {
    if s == "" || DigitValue(s[0]) >= Radix(base) then 0
    else
      assert s[..1 + Run(s[1..], base)] == [s[0]] + s[1..][..Run(s[1..], base)];
      1 + Run(s[1..], base)
  }

  lemma DigitBack(d: nat)
    requires d < 16
    ensures DigitValue(DigitChar(d)) == d
  {}

  lemma {:induction false} ReadPrint(n: nat, base: Base)
    ensures Read(Print(n, base), base) == n && AllDigits(Print(n, base), base)
  {
    hide DigitValue, DigitChar, Quotient, Remainder, Radix, AllDigits;
    var s := Print(n, base);
    if n < Radix(base) {
      RadixFits(base);
      DigitBack(n);
      ReadOne(s[0], base);
      DigitsMore("", s[0], base);
      assert s == "" + [s[0]];
    } else {
      var q, r := Quotient(n, base), Remainder(n, base);
      ReadPrint(q, base);
      RadixFits(base);
      DigitBack(r);
      var init, c := Print(q, base), DigitChar(r);
      DigitsMore(init, c, base);
      ReadMore(init, c, base);
    }
  }

  lemma RadixFits(base: Base)
    ensures Radix(base) <= 16
  {}

  lemma ReadOne(c: char, base: Base)
    ensures Read([c], base) == DigitValue(c)
  {
    assert [c][..0] == "";
  }

  lemma ReadMore(s: string, c: char, base: Base)
    ensures Read(s + [c], base) == Shift(Read(s, base), base) + DigitValue(c)
  {
    assert (s + [c])[..|s|] == s;
  }

  lemma DigitsMore(s: string, c: char, base: Base)
    ensures AllDigits(s + [c], base) <==> (s == "" || AllDigits(s, base)) && DigitValue(c) < Radix(base)
  {
    hide DigitValue, Radix;
    var t := s + [c];
    assert t[|s|] == c;
    assert forall k | 0 <= k < |s| :: t[k] == s[k];
  }

  /** How much longer a number prints than its tenth. */
  lemma PrintLength(n: nat)
    ensures |Print(n, Dec)| == if n < 10 then 1 else 1 + |Print(n / 10, Dec)|
  {}

  /** Different numbers print differently. */
  lemma PrintInjective(m: nat, n: nat, base: Base)
    requires Print(m, base) == Print(n, base)
    ensures m == n
  {
    ReadPrint(m, base);
    ReadPrint(n, base);
  }

  /** A printed number is read back in full up to the first character that is no digit. */
  lemma RunPrint(n: nat, base: Base, rest: string)
    requires (rest == "" || DigitValue(rest[0]) >= Radix(base))
    ensures Run(Print(n, base) + rest, base) == |Print(n, base)|
  {
    ReadPrint(n, base);
    RunOf(Print(n, base), base, rest);
  }

  lemma {:induction false} RunOf(s: string, base: Base, rest: string)
    requires AllDigits(s, base) && (rest == "" || DigitValue(rest[0]) >= Radix(base))
    ensures Run(s + rest, base) == |s|
  {
    if s == "" {
      assert s + rest == rest;
    } else {
      RunOf(s[1..], base, rest);
      assert (s + rest)[1..] == s[1..] + rest;
    }
  }

  /** No leading zero, but for zero itself. */
  lemma {:induction false} NoLeadingZero(n: nat, base: Base)
    requires n > 0
    ensures Print(n, base)[0] != '0'
  {
    if n >= Radix(base) { NoLeadingZero(Quotient(n, base), base); }
  }
}
