/** Bytes, and numbers in network byte order. */
module Bytes {
  type Byte = b: int | 0 <= b < 256

  function Be16(n: nat): (s: seq<Byte>)
    requires n < 0x1_0000
    ensures |s| == 2
  {
    [n / 256, n % 256]
  }

  function Be32(n: nat): (s: seq<Byte>)
    requires n < 0x1_0000_0000
    ensures |s| == 4
  {
    Be16(n / 0x1_0000) + Be16(n % 0x1_0000)
  }

  function Word16(s: seq<Byte>): (n: nat)
    requires |s| == 2
    ensures n < 0x1_0000
  {
    var high: int := s[0];
    256 * high + s[1]
  }

  function Word32(s: seq<Byte>): (n: nat)
    requires |s| == 4
    ensures n < 0x1_0000_0000
  {
    0x1_0000 * Word16(s[..2]) + Word16(s[2..])
  }

  lemma Back16(n: nat)
    requires n < 0x1_0000
    ensures Word16(Be16(n)) == n
  {}

  lemma Back32(n: nat)
    requires n < 0x1_0000_0000
    ensures Word32(Be32(n)) == n
  {
    Back16(n / 0x1_0000);
    Back16(n % 0x1_0000);
    assert Be32(n)[..2] == Be16(n / 0x1_0000) && Be32(n)[2..] == Be16(n % 0x1_0000);
  }

  /** Most significant byte first. */
  lemma BigEndian(n: nat)
    requires n < 0x1_0000_0000
    ensures Be32(n) == [n / 0x100_0000, n / 0x1_0000 % 0x100, n / 0x100 % 0x100, n % 0x100]
  {
    var high, low := n / 0x1_0000, n % 0x1_0000;
    assert n == 0x1_0000 * high + low;
    Halves(n, high, low);
  }

  lemma Halves(n: nat, high: nat, low: nat)
    requires n == 0x1_0000 * high + low && low < 0x1_0000 && high < 0x1_0000
    ensures n / 0x100_0000 == high / 0x100 && n / 0x100 % 0x100 == low / 0x100 && n % 0x100 == low % 0x100
  {
    var a, b := high / 0x100, high % 0x100;
    assert n == 0x100_0000 * a + (0x1_0000 * b + low);
    var c, d := low / 0x100, low % 0x100;
    assert n == 0x100 * (0x100 * high + c) + d;
  }

  /** The value of a 32-bit word read as int32_t, and back. */
  function Signed(n: nat): (i: int)
    requires n < 0x1_0000_0000
    ensures -0x8000_0000 <= i < 0x8000_0000 && (i - n) % 0x1_0000_0000 == 0
  {
    if n < 0x8000_0000 then n else n - 0x1_0000_0000
  }

  function Unsigned(i: int): (n: nat)
    requires -0x8000_0000 <= i < 0x8000_0000
    ensures n < 0x1_0000_0000 && Signed(n) == i && (n - i) % 0x1_0000_0000 == 0
  {
    if i >= 0 then i else i + 0x1_0000_0000
  }

  function Zeros(n: nat): (s: seq<Byte>)
    ensures |s| == n && forall k | 0 <= k < n :: s[k] == 0
  {
    seq(n, _ => 0)
  }
}
