/**
 * The fixed-width integers of the C++ program, the casts between them, and the
 * decimal text that `operator<<` writes and `std::stoll` reads back.
 */
module Numeric {
  import opened Wrappers

  type uint8 = x: int | 0 <= x < 0x100
  type uint32 = x: int | 0 <= x < 0x1_0000_0000
  type int32 = x: int | -0x8000_0000 <= x < 0x8000_0000
  type int64 = x: int | -0x8000_0000_0000_0000 <= x < 0x8000_0000_0000_0000

  /** `static_cast<uint8_t>(x)`: keeps the low 8 bits. */
  function ToUint8(x: int): uint8 {
    x % 0x100
  }

  /** `static_cast<uint32_t>(x)` (also `DWORD` and 32-bit `unsigned long`): keeps the low 32 bits. */
  function ToUint32(x: int): uint32 {
    x % 0x1_0000_0000
  }

  /** `static_cast<int>(x)`: two's-complement wrap-around to 32 bits. */
  function ToInt32(x: int): (r: int32)
    ensures -0x8000_0000 <= x < 0x8000_0000 ==> r == x
    ensures (r - x) % 0x1_0000_0000 == 0
  {
    var m := x % 0x1_0000_0000;
    if m < 0x8000_0000 then m else m - 0x1_0000_0000
  }

  predicate IsDigit(c: char) {
    '0' <= c <= '9'
  }

  function DigitChar(d: nat): (c: char)
    requires d < 10
    ensures IsDigit(c)
  {
    ('0' as int + d) as char
  }

  function DigitValue(c: char): nat
    requires IsDigit(c)
  {
    c as int - '0' as int
  }

  predicate AllDigits(s: string) {
    forall i :: 0 <= i < |s| ==> IsDigit(s[i])
  }

  /** Decimal digits of `n`, most significant first, no leading zeros. */
  function NatToDecimal(n: nat): (s: string)
    ensures |s| > 0 && AllDigits(s)
    decreases n
  {
    if n < 10 then [DigitChar(n)] else NatToDecimal(n / 10) + [DigitChar(n % 10)]
  }

  /** What `operator<<` writes for a signed integer. */
  function IntToDecimal(n: int): (s: string)
    ensures |s| > 0
  {
    if n < 0 then "-" + NatToDecimal(-n) else NatToDecimal(n)
  }

  /** The value of a string of decimal digits. */
  function DigitsValue(s: string): nat
    requires AllDigits(s)
  {
    if s == [] then 0 else DigitsValue(s[..|s| - 1]) * 10 + DigitValue(s[|s| - 1])
  }

  /** The number of leading decimal digits of `s`. */
  function LeadingDigits(s: string): (n: nat)
    ensures n <= |s| && AllDigits(s[..n]) && (n < |s| ==> !IsDigit(s[n]))
  {
    if s == [] || !IsDigit(s[0]) then 0
    else
      var n := 1 + LeadingDigits(s[1..]);
      assert s[..n] == [s[0]] + s[1..][..n - 1];
      n
  }

  /**
   * `std::stoll(s)`: an optional sign, then the longest run of digits. None is
   * the exception `std::stoll` throws: `invalid_argument` when there is no digit,
   * `out_of_range` when the value does not fit in 64 bits.
   */
  function StoLL(s: string): Option<int64> {
    var signed := |s| > 0 && (s[0] == '-' || s[0] == '+');
    var body := if signed then s[1..] else s;
    var n := LeadingDigits(body);
    if n == 0 then None
    else
      var magnitude := DigitsValue(body[..n]);
      var v: int := if signed && s[0] == '-' then -(magnitude as int) else magnitude as int;
      if -0x8000_0000_0000_0000 <= v < 0x8000_0000_0000_0000 then Some(v) else None
  }

  lemma {:induction false} DigitsOfDecimal(n: nat)
    ensures DigitsValue(NatToDecimal(n)) == n
    decreases n
  {
    if n >= 10 {
      var s := NatToDecimal(n);
      DigitsOfDecimal(n / 10);
      assert s[..|s| - 1] == NatToDecimal(n / 10);
    }
  }

  /** Leading digits of a digit string followed by a non-digit. */
  lemma LeadingDigitsOfRun(d: string, rest: string)
    requires AllDigits(d)
    requires rest == [] || !IsDigit(rest[0])
    ensures LeadingDigits(d + rest) == |d|
    decreases |d|
  {
    if d != [] {
      assert (d + rest)[1..] == d[1..] + rest;
      LeadingDigitsOfRun(d[1..], rest);
    } else {
      assert d + rest == rest;
    }
  }

  /** `std::stoll` reads back what `operator<<` wrote, whatever non-digit follows it. */
  lemma StoLLOfDecimal(n: int64, rest: string)
    requires rest == [] || !IsDigit(rest[0])
    ensures StoLL(IntToDecimal(n) + rest) == Some(n)
  {
    if n < 0 {
      var d := NatToDecimal(-(n as int));
      StoLLOfDigits(-(n as int), rest);
      assert IntToDecimal(n) + rest == "-" + (d + rest);
      assert ("-" + (d + rest))[1..] == d + rest;
    } else {
      StoLLOfDigits(n, rest);
    }
  }

  /** The digits of `m` followed by a non-digit: their value is `m`, and they do not start with a sign. */
  lemma StoLLOfDigits(m: nat, rest: string)
    requires rest == [] || !IsDigit(rest[0])
    ensures var d := NatToDecimal(m);
      && LeadingDigits(d + rest) == |d| && (d + rest)[..|d|] == d && DigitsValue(d) == m
      && (d + rest)[0] != '-' && (d + rest)[0] != '+'
  {
    var d := NatToDecimal(m);
    LeadingDigitsOfRun(d, rest);
    DigitsOfDecimal(m);
    assert (d + rest)[..|d|] == d;
    assert (d + rest)[0] == d[0];
  }
}
