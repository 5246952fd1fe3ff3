/**
 * The text formats dskstore relies on: bytes with Go's shift and mask
 * operators, `encoding/hex` lower-case encoding, and the `fmt` verbs
 * `%x`, `%d` and `%0<w>d` on non-negative integers.
 */
module Formats {

  /** A Go `byte`. Shifts and masks on it are modelled on its integer value. */
  type Byte = x: int | 0 <= x < 256

  /** `x >> s` for a non-negative `x`: halve `s` times, dropping the low bit each time. */
  function ShiftRight(x: nat, s: nat): nat
  {
    if s == 0 then x else ShiftRight(x / 2, s - 1)
  }

  /** Shifting right by four divides by sixteen. */
  lemma ShiftRightFour(x: nat)
    ensures ShiftRight(x, 4) == x / 16
  {
    var a1 := x / 2;
    var a2 := a1 / 2;
    var a3 := a2 / 2;
    var a4 := a3 / 2;
    assert ShiftRight(x, 4) == ShiftRight(a1, 3) == ShiftRight(a2, 2) == ShiftRight(a3, 1) == a4;
    assert x == 2 * a1 + x % 2 && a1 == 2 * a2 + a1 % 2;
    assert a2 == 2 * a3 + a2 % 2 && a3 == 2 * a4 + a3 % 2;
    assert x == 16 * a4 + (8 * (a3 % 2) + 4 * (a2 % 2) + 2 * (a1 % 2) + x % 2);
  }

  /** `x & 0xf` for a non-negative `x`: keeps the low four bits. */
  function LowNibble(x: nat): (n: nat)
    ensures n < 16
  {
    x % 16
  }

  /** The high nibble `b >> 4` of a byte. */
  function HighNibble(b: Byte): (n: nat)
    ensures n < 16
    ensures n * 16 + LowNibble(b) == b
  {
    ShiftRightFour(b);
    ShiftRight(b, 4)
  }

  /** The digit table `"0123456789abcdef"` shared by `fmt` and `encoding/hex`. */
  function Digit(n: nat): (c: char)
    requires n < 16
    ensures IsHexDigit(c)
  {
    if n < 10 then (n + '0' as int) as char else (n - 10 + 'a' as int) as char
  }

  predicate IsHexDigit(c: char)
  {
    '0' <= c <= '9' || 'a' <= c <= 'f'
  }

  /** The inverse of `Digit` on lower-case hexadecimal digits. */
  function DigitValue(c: char): (n: nat)
    requires IsHexDigit(c)
    ensures n < 16 && Digit(n) == c
    ensures '0' <= c <= '9' <==> n < 10
  {
    if '0' <= c <= '9' then c as int - '0' as int else c as int - 'a' as int + 10
  }

  lemma DigitInjective(m: nat, n: nat)
    requires m < 16 && n < 16 && Digit(m) == Digit(n)
    ensures m == n
  {
    assert DigitValue(Digit(m)) == m;
  }

  /** `hex.EncodeToString`: two lower-case digits per byte, high nibble first. */
  function HexEncode(bs: seq<Byte>): (s: string)
    ensures |s| == 2 * |bs|
    ensures forall c | c in s :: IsHexDigit(c)
  {
    if bs == [] then []
    else [Digit(HighNibble(bs[0])), Digit(LowNibble(bs[0]))] + HexEncode(bs[1..])
  }

  /** The decoder that `HexEncode` is the inverse of. */
  function HexDecode(s: string): (bs: seq<Byte>)
    requires |s| % 2 == 0
    requires forall c | c in s :: IsHexDigit(c)
    ensures 2 * |bs| == |s|
  {
    if s == [] then []
    else [DigitValue(s[0]) * 16 + DigitValue(s[1])] + HexDecode(s[2..])
  }

  lemma {:induction false} HexRoundTrip(bs: seq<Byte>)
    ensures HexDecode(HexEncode(bs)) == bs
  {
    if bs != [] {
      var s := HexEncode(bs);
      assert s[2..] == HexEncode(bs[1..]);
      HexRoundTrip(bs[1..]);
    }
  }

  lemma HexEncodeInjective(a: seq<Byte>, b: seq<Byte>)
    requires HexEncode(a) == HexEncode(b)
    ensures a == b
  {
    HexRoundTrip(a);
    HexRoundTrip(b);
  }

  /** Character `i` of the encoding is nibble `i` of the input, read left to right. */
  lemma {:induction false} HexEncodeAt(bs: seq<Byte>, i: nat)
    requires i < 2 * |bs|
    ensures HexEncode(bs)[i] == Digit(if i % 2 == 0 then HighNibble(bs[i / 2]) else LowNibble(bs[i / 2]))
  {
    if i >= 2 {
      HexEncodeAt(bs[1..], i - 2);
      assert HexEncode(bs)[i] == HexEncode(bs[1..])[i - 2];
    }
  }

  /** `fmt.Sprintf("%x", n)` for `n >= 0`: lower-case hexadecimal, no padding. */
  function LowerHex(n: nat): (s: string)
    ensures |s| >= 1
    ensures n < 16 <==> |s| == 1
  {
    if n < 16 then [Digit(n)] else LowerHex(n / 16) + [Digit(n % 16)]
  }

  /** `fmt.Sprint(n)` and `fmt.Sprintf("%d", n)` for `n >= 0`. */
  function Decimal(n: nat): (s: string)
    ensures |s| >= 1
    ensures n < 10 <==> |s| == 1
  {
    if n < 10 then [Digit(n)] else Decimal(n / 10) + [Digit(n % 10)]
  }

  /**
   * The number a string of decimal digits spells, most significant first;
   * leading zeros contribute nothing.
   */
  function DecimalValue(s: string): int
  {
    if s == [] then 0 else DecimalValue(s[..|s| - 1]) * 10 + (s[|s| - 1] as int - '0' as int)
  }

  lemma {:induction false} DecimalRoundTrip(n: nat)
    ensures DecimalValue(Decimal(n)) == n
  {
    if n >= 10 {
      DecimalRoundTrip(n / 10);
      var s := Decimal(n);
      assert s[..|s| - 1] == Decimal(n / 10);
    }
  }

  /** A longer number never prints shorter. */
  lemma {:induction false} DecimalLengthMonotone(m: nat, n: nat)
    requires m <= n
    ensures |Decimal(m)| <= |Decimal(n)|
  {
    if m >= 10 {
      DecimalLengthMonotone(m / 10, n / 10);
    }
  }

  function Zeros(k: nat): (z: string)
    ensures |z| == k && forall c | c in z :: c == '0'
  {
    seq(k, _ => '0')
  }

  /** `fmt.Sprintf("%0<w>d", ...)` padding: zeros on the left up to width `w`. */
  function ZeroPad(s: string, w: nat): (r: string)
    ensures |r| == if |s| < w then w else |s|
    ensures r[|r| - |s|..] == s
    ensures forall k | 0 <= k < |r| - |s| :: r[k] == '0'
  {
    if |s| < w then Zeros(w - |s|) + s else s
  }

  lemma {:induction false} DecimalValueLeadingZeros(k: nat, s: string)
    ensures DecimalValue(Zeros(k) + s) == DecimalValue(s)
  {
    var z := Zeros(k) + s;
    if s == [] {
      assert z == Zeros(k);
      if k > 0 {
        assert z[..|z| - 1] == Zeros(k - 1) + [] && z[|z| - 1] == '0';
        DecimalValueLeadingZeros(k - 1, []);
      }
    } else {
      assert z[..|z| - 1] == Zeros(k) + s[..|s| - 1];
      DecimalValueLeadingZeros(k, s[..|s| - 1]);
    }
  }

  /** Zero-padded decimals keep their value, so padding to a common width is injective. */
  lemma PaddedDecimalValue(n: nat, w: nat)
    ensures DecimalValue(ZeroPad(Decimal(n), w)) == n
  {
    DecimalRoundTrip(n);
    var s := Decimal(n);
    if |s| < w {
      DecimalValueLeadingZeros(w - |s|, s);
    }
  }
}
