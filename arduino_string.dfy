/** The parts of the Arduino `String` library that the transport relies on:
    `indexOf`, `substring`, and the decimal and hexadecimal renderings made by
    the `String(int)`, `String(long)`, `String(uint8_t)` and
    `String(value, HEX)` constructors. Strings are sequences of characters;
    the model does not treat an embedded NUL character specially. */
module ArduinoString {
  import opened Wrappers

  /** An 8-bit unsigned value (`byte`, `uint8_t`). */
  type Byte = x: int | 0 <= x < 256

  /** `m` occurs in `s` starting at index `i`. */
  predicate OccursAt(s: string, m: string, i: nat) {
    i + |m| <= |s| && s[i..i + |m|] == m
  }

  /** `String::indexOf(m, fromIndex)`: -1 when `fromIndex` is not below the
      length, otherwise the first index at or after `fromIndex` where `m`
      occurs, or -1 when there is none. */
  function IndexOf(s: string, m: string, from: nat): (r: int)
    decreases |s| - from
    ensures -1 <= r
    ensures r >= 0 ==> from <= r < |s| && OccursAt(s, m, r)
    ensures r >= 0 ==> forall i :: from <= i < r ==> !OccursAt(s, m, i)
    ensures r == -1 ==> forall i :: from <= i < |s| ==> !OccursAt(s, m, i)
  {
    if from >= |s| then -1
    else if OccursAt(s, m, from) then from
    else IndexOf(s, m, from + 1)
  }

  /** `String::indexOf(c, fromIndex)` for a single character: the library
      answers it with `strchr`, which agrees with searching for the
      one-character string. */
  function IndexOfChar(s: string, c: char, from: nat): (r: int)
    ensures -1 <= r
    ensures r >= 0 ==> from <= r < |s| && s[r] == c
    ensures r >= 0 ==> c !in s[from..r]
    ensures r == -1 ==> forall i :: from <= i < |s| ==> s[i] != c
  {
    var r := IndexOf(s, [c], from);
    assert forall i :: from <= i < |s| ==> (OccursAt(s, [c], i) <==> s[i] == c) by {
      forall i | from <= i < |s| ensures OccursAt(s, [c], i) <==> s[i] == c {
        assert s[i..i + 1] == [s[i]];
      }
    }
    if r >= 0 then
      assert s[r..r + 1] == [s[r]];
      r
    else
      r
  }

  /** The characters of `s` from `lo` up to (excluding) `hi`, where the end is
      clamped to the length and a start at or past the end gives "". */
  function Range(s: string, lo: nat, hi: nat): (r: string)
    requires lo < |s| ==> lo <= hi
    ensures lo < |s| ==> r == s[lo..if hi < |s| then hi else |s|]
    ensures lo >= |s| ==> r == ""
  {
    if lo >= |s| then "" else s[lo..if hi < |s| then hi else |s|]
  }

  /** `String::substring(left, right)`. Both indices are unsigned in the
      library: a negative `right` (the -1 that `indexOf` returns for "not
      found") arrives as a value beyond every length, so after the end clamp it
      stands for the length of `s`; this is the modelling assumption for -1.
      When `right` is below `left` the library swaps the two. */
  function Substring(s: string, left: nat, right: int): (r: string)
  {
    if right < 0 then Range(s, left, |s|)
    else if right < left then Range(s, right, left)
    else Range(s, left, right)
  }

  /** `String::substring(left)`: from `left` to the end. */
  function SubstringFrom(s: string, left: nat): (r: string)
    ensures left < |s| ==> r == s[left..]
    ensures left >= |s| ==> r == ""
  {
    Substring(s, left, |s|)
  }

  // ---------------------------------------------------------------------
  // Decimal rendering, as String(int), String(long) and String(uint8_t)

  predicate IsDigit(c: char) {
    '0' <= c <= '9'
  }

  predicate AllDigits(s: string) {
    forall i :: 0 <= i < |s| ==> IsDigit(s[i])
  }

  function DigitChar(d: nat): (c: char)
    requires d < 10
    ensures IsDigit(c)
  {
    "0123456789"[d]
  }

  function DigitValue(c: char): (d: nat)
    requires IsDigit(c)
    ensures d < 10
  {
    (c as int) - ('0' as int)
  }

  lemma DigitValueOfChar(d: nat)
    requires d < 10
    ensures DigitValue(DigitChar(d)) == d
  {
  }

  /** Decimal digits of `n`, most significant first, without leading zeros. */
  function NatToDecimal(n: nat): (r: string)
    decreases n
    ensures |r| >= 1 && AllDigits(r)
    ensures r[0] == '0' ==> n == 0
  {
    if n < 10 then [DigitChar(n)]
    else NatToDecimal(n / 10) + [DigitChar(n % 10)]
  }

  /** Decimal rendering of a signed value, with a leading '-' when negative. */
  function IntToDecimal(i: int): (r: string)
  {
    if i < 0 then "-" + NatToDecimal(-i) else NatToDecimal(i)
  }

  /** The value of a string of decimal digits (the empty string is 0). */
  function DecimalValue(s: string): nat
    requires AllDigits(s)
  {
    if s == [] then 0 else DecimalValue(s[..|s| - 1]) * 10 + DigitValue(s[|s| - 1])
  }

  /** Reading back a signed decimal: an optional '-' followed by at least one digit. */
  function ParseInt(s: string): (r: Option<int>)
  {
    if |s| >= 2 && s[0] == '-' && AllDigits(s[1..]) then
      var magnitude: int := DecimalValue(s[1..]);
      Some(-magnitude)
    else if |s| >= 1 && AllDigits(s) then Some(DecimalValue(s))
    else None
  }

  lemma {:induction false} NatToDecimalRoundTrip(n: nat)
    ensures DecimalValue(NatToDecimal(n)) == n
    decreases n
  {
    if n < 10 {
      DigitValueOfChar(n);
    } else {
      var r := NatToDecimal(n);
      NatToDecimalRoundTrip(n / 10);
      assert r[..|r| - 1] == NatToDecimal(n / 10);
      DigitValueOfChar(n % 10);
    }
  }

  /** Rendering a signed value in decimal and reading it back gives the value. */
  lemma IntToDecimalRoundTrip(i: int)
    ensures ParseInt(IntToDecimal(i)) == Some(i)
  {
    var r := IntToDecimal(i);
    if i < 0 {
      var digits := NatToDecimal(-i);
      assert r == "-" + digits;
      assert r[1..] == digits;
      NatToDecimalRoundTrip(-i);
    } else {
      assert IsDigit(r[0]);
      NatToDecimalRoundTrip(i);
    }
  }

  /** Distinct values have distinct decimal renderings. */
  lemma IntToDecimalInjective(i: int, j: int)
    requires IntToDecimal(i) == IntToDecimal(j)
    ensures i == j
  {
    IntToDecimalRoundTrip(i);
    IntToDecimalRoundTrip(j);
  }

  // ---------------------------------------------------------------------
  // Hexadecimal rendering of one nibble, as String(value, HEX)

  predicate IsLowerHexDigit(c: char) {
    '0' <= c <= '9' || 'a' <= c <= 'f'
  }

  /** `String(v, HEX)` for a value below 16: one lower-case hex digit. */
  function HexDigit(v: nat): (c: char)
    requires v < 16
    ensures IsLowerHexDigit(c)
  {
    "0123456789abcdef"[v]
  }

  /** The value of a lower-case hex digit. */
  function HexDigitValue(c: char): (v: nat)
    requires IsLowerHexDigit(c)
    ensures v < 16
  {
    if c <= '9' then (c as int) - ('0' as int) else (c as int) - ('a' as int) + 10
  }

  lemma HexDigitRoundTrip(v: nat)
    requires v < 16
    ensures HexDigitValue(HexDigit(v)) == v
  {
  }
}
