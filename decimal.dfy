/**
 * The two conversions between numeric ids and string ids: `Number.prototype.toString()`
 * on an integer (base 10, no leading zeros, a leading '-' when negative) and
 * the global `parseInt(s)` without a radix argument.
 */
module Decimal {
  import opened Options
  import Text

  predicate IsDigit(c: char) {
    '0' <= c <= '9'
  }

  predicate AllDigits(z: string) {
    forall i :: 0 <= i < |z| ==> IsDigit(z[i])
  }

  function DigitChar(d: nat): (c: char)
    requires d < 10
    ensures IsDigit(c) && Weight(c) == d
  {
    ('0' as int + d) as char
  }

  /** The value of a digit character in any radix up to 36; 36 for a character that is no digit. */
  function Weight(c: char): nat {
    if '0' <= c <= '9' then c as int - '0' as int
    else if 'a' <= c <= 'z' then c as int - 'a' as int + 10
    else if 'A' <= c <= 'Z' then c as int - 'A' as int + 10
    else 36
  }

  predicate IsRadixDigit(c: char, radix: nat) {
    Weight(c) < radix
  }

  predicate AllRadixDigits(z: string, radix: nat) {
    forall i :: 0 <= i < |z| ==> IsRadixDigit(z[i], radix)
  }

  /** Base-10 rendering of a non-negative integer: digits only, and a leading '0' only for zero. */
  function NatToDecimal(n: nat): (s: string)
    ensures |s| >= 1
    ensures AllDigits(s)
    ensures s[0] == '0' <==> n == 0
    ensures n == 0 ==> s == "0"
  {
    if n < 10 then [DigitChar(n)] else NatToDecimal(n / 10) + [DigitChar(n % 10)]
  }

  /** `id.toString()` for an integer id. */
  function IntToDecimal(i: int): (s: string)
    ensures s != [] && (s[0] == '-' <==> i < 0)
  {
    if i < 0 then "-" + NatToDecimal(-i) else NatToDecimal(i)
  }

  /** The value of a string of radix digits, most significant first. */
  function DigitsValue(z: string, radix: nat): nat
    requires AllRadixDigits(z, radix)
  {
    if z == [] then 0
    else
      var init := z[..|z| - 1];
      assert forall i :: 0 <= i < |init| ==> init[i] == z[i];
      DigitsValue(init, radix) * radix + Weight(z[|z| - 1])
  }

  /** The longest prefix of `s` made of radix digits. */
  function DigitPrefix(s: string, radix: nat): (z: string)
    ensures |z| <= |s| && z == s[..|z|]
    ensures AllRadixDigits(z, radix)
    ensures |z| < |s| ==> !IsRadixDigit(s[|z|], radix)
  {
    if s != [] && IsRadixDigit(s[0], radix) then [s[0]] + DigitPrefix(s[1..], radix) else []
  }

  /** `"0x"` or `"0X"`: the prefix that makes `parseInt` read hexadecimal. */
  predicate HasHexPrefix(u: string) {
    |u| >= 2 && u[0] == '0' && (u[1] == 'x' || u[1] == 'X')
  }

  /**
   * The part of `parseInt` after the sign: hexadecimal after a "0x"/"0X"
   * prefix, decimal otherwise, up to the first character that is no digit.
   * `None` when no digit was read.
   */
  function ParseMagnitude(u: string): (r: Option<nat>)
  {
    var radix := if HasHexPrefix(u) then 16 else 10;
    var z := DigitPrefix(if HasHexPrefix(u) then u[2..] else u, radix);
    if z == [] then None else Some(DigitsValue(z, radix))
  }

  /** `parseInt(s)`: skip leading whitespace, then read a signed magnitude. `None` is NaN. */
  function ParseInt(s: string): (r: Option<int>)
  {
    ParseSigned(Text.TrimStart(s))
  }

  /** One optional sign, then the magnitude. */
  function ParseSigned(t: string): (r: Option<int>)
  {
    if t != [] && t[0] == '-' then Negated(ParseMagnitude(t[1..]))
    else if t != [] && t[0] == '+' then Widened(ParseMagnitude(t[1..]))
    else Widened(ParseMagnitude(t))
  }

  function Negated(m: Option<nat>): Option<int> {
    match m
    case None => None
    case Some(v) => Some(-(v as int))
  }

  function Widened(m: Option<nat>): Option<int> {
    match m
    case None => None
    case Some(v) => Some(v as int)
  }

  /** Digits with no leading zero. */
  predicate PositiveDigits(s: string) {
    s != [] && s[0] != '0' && AllDigits(s)
  }

  /** A decimal string that `toString` could have produced: "0", or an optional '-' and digits with no leading zero. */
  predicate Canonical(s: string) {
    s == "0" || PositiveDigits(s) || (s != [] && s[0] == '-' && PositiveDigits(s[1..]))
  }

  /** A string of decimal digits is its own longest decimal prefix. */
  lemma {:induction false} DigitPrefixOfDigits(z: string)
    requires AllDigits(z)
    ensures AllRadixDigits(z, 10) && DigitPrefix(z, 10) == z
    decreases |z|
  {
    if z != [] {
      DigitPrefixOfDigits(z[1..]);
    }
  }

  lemma MagnitudeOfDigits(z: string)
    requires z != [] && AllDigits(z)
    ensures AllRadixDigits(z, 10)
    ensures ParseMagnitude(z) == Some(DigitsValue(z, 10))
  {
    DigitPrefixOfDigits(z);
    assert !HasHexPrefix(z);
  }

  /** `parseInt` of a plain digit string is its decimal value. */
  lemma ParseIntOfDigits(z: string)
    requires z != [] && AllDigits(z)
    ensures AllRadixDigits(z, 10)
    ensures ParseInt(z) == Some(DigitsValue(z, 10))
  {
    MagnitudeOfDigits(z);
    Text.TrimStartKeepsVisibleStart(z);
  }

  /** `parseInt` of '-' and a digit string is the negated decimal value. */
  lemma ParseIntOfNegatedDigits(t: string)
    requires |t| >= 2 && t[0] == '-' && AllDigits(t[1..])
    ensures AllRadixDigits(t[1..], 10)
    ensures ParseInt(t) == Some(-(DigitsValue(t[1..], 10) as int))
  {
    ParseIntOfMinus(t);
    MagnitudeOfDigits(t[1..]);
  }

  /** A leading '-' is no whitespace: it is read as the sign. */
  lemma ParseIntOfMinus(t: string)
    requires t != [] && t[0] == '-'
    ensures ParseInt(t) == Negated(ParseMagnitude(t[1..]))
  {
    Text.TrimStartKeepsVisibleStart(t);
  }

  lemma {:induction false} ValueOfNatToDecimal(n: nat)
    ensures AllRadixDigits(NatToDecimal(n), 10)
    ensures DigitsValue(NatToDecimal(n), 10) == n
  {
    var s := NatToDecimal(n);
    DigitPrefixOfDigits(s);
    if n >= 10 {
      ValueOfNatToDecimal(n / 10);
      assert s[..|s| - 1] == NatToDecimal(n / 10);
    }
  }

  lemma {:induction false} DigitsValuePositive(z: string)
    requires PositiveDigits(z)
    ensures AllRadixDigits(z, 10) && DigitsValue(z, 10) > 0
    decreases |z|
  {
    DigitPrefixOfDigits(z);
    if |z| > 1 {
      DigitsValueStep(z);
      DigitsValuePositive(z[..|z| - 1]);
    }
  }

  /** Appending a digit to a positive number's rendering renders ten times it plus the digit. */
  lemma NatToDecimalStep(a: nat, w: nat)
    requires a >= 1 && w < 10
    ensures NatToDecimal(a * 10 + w) == NatToDecimal(a) + [DigitChar(w)]
  {
    var n := a * 10 + w;
    assert n / 10 == a && n % 10 == w;
  }

  /** The last digit and the digits before it. */
  lemma DigitsValueStep(z: string)
    requires |z| > 1 && PositiveDigits(z)
    ensures PositiveDigits(z[..|z| - 1]) && AllRadixDigits(z, 10) && AllRadixDigits(z[..|z| - 1], 10)
    ensures DigitsValue(z, 10) == DigitsValue(z[..|z| - 1], 10) * 10 + Weight(z[|z| - 1])
  {
    var init := z[..|z| - 1];
    assert forall i :: 0 <= i < |init| ==> init[i] == z[i];
    DigitPrefixOfDigits(z);
    DigitPrefixOfDigits(init);
  }

  lemma {:induction false} NatToDecimalOfValue(z: string)
    requires PositiveDigits(z)
    ensures AllRadixDigits(z, 10) && NatToDecimal(DigitsValue(z, 10)) == z
    decreases |z|
  {
    DigitPrefixOfDigits(z);
    if |z| > 1 {
      var init := z[..|z| - 1];
      DigitsValueStep(z);
      var a, w := DigitsValue(init, 10), Weight(z[|z| - 1]);
      DigitsValuePositive(init);
      NatToDecimalOfValue(init);
      NatToDecimalStep(a, w);
      assert DigitChar(w) == z[|z| - 1];
      assert z == init + [z[|z| - 1]];
    } else {
      assert z == [z[0]];
    }
  }

  /** `parseInt` reads back what `toString` wrote: `parseInt(i.toString()) === i`. */
  lemma ParseIntOfDecimal(i: int)
    ensures ParseInt(IntToDecimal(i)) == Some(i)
  {
    var n: nat := if i < 0 then -i else i;
    ValueOfNatToDecimal(n);
    if i < 0 {
      var t := IntToDecimal(i);
      assert t[1..] == NatToDecimal(n);
      ParseIntOfNegatedDigits(t);
    } else {
      ParseIntOfDigits(NatToDecimal(n));
    }
  }

  /** For a canonical id, `parseInt(id).toString() === id`. */
  lemma CanonicalRoundTrip(s: string)
    requires Canonical(s)
    ensures ParseInt(s).Some? && IntToDecimal(ParseInt(s).value) == s
  {
    if s == "0" {
      ParseIntOfDigits(s);
      assert DigitsValue(s, 10) == 0;
    } else if PositiveDigits(s) {
      ParseIntOfDigits(s);
      NatToDecimalOfValue(s);
    } else {
      var d := s[1..];
      ParseIntOfNegatedDigits(s);
      NatToDecimalOfValue(d);
      DigitsValuePositive(d);
    }
  }

  /** The canonical strings are exactly the renderings of integers. */
  lemma CanonicalIffRendering(s: string)
    ensures Canonical(s) <==> exists i :: IntToDecimal(i) == s
  {
    if Canonical(s) {
      CanonicalRoundTrip(s);
    }
    if exists i :: IntToDecimal(i) == s {
      var i :| IntToDecimal(i) == s;
      if i < 0 {
        assert s[1..] == NatToDecimal(-i);
      }
    }
  }
}
