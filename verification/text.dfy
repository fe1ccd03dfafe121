/** Operations on strings (sequences of characters) that the handlers rely on. */
module Text {
  import opened Wrappers

  /** `needle` occurs in `hay` starting at position `i`. */
  predicate OccursAt(needle: string, hay: string, i: int) {
    0 <= i && i + |needle| <= |hay| && hay[i..i + |needle|] == needle
  }

  /** Python's `needle in hay` for two strings. */
  predicate IsSubstring(needle: string, hay: string) {
    exists i :: 0 <= i <= |hay| - |needle| && OccursAt(needle, hay, i)
  }

  predicate StartsWith(s: string, prefix: string) {
    |prefix| <= |s| && s[..|prefix|] == prefix
  }

  predicate EndsWith(s: string, suffix: string) {
    |suffix| <= |s| && s[|s| - |suffix|..] == suffix
  }

  /** The character of a decimal digit. */
  function DigitChar(d: nat): char
    requires d < 10
  {
    "0123456789"[d]
  }

  /** Python's `str(n)` for a non-negative integer. */
  function NatToString(n: nat): (s: string)
    ensures |s| > 0
    ensures forall i :: 0 <= i < |s| ==> '0' <= s[i] <= '9'
  {
    if n < 10 then [DigitChar(n)] else NatToString(n / 10) + [DigitChar(n % 10)]
  }

  /** Python's `str(n)` for an integer. */
  function IntToString(n: int): string {
    if n < 0 then "-" + NatToString(-n) else NatToString(n)
  }

  predicate AllDigits(s: string) {
    forall i :: 0 <= i < |s| ==> '0' <= s[i] <= '9'
  }

  /** The number a string of decimal digits spells, most significant digit first. */
  function DigitsValue(s: string): nat
    requires AllDigits(s)
  {
    if |s| == 0 then 0 else 10 * DigitsValue(s[..|s| - 1]) + (s[|s| - 1] as int - '0' as int)
  }

  /** The natural number a text spells when it is written exactly as `str(n)` writes it. */
  function ParseNat(s: string): (r: Option<nat>)
    ensures r.Some? ==> NatToString(r.value) == s
  {
    if |s| > 0 && AllDigits(s) && NatToString(DigitsValue(s)) == s then Some(DigitsValue(s)) else None
  }

  /**
   * The integer a text spells when it is written exactly as `str(n)` writes integers: an
   * optional minus sign and digits without leading zeros. `None` for any other text.
   */
  function ParseInt(s: string): (r: Option<int>)
    ensures r.Some? ==> IntToString(r.value) == s
  {
    if |s| > 0 && s[0] == '-' then
      match ParseNat(s[1..])
      case Some(v) =>
        if v > 0 then
          assert s == "-" + s[1..];
          Some(0 - v as int)
        else None
      case None => None
    else ParseNat(s)
  }

  lemma DigitCharValue(d: nat)
    requires d < 10
    ensures DigitChar(d) as int - '0' as int == d
  {
    if d == 0 {} else if d == 1 {} else if d == 2 {} else if d == 3 {} else if d == 4 {}
    else if d == 5 {} else if d == 6 {} else if d == 7 {} else if d == 8 {} else {}
  }

  /** Reading the digits `str(n)` writes gives back `n`. */
  lemma {:induction false} DigitsOfNat(n: nat)
    ensures AllDigits(NatToString(n)) && DigitsValue(NatToString(n)) == n
  {
    var s := NatToString(n);
    if n < 10 {
      DigitCharValue(n);
      assert s[..0] == [];
    } else {
      DigitsOfNat(n / 10);
      DigitCharValue(n % 10);
      assert s[..|s| - 1] == NatToString(n / 10);
    }
  }

  /** Every integer's text parses back to it: `int(str(n)) == n`. */
  lemma ParseIntRoundTrip(n: int)
    ensures ParseInt(IntToString(n)) == Some(n)
  {
    if n < 0 {
      NegativeParses(n);
    } else {
      NaturalParses(n);
    }
  }

  lemma NegativeParses(n: int)
    requires n < 0
    ensures ParseInt(IntToString(n)) == Some(n)
  {
    NaturalParses(-n);
    ParseMinus(NatToString(-n), -n);
  }

  /** A minus sign before the text of a positive number parses as its negation. */
  lemma ParseMinus(digits: string, v: nat)
    requires ParseNat(digits) == Some(v) && v > 0
    ensures ParseInt("-" + digits) == Some(0 - v as int)
  {
    assert ("-" + digits)[1..] == digits;
  }

  lemma NaturalParses(n: nat)
    ensures ParseNat(NatToString(n)) == Some(n)
    ensures ParseInt(IntToString(n)) == Some(n)
  {
    var s := NatToString(n);
    DigitsOfNat(n);
    assert '0' <= s[0] <= '9';
  }

  /** A string holds no string longer than itself. */
  lemma ShortHayHoldsNoLongNeedle(needle: string, hay: string)
    requires |hay| < |needle|
    ensures !IsSubstring(needle, hay)
  {
  }

  /** The pieces of a concatenation can be read back by position. */
  lemma ConcatSlices(a: string, b: string, c: string)
    ensures (a + b + c)[..|a|] == a
    ensures (a + b + c)[|a|..|a| + |b|] == b
    ensures (a + b + c)[|a| + |b|..] == c
  {
  }

  /** A string framed by a prefix and a suffix starts and ends with them, and holds the middle between them. */
  lemma Framed(prefix: string, middle: string, suffix: string)
    ensures StartsWith(prefix + middle + suffix, prefix)
    ensures EndsWith(prefix + middle + suffix, suffix)
    ensures (prefix + middle + suffix)[|prefix|..|prefix| + |middle|] == middle
  {
    ConcatSlices(prefix, middle, suffix);
  }

  /** Two strings framed side by side occur one after the other. */
  lemma FramedPair(prefix: string, a: string, b: string, suffix: string)
    ensures OccursAt(a, prefix + (a + b) + suffix, |prefix|)
    ensures OccursAt(b, prefix + (a + b) + suffix, |prefix| + |a|)
  {
    var s := prefix + (a + b) + suffix;
    assert s == (prefix + a) + b + suffix;
    ConcatSlices(prefix, a, b + suffix);
    assert s == prefix + a + (b + suffix);
    ConcatSlices(prefix + a, b, suffix);
  }
}
