/** Python's `int(s)` and `float(s)` on stripped decimal text, with exact values. */
module Numerals {
  import opened Wrappers

  predicate IsDigit(c: char)
  {
    '0' <= c <= '9'
  }

  predicate AllDigits(s: string)
  {
    forall k :: 0 <= k < |s| ==> IsDigit(s[k])
  }

  function DigitValue(c: char): nat
    requires IsDigit(c)
  {
    c as int - '0' as int
  }

  /** The value of a string of decimal digits, most significant digit first; the empty string is 0. */
  function DigitsValue(s: string): nat
    requires AllDigits(s)
  {
    if s == [] then 0 else DigitsValue(s[..|s| - 1]) * 10 + DigitValue(s[|s| - 1])
  }

  function Pow10(n: nat): (p: nat)
    ensures p >= 1
  {
    if n == 0 then 1 else 10 * Pow10(n - 1)
  }

  /** How many characters a leading sign takes: 1 for `+` or `-`, else 0. */
  function SignLength(s: string): nat
  {
    if |s| > 0 && (s[0] == '+' || s[0] == '-') then 1 else 0
  }

  /** Python's `int(s)` for a stripped `s`: an optional sign followed by one or more ASCII digits;
      anything else is refused (`ValueError`), modelled as `None`. */
  function ParseInt(s: string): (r: Option<int>)
    ensures r.Some? ==> |s| > SignLength(s) && AllDigits(s[SignLength(s)..])
  {
    var digits := s[SignLength(s)..];
    if digits == [] || !AllDigits(digits) then None
    else
      var magnitude: int := DigitsValue(digits);
      Some(if s[0] == '-' then -magnitude else magnitude)
  }

  /** The length of the longest all-digit prefix of `s`. */
  function DigitPrefixLength(s: string): (n: nat)
    ensures n <= |s| && AllDigits(s[..n]) && (n < |s| ==> !IsDigit(s[n]))
  {
    if s == [] || !IsDigit(s[0]) then 0 else 1 + DigitPrefixLength(s[1..])
  }

  /** The value of the numeral `whole.fraction`. */
  function DecimalValue(whole: string, fraction: string): real
    requires AllDigits(whole) && AllDigits(fraction)
  {
    DigitsValue(whole) as real + DigitsValue(fraction) as real / Pow10(|fraction|) as real
  }

  /** The value of the numeral `whole.fraction` for a whole part given as a number. */
  function NumeralValue(whole: nat, fraction: string): real
    requires AllDigits(fraction)
  {
    whole as real + DigitsValue(fraction) as real / Pow10(|fraction|) as real
  }

  /** A numeral without a fraction has the value of its whole part. */
  lemma WholeNumeralValue(whole: nat)
    ensures NumeralValue(whole, []) == whole as real
  {
    assert DigitsValue([]) == 0 && Pow10(0) == 1;
  }

  /** A sign-free decimal numeral: digits, optionally a point and more digits, with at least one digit in all. */
  function ParseUnsignedDecimal(b: string): (r: Option<real>)
    ensures r.Some? ==> r.value >= 0.0
  {
    var n := DigitPrefixLength(b);
    var whole := b[..n];
    var rest := b[n..];
    if rest == [] then
      if whole == [] then None else Some(DigitsValue(whole) as real)
    else if rest[0] == '.' && AllDigits(rest[1..]) && (whole != [] || |rest| > 1) then
      Some(DecimalValue(whole, rest[1..]))
    else None
  }

  /** Python's `float(s)` for a stripped `s`, restricted to plain decimal numerals (`12`, `-0.5`, `.5`, `5.`),
      with the exact value of the numeral. */
  function ParseDecimal(s: string): (r: Option<real>)
    ensures r.Some? && r.value < 0.0 ==> |s| > 0 && s[0] == '-'
  {
    var n := SignLength(s);
    match ParseUnsignedDecimal(s[n..])
    case None => None
    case Some(m) => Some(if n == 1 && s[0] == '-' then -m else m)
  }

  function DigitChar(d: nat): (c: char)
    requires d < 10
    ensures IsDigit(c) && DigitValue(c) == d
  {
    ('0' as int + d) as char
  }

  /** The decimal digits of `n`, without leading zeros. */
  function NatToString(n: nat): (s: string)
    ensures s != [] && AllDigits(s)
  {
    if n < 10 then [DigitChar(n)] else NatToString(n / 10) + [DigitChar(n % 10)]
  }

  /** Python's `str(n)` for an integer. */
  function IntToString(n: int): string
  {
    if n < 0 then "-" + NatToString(-n) else NatToString(n)
  }

  lemma {:induction false} NatToStringValue(n: nat)
    ensures DigitsValue(NatToString(n)) == n
  {
    if n >= 10 {
      var s := NatToString(n);
      assert s[..|s| - 1] == NatToString(n / 10);
      NatToStringValue(n / 10);
    }
  }

  /** `int(str(n)) == n`. */
  lemma ParseIntRoundTrip(n: int)
    ensures ParseInt(IntToString(n)) == Some(n)
  {
    var s := IntToString(n);
    if n < 0 {
      assert s[SignLength(s)..] == NatToString(-n);
      NatToStringValue(-n);
    } else {
      assert SignLength(s) == 0;
      assert s[0..] == s;
      NatToStringValue(n);
    }
  }

  /** A string with a character that is neither a digit nor a leading sign is refused by `int`. */
  lemma ParseIntRefuses(s: string, k: nat)
    requires k < |s| && !IsDigit(s[k]) && (k > 0 || (s[0] != '+' && s[0] != '-'))
    ensures ParseInt(s) == None
  {
  }

  lemma {:induction false} DigitPrefixOfDigits(s: string)
    requires AllDigits(s)
    ensures DigitPrefixLength(s) == |s|
  {
    if s != [] {
      DigitPrefixOfDigits(s[1..]);
    }
  }

  /** Every numeral `int` accepts, `float` accepts with the same value. */
  lemma ParseDecimalExtendsParseInt(s: string)
    requires ParseInt(s).Some?
    ensures ParseDecimal(s) == Some(ParseInt(s).value as real)
  {
    var n := SignLength(s);
    var b := s[n..];
    DigitPrefixOfDigits(b);
    assert b[..|b|] == b;
  }

  /** The all-digit prefix of digits followed by a non-digit is exactly those digits. */
  lemma {:induction false} DigitPrefixBefore(d: string, rest: string)
    requires AllDigits(d) && (rest == [] || !IsDigit(rest[0]))
    ensures DigitPrefixLength(d + rest) == |d|
  {
    if d != [] {
      assert (d + rest)[1..] == d[1..] + rest;
      DigitPrefixBefore(d[1..], rest);
    }
  }

  /** `float()` of a numeral with a fractional part: the whole part plus the fraction digits over their power
      of ten, as an exact real. */
  lemma ParseDecimalFraction(w: nat, f: string)
    requires f != [] && AllDigits(f)
    ensures ParseDecimal(IntToString(w) + "." + f) == Some(NumeralValue(w, f))
  {
    var d := NatToString(w);
    var s := d + "." + f;
    assert SignLength(s) == 0 && s[0..] == s by {
      assert s[0] == d[0] && IsDigit(d[0]);
    }
    UnsignedFraction(d, f);
    WholeValue(w, f);
  }

  lemma WholeValue(w: nat, f: string)
    requires AllDigits(f)
    ensures DecimalValue(NatToString(w), f) == NumeralValue(w, f)
  {
    NatToStringValue(w);
  }

  /** Digits, a point and more digits denote the whole part plus the fraction. */
  lemma UnsignedFraction(d: string, f: string)
    requires d != [] && AllDigits(d) && f != [] && AllDigits(f)
    ensures ParseUnsignedDecimal(d + "." + f) == Some(DecimalValue(d, f))
  {
    var rest := ['.'] + f;
    var b := d + rest;
    assert d + "." + f == b;
    DigitPrefixBefore(d, rest);
    assert b[..|d|] == d;
    assert b[|d|..] == rest;
    assert rest[0] == '.' && rest[1..] == f;
  }
}
