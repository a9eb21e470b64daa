/**
 * Decimal text of integers, as Python's `str(int)` writes it and as Python's
 * `int(str)` reads it back (ASCII digits, surrounding whitespace, an optional
 * sign and single underscores between digits).
 */
module Decimal {
  import opened Wrappers

  predicate IsDigit(c: char) {
    '0' <= c <= '9'
  }

  predicate AllDigits(s: string) {
    forall k | 0 <= k < |s| :: IsDigit(s[k])
  }

  function DigitChar(d: nat): (c: char)
    requires d < 10
    ensures IsDigit(c)
  {
    ('0' as int + d) as char
  }

  function DigitValue(c: char): (d: nat)
    requires IsDigit(c)
    ensures d < 10
  {
    c as int - '0' as int
  }

  /** The decimal numeral of `n`, without leading zeros. */
  function NatToString(n: nat): (s: string)
    ensures |s| >= 1 && AllDigits(s)
    ensures s[0] == '0' ==> n == 0
    decreases n
  {
    if n < 10 then [DigitChar(n)] else NatToString(n / 10) + [DigitChar(n % 10)]
  }

  /** The number a string of digits denotes (most significant digit first). */
  function DigitsValue(s: string): nat
    requires AllDigits(s)
    decreases |s|
  {
    if s == [] then 0 else DigitsValue(s[..|s| - 1]) * 10 + DigitValue(s[|s| - 1])
  }

  /** Reading back the numeral of `n` gives `n`. */
  lemma {:induction false} DigitsRoundTrip(n: nat)
    ensures DigitsValue(NatToString(n)) == n
    decreases n
  {
    var s := NatToString(n);
    if n >= 10 {
      DigitsRoundTrip(n / 10);
      assert s[..|s| - 1] == NatToString(n / 10);
      assert DigitValue(DigitChar(n % 10)) == n % 10;
    } else {
      assert s[..|s| - 1] == [];
      assert DigitValue(DigitChar(n)) == n;
    }
  }

  /** Distinct naturals have distinct numerals. */
  lemma NatToStringInjective(m: nat, n: nat)
    ensures NatToString(m) == NatToString(n) ==> m == n
  {
    DigitsRoundTrip(m);
    DigitsRoundTrip(n);
  }

  /** The text Python's `str` writes for an `int`; PyValues.ToStr applies the digit limit. */
  function IntToString(i: int): (s: string)
    ensures |s| >= 1
    ensures s[0] == '-' <==> i < 0
  {
    if i < 0 then "-" + NatToString(-i) else NatToString(i)
  }

  /** The number of digits the numeral of `i` has; a sign is not counted. */
  function IntDigits(i: int): nat {
    |NatToString(if i < 0 then -i else i)|
  }

  /** How many characters of `s` are digits; underscores, signs and spaces are not counted. */
  function DigitsIn(s: string): (n: nat)
    ensures n <= |s|
    decreases |s|
  {
    if s == [] then 0 else (if IsDigit(s[0]) then 1 else 0) + DigitsIn(s[1..])
  }

  /** In a run of digits every character counts. */
  lemma {:induction false} DigitsInAllDigits(s: string)
    requires AllDigits(s)
    ensures DigitsIn(s) == |s|
    decreases |s|
  {
    if s != [] {
      assert AllDigits(s[1..]) by {
        forall k | 0 <= k < |s[1..]| ensures IsDigit(s[1..][k]) {
          assert s[1..][k] == s[k + 1];
        }
      }
      DigitsInAllDigits(s[1..]);
    }
  }

  /** The text `str(i)` writes holds exactly the digits of `i`'s numeral. */
  lemma NumeralDigitCount(i: int)
    ensures DigitsIn(IntToString(i)) == IntDigits(i)
  {
    var d := NatToString(if i < 0 then -i else i);
    DigitsInAllDigits(d);
    if i < 0 {
      assert IntToString(i) == "-" + d;
      assert ("-" + d)[1..] == d;
    }
  }

  /** The characters Python's `int()` strips around a numeral (their ASCII part). */
  predicate IsSpace(c: char) {
    c == ' ' || '\t' <= c <= '\r' || '\U{1C}' <= c <= '\U{1F}'
  }

  function StripLeft(s: string): (t: string)
    ensures |t| <= |s| && t == s[|s| - |t|..]
    ensures t != [] ==> !IsSpace(t[0])
    decreases |s|
  {
    if s != [] && IsSpace(s[0]) then StripLeft(s[1..]) else s
  }

  function StripRight(s: string): (t: string)
    ensures |t| <= |s| && t == s[..|t|]
    ensures t != [] ==> !IsSpace(t[|t| - 1])
    decreases |s|
  {
    if s != [] && IsSpace(s[|s| - 1]) then StripRight(s[..|s| - 1]) else s
  }

  /** Python's `str.strip()` restricted to ASCII whitespace. */
  function Strip(s: string): string {
    StripRight(StripLeft(s))
  }

  /**
   * A run of digits in which single underscores may separate digits:
   * it starts and ends with a digit and never holds two underscores in a row.
   */
  predicate IsDigitGroups(s: string) {
    && s != []
    && IsDigit(s[0]) && IsDigit(s[|s| - 1])
    && (forall k | 0 <= k < |s| :: IsDigit(s[k]) || s[k] == '_')
    && (forall k | 0 <= k < |s| - 1 :: s[k] == '_' ==> s[k + 1] != '_')
  }

  function DropUnderscores(s: string): (t: string)
    requires forall k | 0 <= k < |s| :: IsDigit(s[k]) || s[k] == '_'
    ensures AllDigits(t)
    ensures AllDigits(s) ==> t == s
    decreases |s|
  {
    if s == [] then []
    else if s[0] == '_' then DropUnderscores(s[1..])
    else [s[0]] + DropUnderscores(s[1..])
  }

  /** The unsigned part of an `int()` numeral. */
  function ParseUnsigned(s: string): (r: Option<nat>)
    ensures AllDigits(s) && s != [] ==> r == Some(DigitsValue(s))
  {
    if IsDigitGroups(s) then Some(DigitsValue(DropUnderscores(s))) else None
  }

  /**
   * Python's `int(s)` for a string `s` in base 10: `None` is the ValueError.
   * There is no digit limit here; PyValues.ToInt applies it.
   */
  function ParseInt(s: string): (r: Option<int>)
  {
    var t := Strip(s);
    if t != [] && (t[0] == '-' || t[0] == '+') then
      match ParseUnsigned(t[1..])
      case Some(n) => Some(if t[0] == '-' then 0 - n else n as int)
      case None => None
    else
      ParseUnsigned(t)
  }

  /** A negative result comes only from text whose first non-space character is a minus sign. */
  lemma ParseIntSign(s: string)
    requires ParseInt(s).Some? && ParseInt(s).value < 0
    ensures Strip(s) != [] && Strip(s)[0] == '-'
  {
  }

  /** The stripped text is a slice of the original. */
  lemma StripIsSlice(s: string) returns (a: nat)
    ensures a + |Strip(s)| <= |s| && Strip(s) == s[a..a + |Strip(s)|]
  {
    var l := StripLeft(s);
    a := |s| - |l|;
    assert Strip(s) == l[..|Strip(s)|];
  }

  /** `int()` rejects every string that holds no digit at all. */
  lemma ParseIntNeedsDigit(s: string)
    requires forall k | 0 <= k < |s| :: !IsDigit(s[k])
    ensures ParseInt(s).None?
  {
    var t := Strip(s);
    var a := StripIsSlice(s);
    assert forall j | 0 <= j < |t| :: t[j] == s[a + j];
    if t != [] && (t[0] == '-' || t[0] == '+') {
      assert !IsDigitGroups(t[1..]) by {
        if |t| > 1 { assert t[1..][0] == t[1]; }
      }
    } else {
      assert !IsDigitGroups(t);
    }
  }

  lemma StripNumeral(s: string)
    requires s != [] && !IsSpace(s[0]) && !IsSpace(s[|s| - 1])
    ensures Strip(s) == s
  {
  }

  /** The text `str(i)` writes has nothing for `int()` to strip. */
  lemma IntToStringIsStripped(i: int)
    ensures Strip(IntToString(i)) == IntToString(i)
  {
    var text := IntToString(i);
    var digits := NatToString(if i < 0 then -i else i);
    assert text[|text| - 1] == digits[|digits| - 1];
    assert IsDigit(text[|text| - 1]);
    assert text[0] == '-' || text[0] == digits[0];
    StripNumeral(text);
  }

  /** On text with nothing to strip that starts with a digit, `int()` reads an unsigned numeral. */
  lemma ParseStrippedUnsigned(t: string)
    requires Strip(t) == t && t != [] && IsDigit(t[0])
    ensures ParseInt(t) == ParseUnsigned(t)
  {
  }

  /** On text with nothing to strip that starts with a minus sign, `int()` negates the unsigned part. */
  lemma ParseStrippedNegative(t: string, n: nat)
    requires Strip(t) == t && t != [] && t[0] == '-' && ParseUnsigned(t[1..]) == Some(n)
    ensures ParseInt(t) == Some(0 - n)
  {
  }

  /** The unsigned reader gives back the number a numeral was written from. */
  lemma NumeralParsesBack(n: nat)
    ensures ParseUnsigned(NatToString(n)) == Some(n)
  {
    DigitsRoundTrip(n);
  }

  /** `int(str(n)) == n` for a natural `n`. */
  lemma NatRoundTrip(n: nat)
    ensures ParseInt(IntToString(n)) == Some(n)
  {
    IntToStringIsStripped(n);
    NumeralParsesBack(n);
    ParseStrippedUnsigned(IntToString(n));
  }

  /** Dropping the sign of a signed numeral leaves its digits. */
  lemma DropSign(d: string)
    ensures ("-" + d)[0] == '-' && ("-" + d)[1..] == d
  {
  }

  /** A minus sign before the numeral of `n` makes `int()` read `-n`. */
  lemma SignedNumeral(n: nat)
    ensures ParseInt("-" + NatToString(n)) == Some(0 - n)
  {
    var d := NatToString(n);
    var t := "-" + d;
    NumeralParsesBack(n);
    DropSign(d);
    assert IsDigit(d[|d| - 1]);
    assert t[|t| - 1] == d[|d| - 1];
    StripNumeral(t);
    ParseStrippedNegative(t, n);
  }

  /** `int(str(i)) == i` for a negative `i`. */
  lemma NegativeRoundTrip(i: int)
    requires i < 0
    ensures ParseInt(IntToString(i)) == Some(i)
  {
    var n: nat := -i;
    var d := NatToString(n);
    assert IntToString(i) == "-" + d;
    SignedNumeral(n);
    assert ParseInt("-" + d) == Some(i);
  }

  /** `int(str(i)) == i` for every integer `i`. */
  lemma IntRoundTrip(i: int)
    ensures ParseInt(IntToString(i)) == Some(i)
  {
    if i < 0 {
      NegativeRoundTrip(i);
    } else {
      NatRoundTrip(i);
    }
  }
}
