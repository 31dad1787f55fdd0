/**
 * The text forms of integers the photo script produces: Python's `str(n)`
 * (decimal digits with a leading `-` for negatives, no leading zeros) and
 * the `"{:4d}"` field (right-justified in a field of width at least 4).
 */
module Decimal {
  import opened Wrappers

  predicate IsDigit(c: char) {
    '0' <= c <= '9'
  }

  predicate AllDigits(s: string) {
    forall i :: 0 <= i < |s| ==> IsDigit(s[i])
  }

  function DigitChar(d: nat): (c: char)
    requires d < 10
    ensures IsDigit(c) && c as int - '0' as int == d
  {
    ('0' as int + d) as char
  }

  function DigitValue(c: char): nat
    requires IsDigit(c)
  {
    c as int - '0' as int
  }

  /** `str(n)` for a non-negative `n`: at least one digit and no leading zero. */
  function NatToString(n: nat): (s: string)
    ensures |s| >= 1 && AllDigits(s)
    ensures |s| > 1 ==> s[0] != '0'
  {
    if n < 10 then [DigitChar(n)] else NatToString(n / 10) + [DigitChar(n % 10)]
  }

  /** `str(v)` for any integer. */
  function IntToString(v: int): (s: string)
    ensures |s| >= 1
    ensures v >= 0 ==> s == NatToString(v)
    ensures v < 0 ==> s[0] == '-' && AllDigits(s[1..])
    ensures v < 0 ==> s == "-" + NatToString(-v)
  {
    if v < 0 then "-" + NatToString(-v) else NatToString(v)
  }

  /** The number a string of digits spells. */
  function DigitsValue(s: string): nat
    requires AllDigits(s)
  {
    if s == [] then 0 else DigitsValue(s[..|s| - 1]) * 10 + DigitValue(s[|s| - 1])
  }

  /** Reads a non-empty string of digits; anything else is rejected. */
  function ParseNat(s: string): Option<nat> {
    if s != [] && AllDigits(s) then Some(DigitsValue(s)) else None
  }

  /** Reads an optional `-` followed by digits. */
  function ParseInt(s: string): Option<int> {
    if s != [] && s[0] == '-' then
      match ParseNat(s[1..])
      case Some(n) => Some(-(n as int))
      case None => None
    else
      match ParseNat(s)
      case Some(n) => Some(n)
      case None => None
  }

  /** Reading back `str(n)` gives `n`. */
  lemma {:induction false} NatRoundTrip(n: nat)
    ensures ParseNat(NatToString(n)) == Some(n)
  {
    var s := NatToString(n);
    if n >= 10 {
      NatRoundTrip(n / 10);
      assert s[..|s| - 1] == NatToString(n / 10);
      assert DigitValue(s[|s| - 1]) == n % 10;
      assert DigitsValue(s) == DigitsValue(NatToString(n / 10)) * 10 + n % 10;
    }
  }

  /** Reading back `str(v)` gives `v`. */
  lemma IntRoundTrip(v: int)
    ensures ParseInt(IntToString(v)) == Some(v)
  {
    if v < 0 {
      NatRoundTrip(-v);
      assert IntToString(v)[1..] == NatToString(-v);
    } else {
      NatRoundTrip(v);
    }
  }

  /** Distinct integers have distinct decimal forms. */
  lemma IntToStringInjective(a: int, b: int)
    requires IntToString(a) == IntToString(b)
    ensures a == b
  {
    IntRoundTrip(a);
    IntRoundTrip(b);
  }

  function Spaces(k: int): (s: string)
    ensures |s| == if k > 0 then k else 0
    ensures forall i :: 0 <= i < |s| ==> s[i] == ' '
  {
    if k <= 0 then "" else " " + Spaces(k - 1)
  }

  /** `"{:4d}".format(v)`: `str(v)` padded on the left with spaces to width 4. */
  function Field4(v: int): string {
    Spaces(4 - |IntToString(v)|) + IntToString(v)
  }

  /** `s` without its leading spaces. */
  function StripSpaces(s: string): (r: string)
    ensures |r| <= |s| && r == s[|s| - |r|..]
    ensures r != [] ==> r[0] != ' '
  {
    if s != [] && s[0] == ' ' then StripSpaces(s[1..]) else s
  }

  /** Reads one right-justified field. */
  function ParseField(f: string): Option<int> {
    ParseInt(StripSpaces(f))
  }

  lemma {:induction false} StripPadding(k: int, s: string)
    requires s != [] && s[0] != ' '
    ensures StripSpaces(Spaces(k) + s) == s
    decreases k
  {
    if k > 0 {
      assert (Spaces(k) + s)[1..] == Spaces(k - 1) + s;
      StripPadding(k - 1, s);
    }
  }

  /** Every field written by `"{:4d}"` reads back as the integer written. */
  lemma FieldRoundTrip(v: int)
    ensures ParseField(Field4(v)) == Some(v)
  {
    StripPadding(4 - |IntToString(v)|, IntToString(v));
    IntRoundTrip(v);
  }

  /** A number below `10^k` has at most `k` digits. */
  lemma {:induction false} NatToStringLength(n: nat, k: nat)
    requires k >= 1 && n < Pow10(k)
    ensures |NatToString(n)| <= k
    decreases k
  {
    if n >= 10 {
      assert k >= 2;
      assert n / 10 < Pow10(k - 1);
      NatToStringLength(n / 10, k - 1);
    }
  }

  function Pow10(k: nat): (p: nat)
    ensures p >= 1
  {
    if k == 0 then 1 else 10 * Pow10(k - 1)
  }

  /**
   * Every field is at least 4 characters wide, and exactly 4 for the
   * integers -999..9999; wider integers are written in full.
   */
  lemma FieldWidth(v: int)
    ensures |Field4(v)| >= 4
    ensures -999 <= v <= 9999 ==> |Field4(v)| == 4
  {
    if 0 <= v <= 9999 {
      assert Pow10(4) == 10000;
      NatToStringLength(v, 4);
    } else if -999 <= v < 0 {
      assert Pow10(3) == 1000;
      NatToStringLength(-v, 3);
    }
  }

  /** The longest prefix of `s` made of digits. */
  function DigitPrefix(s: string): (p: string)
    ensures AllDigits(p) && |p| <= |s| && p == s[..|p|]
  {
    if s != [] && IsDigit(s[0]) then [s[0]] + DigitPrefix(s[1..]) else ""
  }

  /** A run of digits followed by a non-digit is read off exactly. */
  lemma {:induction false} DigitPrefixOf(d: string, rest: string)
    requires AllDigits(d)
    requires rest == [] || !IsDigit(rest[0])
    ensures DigitPrefix(d + rest) == d
  {
    if d != [] {
      assert (d + rest)[1..] == d[1..] + rest;
      DigitPrefixOf(d[1..], rest);
    } else {
      assert d + rest == rest;
    }
  }
}
