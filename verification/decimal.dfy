/** Decimal integers as text: JavaScript's `parseInt` (base 10) as the rating form uses
    it, and the decimal rendering of a number that React puts on screen. */
module Decimal {
  import opened Wrappers

  predicate IsDigit(c: char) { '0' <= c <= '9' }

  predicate AllDigits(s: string)
  {
    forall k :: 0 <= k < |s| ==> IsDigit(s[k])
  }

  function DigitValue(c: char): (d: nat)
    requires IsDigit(c)
    ensures d < 10
  {
    c as int - '0' as int
  }

  function DigitChar(d: nat): (c: char)
    requires d < 10
    ensures IsDigit(c) && DigitValue(c) == d
  {
    ('0' as int + d) as char
  }

  /** The longest prefix of `s` made of digits. */
  function DigitPrefix(s: string): (r: string)
    ensures r <= s && AllDigits(r)
    ensures |r| == |s| || !IsDigit(s[|r|])
  {
    if |s| > 0 && IsDigit(s[0]) then [s[0]] + DigitPrefix(s[1..]) else []
  }

  /** The value of a string of decimal digits, most significant first. */
  function DigitsValue(ds: string): nat
    requires AllDigits(ds)
  {
    if |ds| == 0 then 0 else DigitsValue(ds[..|ds| - 1]) * 10 + DigitValue(ds[|ds| - 1])
  }

  /** The value of the leading run of digits of `s`, if there is one. */
  function ParseDigits(s: string): (r: Option<nat>)
    ensures r.None? <==> DigitPrefix(s) == []
  {
    var ds := DigitPrefix(s);
    if ds == [] then None else Some(DigitsValue(ds))
  }

  /** `parseInt(s)` in base 10: an optional sign, then the longest run of digits; the
      rest of the string is ignored, and no digit at all gives NaN (here `None`). */
  function ParseInt(s: string): (r: Option<int>)
    ensures r.None? <==> DigitPrefix(SignlessPart(s)) == []
  {
    var magnitude := ParseDigits(SignlessPart(s));
    if magnitude.None? then None
    else if |s| > 0 && s[0] == '-' then Some(-(magnitude.value as int))
    else Some(magnitude.value)
  }

  /** What follows a leading `+` or `-`. */
  function SignlessPart(s: string): (r: string)
    ensures r == s || (|s| > 0 && (s[0] == '+' || s[0] == '-') && r == s[1..])
  {
    if |s| > 0 && (s[0] == '+' || s[0] == '-') then s[1..] else s
  }

  /** The decimal text of a natural number, without leading zeros. */
  function NatToString(n: nat): (r: string)
    ensures |r| > 0 && AllDigits(r)
    ensures |r| > 1 ==> r[0] != '0'
    decreases n
  {
    if n < 10 then [DigitChar(n)] else NatToString(n / 10) + [DigitChar(n % 10)]
  }

  /** The text a number renders as: a minus sign for negatives, then its digits. */
  function IntToString(n: int): (r: string)
    ensures |r| > 0
    ensures n < 0 <==> r[0] == '-'
  {
    if n < 0 then "-" + NatToString(-n) else NatToString(n)
  }

  /** Reading back the digits of a number gives the number. */
  lemma {:induction false} NatToStringValue(n: nat)
    ensures DigitsValue(NatToString(n)) == n
    decreases n
  {
    var r := NatToString(n);
    if n >= 10 {
      NatToStringValue(n / 10);
      assert r[..|r| - 1] == NatToString(n / 10);
    }
  }

  /** The digit prefix stops at the first non-digit. */
  lemma {:induction false} DigitPrefixOfDigitsThen(a: string, t: string)
    requires AllDigits(a)
    requires t == [] || !IsDigit(t[0])
    ensures DigitPrefix(a + t) == a
    decreases |a|
  {
    if |a| == 0 {
      assert a + t == t;
    } else {
      assert (a + t)[1..] == a[1..] + t;
      DigitPrefixOfDigitsThen(a[1..], t);
      assert a == [a[0]] + a[1..];
    }
  }

  /** The leading digits are read up to the first non-digit. */
  lemma ParseDigitsOfDigitsThen(digits: string, t: string, v: nat)
    requires |digits| > 0 && AllDigits(digits) && DigitsValue(digits) == v
    requires t == [] || !IsDigit(t[0])
    ensures ParseDigits(digits + t) == Some(v)
  {
    DigitPrefixOfDigitsThen(digits, t);
  }

  /** Unsigned text is read as it stands. */
  lemma ParseIntUnsigned(s: string, v: nat)
    requires |s| > 0 && IsDigit(s[0]) && ParseDigits(s) == Some(v)
    ensures ParseInt(s) == Some(v)
  {
  }

  /** Text behind a minus sign is read and negated. */
  lemma ParseIntNegative(s: string, v: nat)
    requires |s| > 0 && s[0] == '-' && ParseDigits(s[1..]) == Some(v)
    ensures ParseInt(s) == Some(-(v as int))
  {
  }

  /** Text behind a plus sign is read as it stands. */
  lemma ParseIntPlus(s: string, v: nat)
    requires |s| > 0 && s[0] == '+' && ParseDigits(s[1..]) == Some(v)
    ensures ParseInt(s) == Some(v)
  {
  }

  /** Dropping the sign of a signed text leaves the text. */
  lemma MinusTail(body: string)
    ensures ("-" + body)[0] == '-' && ("-" + body)[1..] == body
  {
  }

  /** A rendered negative number is a minus sign before the digits of its magnitude. */
  lemma RenderedNegative(n: int, t: string)
    requires n < 0
    ensures IntToString(n) + t == "-" + (NatToString(-n) + t)
  {
  }

  /** `parseInt` reads back a rendered number, whatever non-digit text follows it. */
  lemma ParseIntOfRendered(n: int, t: string)
    requires t == [] || !IsDigit(t[0])
    ensures ParseInt(IntToString(n) + t) == Some(n)
  {
    var m: nat := if n < 0 then -n else n;
    var digits := NatToString(m);
    NatToStringValue(m);
    ParseDigitsOfDigitsThen(digits, t, m);
    if n < 0 {
      RenderedNegative(n, t);
      MinusTail(digits + t);
      ParseIntNegative("-" + (digits + t), m);
    } else {
      ParseIntUnsigned(digits + t, m);
    }
  }

  /** The plain round trip. */
  lemma ParseIntRoundTrip(n: int)
    ensures ParseInt(IntToString(n)) == Some(n)
  {
    ParseIntOfRendered(n, []);
    assert IntToString(n) + [] == IntToString(n);
  }
}
