/** Decimal text for naturals and integers: the `str(n)` that the page-number
    labels use and the `int(piece)` that the page-list parser applies, with the
    round trip between them. */
module Decimal {

  import opened Wrappers

  predicate IsDigit(c: char) {
    '0' <= c <= '9'
  }

  predicate AllDigits(s: string) {
    forall k :: 0 <= k < |s| ==> IsDigit(s[k])
  }

  function DigitChar(d: nat): (c: char)
    requires d < 10
    ensures IsDigit(c)
  {
    "0123456789"[d]
  }

  function DigitValue(c: char): (d: nat)
    requires IsDigit(c)
    ensures d < 10
  {
    (c as int - '0' as int) as nat
  }

  lemma DigitRoundTrip(d: nat)
    requires d < 10
    ensures DigitValue(DigitChar(d)) == d
  {
  }

  /** The value of a string of decimal digits, most significant first. */
  function DigitsValue(s: string): nat
    requires AllDigits(s)
  {
    if |s| == 0 then 0
    else DigitsValue(s[..|s| - 1]) * 10 + DigitValue(s[|s| - 1])
  }

  /** Python's `str(n)` for a non-negative integer: no leading zeros, no sign. */
  function NatToString(n: nat): (s: string)
    ensures |s| > 0 && AllDigits(s)
    ensures |s| > 1 ==> s[0] != '0'
  {
    if n < 10 then [DigitChar(n)]
    else NatToString(n / 10) + [DigitChar(n % 10)]
  }

  /** A non-empty run of ASCII decimal digits, read as a natural. */
  function ParseNat(s: string): (r: Option<nat>)
    ensures r.Some? <==> |s| > 0 && AllDigits(s)
  {
    if |s| > 0 && AllDigits(s) then Some(DigitsValue(s)) else None
  }

  lemma {:induction false} DigitsValueOfNatToString(n: nat)
    ensures DigitsValue(NatToString(n)) == n
  {
    if n >= 10 {
      var s := NatToString(n / 10);
      var t := s + [DigitChar(n % 10)];
      assert t[..|t| - 1] == s;
      DigitsValueOfNatToString(n / 10);
      DigitRoundTrip(n % 10);
    } else {
      DigitRoundTrip(n);
    }
  }

  /** Reading back what `str(n)` wrote gives n. */
  lemma NatRoundTrip(n: nat)
    ensures ParseNat(NatToString(n)) == Some(n)
  {
    DigitsValueOfNatToString(n);
  }

  lemma NatToStringInjective(a: nat, b: nat)
    requires NatToString(a) == NatToString(b)
    ensures a == b
  {
    NatRoundTrip(a);
    NatRoundTrip(b);
  }

  /** Length of the run of digits that starts a string. */
  function LeadingDigits(t: string): (n: nat)
    ensures n <= |t|
  {
    if |t| > 0 && IsDigit(t[0]) then 1 + LeadingDigits(t[1..]) else 0
  }

  lemma {:induction false} LeadingDigitsOfConcat(s: string, r: string)
    requires AllDigits(s)
    requires r == [] || !IsDigit(r[0])
    ensures LeadingDigits(s + r) == |s|
  {
    if |s| > 0 {
      assert (s + r)[1..] == s[1..] + r;
      LeadingDigitsOfConcat(s[1..], r);
    } else {
      assert s + r == r;
    }
  }

  /** A number written in front of text that does not start with a digit can be
      told apart from any other number written in the same way: the digits end
      where the text begins. */
  lemma NatToStringPrefixFree(a: nat, r1: string, b: nat, r2: string)
    requires NatToString(a) + r1 == NatToString(b) + r2
    requires r1 == [] || !IsDigit(r1[0])
    requires r2 == [] || !IsDigit(r2[0])
    ensures a == b && r1 == r2
  {
    var s1, s2 := NatToString(a), NatToString(b);
    var t := s1 + r1;
    LeadingDigitsOfConcat(s1, r1);
    LeadingDigitsOfConcat(s2, r2);
    assert s1 == t[..|s1|] == s2;
    NatToStringInjective(a, b);
    assert r1 == t[|s1|..] == r2;
  }

  /** Python's `str(x)` for any integer. */
  function IntToString(x: int): (s: string)
    ensures |s| > 0
    ensures x < 0 <==> s[0] == '-'
  {
    if x < 0 then "-" + NatToString(-x) else NatToString(x)
  }

  /** Python's `int(s)` restricted to an optional '+' or '-' sign followed by at
      least one ASCII digit; everything else is a ValueError, here None. */
  function ParseInt(s: string): (r: Option<int>)
    ensures r.Some? <==> (|s| > 0 && AllDigits(s)) ||
                         (|s| > 1 && (s[0] == '+' || s[0] == '-') && AllDigits(s[1..]))
    ensures |s| > 0 && AllDigits(s) ==> r.Some? && ParseNat(s) == Some(r.value)
    ensures r.Some? && |s| > 0 && s[0] == '-' ==> r.value <= 0 && ParseNat(s[1..]) == Some(-r.value)
    ensures r.Some? && |s| > 0 && s[0] == '+' ==> r.value >= 0 && ParseNat(s[1..]) == Some(r.value)
  {
    var signed := |s| > 0 && (s[0] == '-' || s[0] == '+');
    var digits := if signed then s[1..] else s;
    match ParseNat(digits)
    case None => None
    case Some(n) => Some(if signed && s[0] == '-' then -(n as int) else n)
  }

  lemma IntRoundTrip(x: int)
    ensures ParseInt(IntToString(x)) == Some(x)
  {
    var s := IntToString(x);
    if x < 0 {
      var t := NatToString(-x);
      assert s == "-" + t;
      assert s[1..] == t;
      NatRoundTrip(-x);
      assert ParseNat(s[1..]) == Some(-x);
    } else {
      assert IsDigit(s[0]);
      NatRoundTrip(x);
    }
  }
}
