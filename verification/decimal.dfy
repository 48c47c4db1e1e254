/** Plain decimal rendering of integer ids, and the parser that reads one
    back. For safe integers (magnitude at most 2^53) this is how a template
    literal prints a JavaScript number (`${id}`). */
module Decimal {
  import opened Wrappers

  predicate IsDigit(c: char) {
    '0' <= c <= '9'
  }

  function DigitChar(d: nat): (c: char)
    requires d < 10
    ensures IsDigit(c)
  {
    "0123456789"[d]
  }

  function DigitValue(c: char): (d: nat)
    requires IsDigit(c)
    ensures d < 10
  {
    (c as int) - ('0' as int)
  }

  lemma DigitRoundTrip(d: nat)
    requires d < 10
    ensures DigitValue(DigitChar(d)) == d
  {
  }

  /** A shortest numeral: digits only, with no leading zero unless it is
      the single digit `0`. */
  predicate CanonicalNat(d: string) {
    && |d| >= 1
    && (forall k :: 0 <= k < |d| ==> IsDigit(d[k]))
    && (d[0] == '0' ==> |d| == 1)
  }

  /** A shortest signed numeral: a canonical magnitude, preceded by `-` only
      when the magnitude is not zero. */
  predicate Canonical(s: string) {
    if |s| > 0 && s[0] == '-' then CanonicalNat(s[1..]) && s[1..] != "0"
    else CanonicalNat(s)
  }

  /** Shortest decimal numeral of `n`. */
  function NatToString(n: nat): (s: string)
    ensures CanonicalNat(s)
    ensures s[0] == '0' ==> n == 0
    decreases n
  {
    if n < 10 then [DigitChar(n)] else NatToString(n / 10) + [DigitChar(n % 10)]
  }

  /** A negative number is printed as `-` followed by its magnitude. The
      text reads back as the same integer, so distinct ids print differently. */
  function IntToString(i: int): (s: string)
    ensures |s| >= 1
    ensures s[0] == '-' <==> i < 0
    ensures Canonical(s)
    ensures ParseInt(s) == Some(i)
  {
    if i < 0 then
      var digits := NatToString(-i);
      ParseNatToString(-i);
      assert ("-" + digits)[1..] == digits;
      "-" + digits
    else
      ParseNatToString(i);
      NatToString(i)
  }

  /** Reads a non-empty string of decimal digits. */
  function ParseNat(s: string): (r: Option<nat>)
    decreases |s|
  {
    if |s| == 0 || !IsDigit(s[|s| - 1]) then None
    else if |s| == 1 then Some(DigitValue(s[0]))
    else
      match ParseNat(s[..|s| - 1])
      case None => None
      case Some(m) => Some(m * 10 + DigitValue(s[|s| - 1]))
  }

  /** Reads an optional `-` followed by decimal digits. */
  function ParseInt(s: string): (r: Option<int>) {
    if |s| > 0 && s[0] == '-' then
      match ParseNat(s[1..])
      case None => None
      case Some(m) => Some(-(m as int))
    else
      match ParseNat(s)
      case None => None
      case Some(m) => Some(m as int)
  }

  lemma {:induction false} ParseNatToString(n: nat)
    ensures ParseNat(NatToString(n)) == Some(n)
    decreases n
  {
    if n < 10 {
      DigitRoundTrip(n);
    } else {
      var s := NatToString(n);
      assert s[..|s| - 1] == NatToString(n / 10);
      assert s[|s| - 1] == DigitChar(n % 10);
      ParseNatToString(n / 10);
      DigitRoundTrip(n % 10);
    }
  }

  lemma DigitCharOfValue(c: char)
    requires IsDigit(c)
    ensures DigitChar(DigitValue(c)) == c
  {
  }

  /** A canonical digit string is the rendering of the number it reads as. */
  lemma {:induction false} CanonicalNatIsRendering(d: string, n: nat)
    requires CanonicalNat(d)
    requires ParseNat(d) == Some(n)
    ensures d == NatToString(n)
    decreases |d|
  {
    var last := d[|d| - 1];
    if |d| == 1 {
      DigitCharOfValue(last);
    } else {
      var front := d[..|d| - 1];
      var m := ParseNat(front).value;
      var k := DigitValue(last);
      CanonicalNatIsRendering(front, m);
      assert n / 10 == m && n % 10 == k;
      DigitCharOfValue(last);
    }
  }

  /** Rendering is the only canonical numeral of an integer: any canonical
      text that reads as `i` is exactly `IntToString(i)`. */
  lemma CanonicalIsRendering(s: string, i: int)
    requires Canonical(s)
    requires ParseInt(s) == Some(i)
    ensures s == IntToString(i)
  {
    if |s| > 0 && s[0] == '-' {
      var m := ParseNat(s[1..]).value;
      CanonicalNatIsRendering(s[1..], m);
    } else {
      CanonicalNatIsRendering(s, ParseNat(s).value);
    }
  }
}
