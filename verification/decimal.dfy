/** Decimal text of integers, as Rust's `Display` and `Debug` write an integer,
    together with the reading-back direction used to state that nothing is lost. */
module Decimal {
  import opened Wrappers

  const Digits: string := "0123456789"

  predicate IsDigit(c: char) {
    '0' <= c <= '9'
  }

  function DigitChar(d: nat): (c: char)
    requires d < 10
    ensures IsDigit(c) && DigitValue(c) == d
  {
    Digits[d]
  }

  function DigitValue(c: char): nat
    requires IsDigit(c)
  {
    c as int - '0' as int
  }

  /** The shortest digit string of `n`: no sign and no leading zero. */
  function NatToString(n: nat): (s: string)
    ensures |s| > 0
    ensures forall i :: 0 <= i < |s| ==> IsDigit(s[i])
    ensures n > 0 ==> s[0] != '0'
    ensures s[0] == '0' ==> s == "0"
  {
    if n < 10 then [DigitChar(n)] else NatToString(n / 10) + [DigitChar(n % 10)]
  }

  /** The value of a non-empty string of decimal digits; `None` for anything else. */
  function ParseNat(s: string): (r: Option<nat>)
    ensures r.Some? <==> |s| > 0 && forall i :: 0 <= i < |s| ==> IsDigit(s[i])
  {
    if |s| == 0 || !IsDigit(s[|s| - 1]) then None
    else if |s| == 1 then Some(DigitValue(s[0]))
    else
      match ParseNat(s[..|s| - 1])
      case None => None
      case Some(m) => Some(m * 10 + DigitValue(s[|s| - 1]))
  }

  lemma {:induction false} NatRoundTrip(n: nat)
    ensures ParseNat(NatToString(n)) == Some(n)
  {
    if n >= 10 {
      var s := NatToString(n);
      assert s[..|s| - 1] == NatToString(n / 10);
      NatRoundTrip(n / 10);
    }
  }

  /** Decimal text of an integer: a leading '-' for a negative value, then its digits. */
  function IntToString(x: int): (s: string)
    ensures |s| > 0
    ensures forall i :: 0 <= i < |s| ==> s[i] == '-' || IsDigit(s[i])
    ensures x < 0 <==> s[0] == '-'
    ensures s[0] == '0' ==> s == "0"
    ensures s[0] == '-' ==> |s| > 1 && s[1] != '0'
    ensures Canonical(s)
  {
    if x < 0 then "-" + NatToString(-x) else NatToString(x)
  }

  /** Reads an optional '-' followed by decimal digits. */
  function ParseInt(s: string): Option<int>
  {
    if |s| > 0 && s[0] == '-' then
      match ParseNat(s[1..])
      case None => None
      case Some(n) => Some(-(n as int))
    else
      match ParseNat(s)
      case None => None
      case Some(n) => Some(n as int)
  }

  /** Decimal text loses nothing: it reads back as the integer it was made from. */
  lemma IntRoundTrip(x: int)
    ensures ParseInt(IntToString(x)) == Some(x)
  {
    if x < 0 {
      var s := IntToString(x);
      assert s[1..] == NatToString(-x);
      NatRoundTrip(-x);
    } else {
      NatRoundTrip(x);
    }
  }

  /** Canonical decimal text: an optional '-', then digits with no leading
      zero, except the single "0"; "-0" is not canonical. */
  predicate Canonical(s: string) {
    |s| > 0
    && (s[0] == '-' ==> |s| > 1 && s[1] != '0')
    && (s[0] == '0' ==> s == "0")
  }

  lemma DigitCharValue(c: char)
    requires IsDigit(c)
    ensures DigitChar(DigitValue(c)) == c
  {
    var d := DigitValue(c);
    assert Digits[d] == ('0' as int + d) as char by {
      assert Digits == ['0', '1', '2', '3', '4', '5', '6', '7', '8', '9'];
    }
  }

  /** A digit string without a leading zero is the text of the number it reads as. */
  lemma {:induction false} NatCanonicalUnique(s: string, n: nat)
    requires |s| > 0 && (s[0] == '0' ==> s == "0")
    requires ParseNat(s) == Some(n)
    ensures s == NatToString(n)
  {
    var c := s[|s| - 1];
    var d := DigitValue(c);
    DigitCharValue(c);
    if |s| == 1 {
      assert n == d && s == [c];
    } else {
      var t := s[..|s| - 1];
      var m :| ParseNat(t) == Some(m);
      assert n == m * 10 + d;
      assert t[0] == s[0];
      NatCanonicalUnique(t, m);
      assert m != 0;
      assert n / 10 == m && n % 10 == d;
      assert NatToString(n) == NatToString(m) + [DigitChar(d)];
      assert s == t + [c];
    }
  }

  /** The decimal text of an integer is the only canonical text that reads as it. */
  lemma CanonicalUnique(s: string, x: int)
    requires Canonical(s) && ParseInt(s) == Some(x)
    ensures s == IntToString(x)
  {
    if s[0] == '-' {
      var n :| ParseNat(s[1..]) == Some(n);
      NatCanonicalUnique(s[1..], n);
      assert n != 0;
    } else {
      var n :| ParseNat(s) == Some(n);
      NatCanonicalUnique(s, n);
    }
  }

  /** Two integers with the same decimal text are equal. */
  lemma IntToStringInjective(x: int, y: int)
    requires IntToString(x) == IntToString(y)
    ensures x == y
  {
    IntRoundTrip(x);
    IntRoundTrip(y);
  }
}
