/**
 Decimal notation of natural numbers.

 `Dec` writes a number as the stream and print formatting of the sources does, `Value`
 reads a string of digits, and `Lead` reads the number at the front of a text, as the
 parsers for addresses and for the headers of patches do.
 */
module Decimal {
  import opened Common

  predicate IsDigit(c: char) {
    '0' <= c <= '9'
  }

  function Digit(d: nat): char
    requires d < 10
  {
    ('0' as int + d) as char
  }

  function Dec(n: nat): (s: string)
    ensures s != []
  {
    if n < 10 then [Digit(n)] else Dec(n / 10) + [Digit(n % 10)]
  }

  function DigitValue(c: char): nat
    requires IsDigit(c)
  {
    c as int - '0' as int
  }

  predicate AllDigits(s: string) {
    forall i :: 0 <= i < |s| ==> IsDigit(s[i])
  }

  /** The number a string of digits denotes. */
  function Value(s: string): nat
    requires AllDigits(s)
  {
    if s == [] then 0 else 10 * Value(s[..|s| - 1]) + DigitValue(s[|s| - 1])
  }

  lemma {:induction false} DecRoundTrip(n: nat)
    ensures AllDigits(Dec(n)) && Value(Dec(n)) == n
    ensures n > 0 ==> Dec(n)[0] != '0'
  {
    if n < 10 {
      assert Dec(n)[..0] == [];
    } else {
      DecRoundTrip(n / 10);
      assert Dec(n)[..|Dec(n)| - 1] == Dec(n / 10);
    }
  }

  lemma DecInjective(m: nat, n: nat)
    requires Dec(m) == Dec(n)
    ensures m == n
  {
    DecRoundTrip(m);
    DecRoundTrip(n);
  }

  /** A numeral has no leading zero. */
  predicate Numeral(d: string) {
    d != [] && AllDigits(d) && (|d| > 1 ==> d[0] != '0')
  }

  lemma DecIsNumeral(n: nat)
    ensures Numeral(Dec(n))
  {
    DecRoundTrip(n);
  }

  lemma {:induction false} NumeralIsDec(d: string)
    requires Numeral(d)
    ensures Dec(Value(d)) == d && (d != "0" ==> Value(d) > 0)
  {
    var e := d[..|d| - 1];
    assert d == e + [d[|d| - 1]];
    if |d| > 1 {
      assert e[0] == d[0];
      NumeralIsDec(e);
      var v, c := Value(e), DigitValue(d[|d| - 1]);
      assert Value(d) == 10 * v + c && v > 0;
      assert (10 * v + c) / 10 == v && (10 * v + c) % 10 == c;
    }
  }

  function DigitRun(s: string): (k: nat)
    ensures k <= |s| && AllDigits(s[..k]) && (k < |s| ==> !IsDigit(s[k]))
  {
    if s == [] || !IsDigit(s[0]) then 0
    else
      var k := 1 + DigitRun(s[1..]);
      assert s[..k] == [s[0]] + s[1..][..k - 1];
      k
  }

  /** The number at the front of a text, and the text behind it. */
  function Lead(s: string): Option<(nat, string)> {
    var k := DigitRun(s);
    if k == 0 then None else Some((Value(s[..k]), s[k..]))
  }

  lemma {:induction false} RunOfDigits(s: string, rest: string)
    requires AllDigits(s) && (rest == "" || !IsDigit(rest[0]))
    ensures DigitRun(s + rest) == |s|
  {
    if s == "" {
      assert s + rest == rest;
    } else {
      assert (s + rest)[1..] == s[1..] + rest;
      RunOfDigits(s[1..], rest);
    }
  }

  lemma LeadOf(t: string, rest: string)
    requires t != "" && AllDigits(t) && (rest == "" || !IsDigit(rest[0]))
    ensures Lead(t + rest) == Some((Value(t), rest))
  {
    RunOfDigits(t, rest);
    assert (t + rest)[..|t|] == t && (t + rest)[|t|..] == rest;
  }
}
