module IPv6Numbers {
  // Which texts are groups: the form of a number as strtoul reads it, and its value.

  import opened Common
  import opened WordHalves
  import opened IPv6Text
  import IPv6Address

  /** Blanks, a sign, a prefix and hexadecimal digits. */
  predicate Spelled(t: string, b: string, s: string, p: string, d: string) {
    && t == b + s + p + d && (forall i :: 0 <= i < |b| ==> IsBlank(b[i]))
    && (s == "" || s == "+" || s == "-") && (p == "" || p == "0x" || p == "0X")
    && d != "" && (forall i :: 0 <= i < |d| ==> IsHex(d[i]))
  }

  /** The digits mean what they are in lower case. */
  lemma DigitLaw(c: char)
    requires IsHex(c)
    ensures HexDigit(c) < 16 && "0123456789abcdef"[HexDigit(c)] == (if 'A' <= c <= 'F' then (c as int + 32) as char else c)
  {
  }

  /** Digits and white space, by their codes. */
  lemma CharacterLaw(c: char)
    ensures IsHex(c) <==> 48 <= c as int <= 57 || 65 <= c as int <= 70 || 97 <= c as int <= 102
    ensures IsBlank(c) <==> 9 <= c as int <= 13 || c as int == 32
  {
  }

  /** A number that fits an unsigned long and is `v`, or `-v` behind a minus sign, modulo 32 bits. */
  predicate Means(negative: bool, n: nat, v: Group) {
    n <= ULONG_MAX && (if negative then (n + v) % 0x1_0000_0000 == 0 else n % 0x1_0000_0000 == v)
  }

  lemma ValueMeans(negative: bool, n: nat, v: Group)
    ensures ToInt32(Unsigned(negative, n)) == v <==> Means(negative, n, v)
  {
    if n <= ULONG_MAX && negative && n > 0 {
      Negated(n, v);
    }
  }

  lemma Negated(n: nat, v: Group)
    requires 0 < n <= ULONG_MAX
    ensures (ULONG_MAX + 1 - n) % 0x1_0000_0000 == v <==> (n + v) % 0x1_0000_0000 == 0
  {
    var m := 0x1_0000_0000;
    assert ULONG_MAX + 1 == m * m;
    if (ULONG_MAX + 1 - n) % m == v {
      var q := (ULONG_MAX + 1 - n) / m;
      assert n + v == m * (m - q);
      Multiple(n + v, m, m - q);
    }
    if (n + v) % m == 0 {
      var q := (n + v) / m;
      assert ULONG_MAX + 1 - n == m * (m - q) + v;
      Remainder(ULONG_MAX + 1 - n, m, m - q, v);
    }
  }

  lemma Multiple(a: int, m: int, q: int)
    requires m > 0 && a == m * q
    ensures a % m == 0
  {
    Remainder(a, m, q, 0);
  }

  lemma Remainder(a: int, m: int, q: int, r: int)
    requires m > 0 && a == m * q + r && 0 <= r < m
    ensures a % m == r
  {
    var q', r' := a / m, a % m;
    assert a == m * q' + r';
    assert m * (q - q') == r' - r;
    AtLeastOnce(m, q - q');
  }

  lemma AtLeastOnce(m: int, k: int)
    requires m > 0
    ensures k >= 1 ==> m * k >= m
    ensures k <= -1 ==> m * k <= -m
  {
    if k >= 1 {
      assert m * k == m + m * (k - 1);
    } else if k <= -1 {
      assert m * k == -m + m * (k + 1);
    }
  }

  lemma {:induction false} AllHexRun(d: string)
    requires forall i :: 0 <= i < |d| ==> IsHex(d[i])
    ensures HexRun(d) == |d|
  {
    if d != "" {
      AllHexRun(d[1..]);
    }
  }

  lemma DigitsRead(d: string, negative: bool)
    requires d != "" && forall i :: 0 <= i < |d| ==> IsHex(d[i])
    ensures ScanDigits(d, negative) == Number(ToInt32(Unsigned(negative, HexValue(d))), |d|)
  {
    AllHexRun(d);
    assert d[..|d|] == d;
  }

  lemma PrefixRead(p: string, d: string, negative: bool)
    requires (p == "" || p == "0x" || p == "0X") && d != "" && forall i :: 0 <= i < |d| ==> IsHex(d[i])
    ensures ScanPrefix(p + d, negative) == Number(ToInt32(Unsigned(negative, HexValue(d))), |p + d|)
  {
    DigitsRead(d, negative);
    hide ScanDigits;
    if p == "" {
      assert p + d == d;
    } else {
      assert (p + d)[2..] == d && (p + d)[2] == d[0];
    }
  }

  lemma SignRead(s: string, u: string, v: int)
    requires (s == "" || s == "+" || s == "-") && u != "" && IsHex(u[0]) && ScanPrefix(u, s == "-") == Number(v, |u|)
    ensures ScanSign(s + u) == Number(v, |s + u|)
  {
    hide ScanPrefix, ScanSign, IsHex;
    if s == "" {
      assert s + u == u;
      NoSign(u);
    } else {
      assert s == [s[0]];
      WithSign(s[0], u);
    }
  }

  lemma WithSign(c: char, u: string)
    requires c == '+' || c == '-'
    ensures ScanSign([c] + u) == Shift(1, ScanPrefix(u, c == '-'))
  {
    hide ScanPrefix;
    assert ([c] + u)[1..] == u;
  }

  lemma NoSign(u: string)
    requires u != "" && IsHex(u[0])
    ensures ScanSign(u) == ScanPrefix(u, false)
  {
    hide ScanPrefix;
  }

  lemma {:induction false} SpelledRead(t: string, b: string, s: string, p: string, d: string)
    requires Spelled(t, b, s, p, d)
    ensures Strtoul(t) == Number(ToInt32(Unsigned(s == "-", HexValue(d))), |t|)
    decreases |b|
  {
    hide Strtoul, HexValue, ToInt32, Unsigned;
    if b == "" {
      assert t == s + (p + d);
      NoBlanksRead(s, p, d);
    } else {
      var t' := b[1..] + s + p + d;
      SpelledRead(t', b[1..], s, p, d);
      assert t == [b[0]] + t';
      BlankRead(b[0], t');
    }
  }

  lemma BlankRead(c: char, t: string)
    requires IsBlank(c)
    ensures Strtoul([c] + t) == Shift(1, Strtoul(t))
  {
    hide ScanSign;
    assert ([c] + t)[1..] == t;
  }

  lemma NoBlanksRead(s: string, p: string, d: string)
    requires Spelled(s + p + d, "", s, p, d)
    ensures Strtoul(s + (p + d)) == Number(ToInt32(Unsigned(s == "-", HexValue(d))), |s + (p + d)|)
  {
    var u := p + d;
    PrefixRead(p, d, s == "-");
    assert u[0] == if p == "" then d[0] else '0';
    hide ScanSign, ScanPrefix, HexValue, ToInt32, Unsigned;
    SignRead(s, u, ToInt32(Unsigned(s == "-", HexValue(d))));
    var t := s + u;
    assert t[0] == if s == "" then u[0] else s[0];
    assert Strtoul(t) == ScanSign(t);
  }

  lemma DigitsSpelled(t: string, negative: bool)
    requires ScanDigits(t, negative).Number? && ScanDigits(t, negative).end == |t|
    ensures t != "" && (forall i :: 0 <= i < |t| ==> IsHex(t[i]))
    ensures ScanDigits(t, negative).value == ToInt32(Unsigned(negative, HexValue(t)))
  {
    assert t[..|t|] == t;
  }

  lemma PrefixSpelled(t: string, negative: bool) returns (p: string, d: string)
    requires ScanPrefix(t, negative).Number? && ScanPrefix(t, negative).end == |t|
    ensures t == p + d && (p == "" || p == "0x" || p == "0X") && d != "" && (forall i :: 0 <= i < |d| ==> IsHex(d[i]))
    ensures ScanPrefix(t, negative).value == ToInt32(Unsigned(negative, HexValue(d)))
  {
    hide ScanDigits;
    if HexPrefix(t) {
      p, d := t[..2], t[2..];
      assert p == [t[0], t[1]];
    } else {
      p, d := "", t;
    }
    DigitsSpelled(d, negative);
  }

  lemma SignSpelled(t: string) returns (s: string, p: string, d: string)
    requires ScanSign(t).Number? && ScanSign(t).end == |t|
    ensures Spelled(t, "", s, p, d) && ScanSign(t).value == ToInt32(Unsigned(s == "-", HexValue(d)))
  {
    hide ScanPrefix;
    if t != [] && (t[0] == '+' || t[0] == '-') {
      s := [t[0]];
      p, d := PrefixSpelled(t[1..], t[0] == '-');
      assert t == "" + s + p + d;
    } else {
      s := "";
      p, d := PrefixSpelled(t, false);
      assert t == "" + s + p + d;
    }
  }

  lemma {:induction false} ReadSpelled(t: string) returns (b: string, s: string, p: string, d: string)
    requires Strtoul(t).Number? && Strtoul(t).end == |t|
    ensures Spelled(t, b, s, p, d) && Strtoul(t).value == ToInt32(Unsigned(s == "-", HexValue(d)))
    decreases |t|
  {
    hide ScanSign;
    if t != [] && IsBlank(t[0]) {
      b, s, p, d := ReadSpelled(t[1..]);
      b := [t[0]] + b;
      assert t == [t[0]] + t[1..];
    } else {
      b := "";
      s, p, d := SignSpelled(t);
    }
  }

  /** Every text and value: the text is a group of that value exactly if it is spelled as a number that means it. */
  lemma GroupTextIff(t: string, v: Group)
    ensures GroupText(t, v) <==> exists b, s, p, d :: Spelled(t, b, s, p, d) && Means(s == "-", HexValue(d), v)
  {
    hide Strtoul, HexValue, Means;
    if GroupText(t, v) {
      var b, s, p, d := ReadSpelled(t);
      ValueMeans(s == "-", HexValue(d), v);
    }
    if b, s, p, d :| Spelled(t, b, s, p, d) && Means(s == "-", HexValue(d), v) {
      SpelledRead(t, b, s, p, d);
      ValueMeans(s == "-", HexValue(d), v);
    }
  }

  /** Groups are printed in lower case and without leading zeros, and mean their value. */
  lemma {:induction false} HexLaw(n: nat)
    ensures var s := IPv6Address.Hex(n);
            && (forall i :: 0 <= i < |s| ==> '0' <= s[i] <= '9' || 'a' <= s[i] <= 'f')
            && (|s| > 1 ==> s[0] != '0') && (n == 0 <==> s == "0")
  {
    if n >= 16 {
      HexLaw(n / 16);
      HexLaw(n % 16);
    }
  }
}
