module IPv6Text {
  // The text form of IPv6 addresses: eight 16-bit groups, a parser for the colon notation
  // of section 2.2 of RFC 3513 with groups that are whatever strtoul takes for a number
  // (blanks, a sign, "0x", any number of digits), and a printer that replaces the longest
  // run of zero groups by "::".

  import opened Common

  import opened WordHalves

  // ----- strtoul(s, &e, 16), stored in an int -----

  predicate IsBlank(c: char) {
    c == ' ' || '\t' <= c <= '\r'
  }

  predicate IsHex(c: char) {
    '0' <= c <= '9' || 'a' <= c <= 'f' || 'A' <= c <= 'F'
  }

  function HexDigit(c: char): nat
    requires IsHex(c)
  {
    if c <= '9' then c as int - '0' as int
    else if c <= 'F' then c as int - 'A' as int + 10
    else c as int - 'a' as int + 10
  }

  function HexRun(s: string): (n: nat)
    ensures n <= |s| && forall i :: 0 <= i < n ==> IsHex(s[i])
    ensures n < |s| ==> !IsHex(s[n])
  {
    if s != [] && IsHex(s[0]) then 1 + HexRun(s[1..]) else 0
  }

  function HexValue(s: string): nat
    requires forall i :: 0 <= i < |s| ==> IsHex(s[i])
  {
    if s == [] then 0 else 16 * HexValue(s[..|s| - 1]) + HexDigit(s[|s| - 1])
  }

  const ULONG_MAX: nat := 0xffff_ffff_ffff_ffff

  /** The unsigned long that strtoul returns; values out of range saturate, a minus sign wraps around. */
  function Unsigned(negative: bool, v: nat): nat {
    if v > ULONG_MAX then ULONG_MAX
    else if negative && v > 0 then ULONG_MAX + 1 - v
    else v
  }

  /** Conversion of an unsigned long to a 32-bit int. */
  function ToInt32(v: nat): int {
    var m := v % 0x1_0000_0000;
    if m < 0x8000_0000 then m else m - 0x1_0000_0000
  }

  datatype Scan = NoNumber | Number(value: int, end: nat)

  function Shift(k: nat, r: Scan): Scan {
    match r
    case NoNumber => NoNumber
    case Number(v, e) => Number(v, e + k)
  }

  function ScanDigits(s: string, negative: bool): (r: Scan)
    ensures r.Number? ==> 0 < r.end <= |s|
  {
    var n := HexRun(s);
    if n == 0 then NoNumber else Number(ToInt32(Unsigned(negative, HexValue(s[..n]))), n)
  }

  predicate HexPrefix(s: string) {
    |s| >= 3 && s[0] == '0' && (s[1] == 'x' || s[1] == 'X') && IsHex(s[2])
  }

  function ScanPrefix(s: string, negative: bool): (r: Scan)
    ensures r.Number? ==> 0 < r.end <= |s|
  {
    if HexPrefix(s) then Shift(2, ScanDigits(s[2..], negative)) else ScanDigits(s, negative)
  }

  function ScanSign(s: string): (r: Scan)
    ensures r.Number? ==> 0 < r.end <= |s|
  {
    if s != [] && (s[0] == '+' || s[0] == '-') then Shift(1, ScanPrefix(s[1..], s[0] == '-')) else ScanPrefix(s, false)
  }

  /** The number at the start of `s`: blanks, a sign, "0x" and hexadecimal digits. */
  function Strtoul(s: string): (r: Scan)
    ensures r.Number? ==> 0 < r.end <= |s|
  {
    if s != [] && IsBlank(s[0]) then Shift(1, Strtoul(s[1..])) else ScanSign(s)
  }

  // ----- the parser -----

  datatype Run = Run(groups: seq<Group>, rest: string)

  predicate StartsColon(s: string) {
    s != [] && s[0] == ':'
  }

  /** Groups separated by ':' at the start of `s`, with `n` groups and a ':' read before; at most eight in all. */
  function ReadGroups(s: string, n: nat): (r: Run)
    requires n < 8
    ensures n + |r.groups| <= 8
    decreases |s|
  {
    match Strtoul(s)
    case NoNumber => Run([], if n != 0 then ":" + s else s)
    case Number(v, e) =>
      if v < 0 || v > 0xffff then Run([], s)
      else if !StartsColon(s[e..]) || n + 1 == 8 then Run([v], s[e..])
      else
        var r := ReadGroups(s[e + 1..], n + 1);
        Run([v] + r.groups, r.rest)
  }

  function Zeros(n: nat): seq<Group> {
    seq(n, (_: nat) => 0)
  }

  /** Left groups, zeros, right groups: eight in all. */
  function Merge(l: seq<Group>, r: seq<Group>): (g: seq<Group>)
    requires |l| + |r| <= 8
    ensures |g| == 8
  {
    l + Zeros(8 - |l| - |r|) + r
  }

  datatype Parsed = Fail | Ok(groups: seq<Group>, rest: string)

  predicate StartsGap(s: string) {
    |s| >= 2 && s[0] == ':' && s[1] == ':'
  }

  function DoTryParse(s: string): (r: Parsed)
    ensures r.Ok? ==> |r.groups| == 8
  {
    if s == "<unspec>" then Ok(Zeros(8), "")
    else
      var l := ReadGroups(s, 0);
      if StartsGap(l.rest) then
        var r := ReadGroups(l.rest[2..], 0);
        if |l.groups| + |r.groups| > 8 then Fail
        else Ok(Merge(l.groups, r.groups), r.rest)
      else if |l.groups| == 8 then Ok(l.groups, l.rest)
      else Fail
  }

  function TryParse(s: string): (r: Option<seq<Group>>)
    ensures r.Some? ==> |r.value| == 8
  {
    var p := DoTryParse(s);
    if p.Ok? && p.rest == "" then Some(p.groups) else None
  }

  // ----- what a text denotes -----

  /** `t` is one number and nothing else, and its value is a group. */
  predicate GroupText(t: string, v: Group) {
    Strtoul(t) == Number(v, |t|)
  }

  function Join(ts: seq<string>): string {
    if |ts| == 0 then "" else if |ts| == 1 then ts[0] else ts[0] + ":" + Join(ts[1..])
  }

  predicate GroupTexts(ts: seq<string>, vs: seq<Group>) {
    |ts| == |vs| && forall i :: 0 <= i < |ts| ==> GroupText(ts[i], vs[i])
  }

  ghost predicate FullForm(s: string, g: seq<Group>, ts: seq<string>) {
    |ts| == 8 && GroupTexts(ts, g) && s == Join(ts)
  }

  /** Left groups, "::" for the omitted zero groups (possibly none), right groups. */
  ghost predicate GapForm(s: string, g: seq<Group>, ls: seq<string>, rs: seq<string>, lv: seq<Group>, rv: seq<Group>) {
    && |ls| + |rs| <= 8 && GroupTexts(ls, lv) && GroupTexts(rs, rv)
    && s == Join(ls) + "::" + Join(rs)
    && g == Merge(lv, rv)
  }

  ghost predicate Denotes(s: string, g: seq<Group>) {
    || (s == "<unspec>" && g == Zeros(8))
    || (exists ts :: FullForm(s, g, ts))
    || (exists ls, rs, lv, rv :: GapForm(s, g, ls, rs, lv, rv))
  }

  // ----- scanning is local -----

  /** What may follow a group. */
  predicate Stops(w: string) {
    w == [] || w[0] == ':'
  }

  lemma {:induction false} HexRunLocal(t: string, w: string)
    requires HexRun(t) == |t| && Stops(w)
    ensures HexRun(t + w) == |t|
  {
    if t == [] {
      assert t + w == w;
    } else {
      assert (t + w)[1..] == t[1..] + w;
      HexRunLocal(t[1..], w);
    }
  }

  lemma DigitsLocal(t: string, neg: bool, w: string)
    requires ScanDigits(t, neg).Number? && ScanDigits(t, neg).end == |t| && Stops(w)
    ensures ScanDigits(t + w, neg) == ScanDigits(t, neg)
  {
    HexRunLocal(t, w);
    assert (t + w)[..|t|] == t[..|t|];
  }

  lemma PrefixLocal(t: string, neg: bool, w: string)
    requires ScanPrefix(t, neg).Number? && ScanPrefix(t, neg).end == |t| && Stops(w)
    ensures ScanPrefix(t + w, neg) == ScanPrefix(t, neg)
  {
    if HexPrefix(t) {
      assert (t + w)[2..] == t[2..] + w;
      DigitsLocal(t[2..], neg, w);
    } else {
      assert forall i :: 0 <= i < |t| ==> IsHex(t[i]);
      assert !HexPrefix(t + w);
      DigitsLocal(t, neg, w);
    }
  }

  lemma SignLocal(t: string, w: string)
    requires ScanSign(t).Number? && ScanSign(t).end == |t| && Stops(w)
    ensures ScanSign(t + w) == ScanSign(t)
  {
    if t[0] == '+' || t[0] == '-' {
      assert (t + w)[1..] == t[1..] + w;
      PrefixLocal(t[1..], t[0] == '-', w);
    } else {
      PrefixLocal(t, false, w);
    }
  }

  /** A group is read as the same number whatever follows it. */
  lemma {:induction false} StrtoulLocal(t: string, v: int, w: string)
    requires Strtoul(t) == Number(v, |t|) && Stops(w)
    ensures Strtoul(t + w) == Number(v, |t|)
  {
    if IsBlank(t[0]) {
      assert (t + w)[1..] == t[1..] + w;
      StrtoulLocal(t[1..], v, w);
    } else {
      SignLocal(t, w);
    }
  }

  lemma ColonIsNoNumber(w: string)
    requires Stops(w)
    ensures Strtoul(w) == NoNumber
  {
  }

  lemma {:induction false} HexRunCut(s: string, n: nat)
    requires n <= HexRun(s)
    ensures HexRun(s[..n]) == n
  {
    if n > 0 {
      assert s[..n][1..] == s[1..][..n - 1];
      HexRunCut(s[1..], n - 1);
    }
  }

  lemma DigitsCut(s: string, neg: bool)
    requires ScanDigits(s, neg).Number?
    ensures ScanDigits(s[..ScanDigits(s, neg).end], neg) == ScanDigits(s, neg)
  {
    var n := HexRun(s);
    HexRunCut(s, n);
    assert s[..n][..n] == s[..n];
  }

  lemma PrefixCut(s: string, neg: bool)
    requires ScanPrefix(s, neg).Number?
    ensures ScanPrefix(s[..ScanPrefix(s, neg).end], neg) == ScanPrefix(s, neg)
  {
    var e := ScanPrefix(s, neg).end;
    if HexPrefix(s) {
      DigitsCut(s[2..], neg);
      assert s[..e][2..] == s[2..][..e - 2];
    } else {
      DigitsCut(s, neg);
      assert forall i :: 0 <= i < e ==> IsHex(s[..e][i]);
    }
  }

  lemma SignCut(s: string)
    requires ScanSign(s).Number?
    ensures ScanSign(s[..ScanSign(s).end]) == ScanSign(s)
  {
    var e := ScanSign(s).end;
    if s[0] == '+' || s[0] == '-' {
      PrefixCut(s[1..], s[0] == '-');
      assert s[..e][1..] == s[1..][..e - 1];
    } else {
      PrefixCut(s, false);
    }
  }

  /** The text a number was read from is that number alone. */
  lemma {:induction false} StrtoulCut(s: string)
    requires Strtoul(s).Number?
    ensures Strtoul(s[..Strtoul(s).end]) == Strtoul(s)
  {
    var e := Strtoul(s).end;
    if IsBlank(s[0]) {
      StrtoulCut(s[1..]);
      assert s[..e][1..] == s[1..][..e - 1];
    } else {
      SignCut(s);
    }
  }

  // ----- completeness: what the notation allows is accepted -----

  /** What may follow a list of groups. */
  predicate StopsList(w: string) {
    w == [] || StartsGap(w)
  }

  lemma ReadLast(t: string, v: Group, w: string, n: nat)
    requires GroupText(t, v) && StopsList(w) && n < 8
    ensures ReadGroups(t + w, n) == Run([v], w)
  {
    hide Strtoul;
    StrtoulLocal(t, v, w);
    assert (t + w)[|t|..] == w;
    if w != [] && n + 1 < 8 {
      ColonIsNoNumber(w[1..]);
      assert (t + w)[|t| + 1..] == w[1..];
      assert ":" + w[1..] == w;
    }
  }

  lemma ReadNext(t: string, v: Group, rest: string, n: nat)
    requires GroupText(t, v) && n + 1 < 8
    ensures var r := ReadGroups(rest, n + 1);
            ReadGroups(t + (":" + rest), n) == Run([v] + r.groups, r.rest)
  {
    hide Strtoul;
    var w := ":" + rest;
    StrtoulLocal(t, v, w);
    assert (t + w)[|t|..] == w;
    assert (t + w)[|t| + 1..] == rest;
  }

  lemma {:induction false} ReadJoined(ts: seq<string>, vs: seq<Group>, w: string, n: nat)
    requires StopsList(w) && GroupTexts(ts, vs) && n < 8 && (n > 0 ==> ts != []) && n + |ts| <= 8
    ensures ReadGroups(Join(ts) + w, n) == Run(vs, w)
    decreases |ts|
  {
    hide Strtoul;
    if |ts| == 0 {
      assert Join(ts) + w == w;
      ColonIsNoNumber(w);
    } else if |ts| == 1 {
      assert vs == [vs[0]];
      ReadLast(ts[0], vs[0], w, n);
    } else {
      assert Join(ts) + w == ts[0] + (":" + (Join(ts[1..]) + w));
      ReadNext(ts[0], vs[0], Join(ts[1..]) + w, n);
      ReadJoined(ts[1..], vs[1..], w, n + 1);
      assert vs == [vs[0]] + vs[1..];
    }
  }

  lemma JoinFirst(ts: seq<string>, vs: seq<Group>)
    requires GroupTexts(ts, vs) && ts != []
    ensures Join(ts) != [] && Join(ts)[0] != '<'
  {
    assert GroupText(ts[0], vs[0]);
    assert Join(ts)[0] == ts[0][0];
  }

  lemma FullAccepted(s: string, g: seq<Group>, ts: seq<string>)
    requires FullForm(s, g, ts)
    ensures s[0] != '<' && TryParse(s) == Some(g)
  {
    hide Strtoul;
    JoinFirst(ts, g);
    assert s == Join(ts) + "";
    ReadJoined(ts, g, "", 0);
  }

  lemma GapFirst(s: string, g: seq<Group>, ls: seq<string>, rs: seq<string>, lv: seq<Group>, rv: seq<Group>)
    requires GapForm(s, g, ls, rs, lv, rv)
    ensures s[0] != '<'
  {
    if ls != [] {
      JoinFirst(ls, lv);
      assert s[0] == Join(ls)[0];
    } else {
      assert s[0] == ':';
    }
  }

  lemma GapParsed(s: string, w: string, lv: seq<Group>, rv: seq<Group>)
    requires s != "<unspec>" && ReadGroups(s, 0) == Run(lv, w) && StartsGap(w)
    requires ReadGroups(w[2..], 0) == Run(rv, "") && |lv| + |rv| <= 8
    ensures TryParse(s) == Some(Merge(lv, rv))
  {
    hide Strtoul;
  }

  lemma NotUnspec(s: string)
    requires s != [] && s[0] != '<'
    ensures s != "<unspec>"
  {
  }

  lemma ReadLeft(s: string, ls: seq<string>, lv: seq<Group>, u: string)
    requires GroupTexts(ls, lv) && |ls| <= 8 && s == Join(ls) + "::" + u
    ensures ReadGroups(s, 0) == Run(lv, "::" + u)
  {
    hide Strtoul;
    assert s == Join(ls) + ("::" + u);
    ReadJoined(ls, lv, "::" + u, 0);
  }

  lemma ReadRight(rs: seq<string>, rv: seq<Group>)
    requires GroupTexts(rs, rv) && |rs| <= 8
    ensures ReadGroups(Join(rs), 0) == Run(rv, "")
  {
    hide Strtoul;
    assert Join(rs) + "" == Join(rs);
    ReadJoined(rs, rv, "", 0);
  }

  lemma GapAccepted(s: string, g: seq<Group>, ls: seq<string>, rs: seq<string>, lv: seq<Group>, rv: seq<Group>)
    requires GapForm(s, g, ls, rs, lv, rv)
    ensures TryParse(s) == Some(g)
  {
    hide Strtoul;
    var w := "::" + Join(rs);
    GapFirst(s, g, ls, rs, lv, rv);
    NotUnspec(s);
    ReadLeft(s, ls, lv, Join(rs));
    assert w[2..] == Join(rs);
    ReadRight(rs, rv);
    GapParsed(s, w, lv, rv);
  }

  // ----- soundness: what is accepted is in the notation -----

  /** Why nothing was read: no number, or a number that is not a group. */
  lemma NothingRead(s: string, n: nat)
    requires n < 8 && ReadGroups(s, n).groups == []
    ensures var rest := ReadGroups(s, n).rest;
            || (rest == if n != 0 then ":" + s else s)
            || (rest == s && s != [] && s[0] != ':')
  {
    hide Strtoul;
    if Stops(s) {
      ColonIsNoNumber(s);
    }
  }

  /** One group more in front. */
  lemma JoinFront(t: string, ts: seq<string>, u: string, rest: string)
    requires if ts == [] then rest == ":" + u else u == Join(ts) + rest
    ensures t + (":" + u) == Join([t] + ts) + rest
  {
    var ts' := [t] + ts;
    if ts != [] {
      assert ts'[1..] == ts;
      assert Join(ts') == t + ":" + Join(ts);
    }
  }

  lemma ReadUnfold(s: string, n: nat) returns (t: string, u: string)
    requires n < 8 && Strtoul(s).Number? && 0 <= Strtoul(s).value <= 0xffff
    ensures GroupText(t, Strtoul(s).value) && s == t + u
    ensures !StartsColon(u) || n + 1 == 8 ==> ReadGroups(s, n) == Run([Strtoul(s).value], u)
    ensures StartsColon(u) && n + 1 < 8 ==>
      var r := ReadGroups(u[1..], n + 1);
      u == ":" + u[1..] && |u| < |s| && ReadGroups(s, n) == Run([Strtoul(s).value] + r.groups, r.rest)
  {
    hide Strtoul, ReadGroups;
    var e := Strtoul(s).end;
    StrtoulCut(s);
    t, u := s[..e], s[e..];
    ReadOne(s, n);
    CutAt(s, e);
  }

  lemma CutAt(s: string, e: nat)
    requires e <= |s|
    ensures s == s[..e] + s[e..]
    ensures StartsColon(s[e..]) ==> e < |s| && s[e + 1..] == s[e..][1..] && s[e..] == ":" + s[e..][1..]
  {
  }

  lemma ReadOne(s: string, n: nat)
    requires n < 8 && Strtoul(s).Number? && 0 <= Strtoul(s).value <= 0xffff
    ensures var v, e := Strtoul(s).value, Strtoul(s).end;
            ReadGroups(s, n) ==
              if !StartsColon(s[e..]) || n + 1 == 8 then Run([v], s[e..])
              else Run([v] + ReadGroups(s[e + 1..], n + 1).groups, ReadGroups(s[e + 1..], n + 1).rest)
  {
    hide Strtoul;
  }

  lemma NoneRead(s: string, n: nat)
    requires n < 8 && (Strtoul(s).Number? ==> !(0 <= Strtoul(s).value <= 0xffff))
    ensures ReadGroups(s, n).groups == []
  {
    hide Strtoul;
  }

  /** If reading stops at the end or before a ':', what was consumed is a list of groups. */
  lemma {:induction false} ReadSound(s: string, n: nat) returns (ts: seq<string>)
    requires n < 8
    ensures var r := ReadGroups(s, n);
            && GroupTexts(ts, r.groups)
            && (r.groups != [] && Stops(r.rest) ==> s == Join(ts) + r.rest)
    decreases |s|
  {
    hide Strtoul, ReadGroups;
    if Strtoul(s).Number? && 0 <= Strtoul(s).value <= 0xffff {
      var t, u := ReadUnfold(s, n);
      if !StartsColon(u) || n + 1 == 8 {
        ts := [t];
      } else {
        var ts' := ReadSound(u[1..], n + 1);
        ts := [t] + ts';
        var r := ReadGroups(u[1..], n + 1);
        if r.groups == [] {
          NothingRead(u[1..], n + 1);
        }
        if Stops(r.rest) {
          JoinFront(t, ts', u[1..], r.rest);
        }
      }
    } else {
      ts := [];
      NoneRead(s, n);
    }
  }

  lemma ReadAllSound(s: string) returns (ts: seq<string>)
    ensures var r := ReadGroups(s, 0);
            GroupTexts(ts, r.groups) && (Stops(r.rest) ==> s == Join(ts) + r.rest)
  {
    hide Strtoul;
    ts := ReadSound(s, 0);
    if ReadGroups(s, 0).groups == [] {
      NothingRead(s, 0);
      assert Join(ts) + s == s;
    }
  }

  lemma GapIsDenoted(s: string, l: Run, u: string, r: Run)
    requires l == ReadGroups(s, 0) && l.rest == "::" + u && r == ReadGroups(u, 0) && r.rest == ""
    requires |l.groups| + |r.groups| <= 8
    ensures Denotes(s, Merge(l.groups, r.groups))
  {
    hide Strtoul;
    var ls := ReadAllSound(s);
    var rs := ReadAllSound(u);
    assert Join(rs) + "" == Join(rs);
    assert s == Join(ls) + "::" + u;
    assert GapForm(s, Merge(l.groups, r.groups), ls, rs, l.groups, r.groups);
  }

  lemma AcceptedIsDenoted(s: string, g: seq<Group>)
    requires TryParse(s) == Some(g)
    ensures Denotes(s, g)
  {
    hide Strtoul;
    if s != "<unspec>" {
      var l := ReadGroups(s, 0);
      if StartsGap(l.rest) {
        var u := l.rest[2..];
        assert l.rest == "::" + u;
        GapIsDenoted(s, l, u, ReadGroups(u, 0));
      } else {
        var ls := ReadAllSound(s);
        assert Join(ls) + "" == Join(ls);
        assert FullForm(s, g, ls);
      }
    }
  }

  /**
   On every string the parser succeeds with the groups `g` exactly when the string
   denotes `g`: eight groups, or left and right groups around "::" standing for the
   zero groups in between.
   */
  lemma ParserIsNotation(s: string, g: seq<Group>)
    ensures TryParse(s) == Some(g) <==> Denotes(s, g)
  {
    if TryParse(s) == Some(g) {
      AcceptedIsDenoted(s, g);
    }
    if ts :| FullForm(s, g, ts) {
      FullAccepted(s, g, ts);
    } else if ls, rs, lv, rv :| GapForm(s, g, ls, rs, lv, rv) {
      GapAccepted(s, g, ls, rs, lv, rv);
    }
  }

  // ----- a gap for no group -----

  /** The notation with "::" for at least one group, as the standard has it. */
  ghost predicate Strict(s: string, g: seq<Group>) {
    || (s == "<unspec>" && g == Zeros(8))
    || (exists ts :: FullForm(s, g, ts))
    || (exists ls, rs, lv, rv :: GapForm(s, g, ls, rs, lv, rv) && |ls| + |rs| < 8)
  }

  /** Eight groups stand around the "::". */
  ghost predicate EmptyGap(s: string, g: seq<Group>) {
    exists ls, rs, lv, rv :: GapForm(s, g, ls, rs, lv, rv) && |ls| + |rs| == 8
  }

  lemma GapIsRead(s: string, g: seq<Group>, ls: seq<string>, rs: seq<string>, lv: seq<Group>, rv: seq<Group>)
    requires GapForm(s, g, ls, rs, lv, rv)
    ensures s[0] != '<' && ReadGroups(s, 0) == Run(lv, "::" + Join(rs)) && ReadGroups(Join(rs), 0) == Run(rv, "")
  {
    hide Strtoul, ReadGroups;
    GapFirst(s, g, ls, rs, lv, rv);
    ReadLeft(s, ls, lv, Join(rs));
    ReadRight(rs, rv);
  }

  lemma FullIsRead(s: string, g: seq<Group>, ts: seq<string>)
    requires FullForm(s, g, ts)
    ensures s[0] != '<' && ReadGroups(s, 0) == Run(g, "")
  {
    hide Strtoul, ReadGroups;
    JoinFirst(ts, g);
    assert s == Join(ts) + "";
    ReadJoined(ts, g, "", 0);
  }

  lemma SameRest(a: string, b: string)
    requires "::" + a == "::" + b
    ensures a == b
  {
    assert a == ("::" + a)[2..] && b == ("::" + b)[2..];
  }

  /** An accepted text is in the strict notation unless it has eight groups around a "::". */
  lemma StrictUnlessEmptyGap(s: string, g: seq<Group>)
    requires TryParse(s) == Some(g)
    ensures Strict(s, g) <==> !EmptyGap(s, g)
  {
    AcceptedIsDenoted(s, g);
    hide Strtoul, ReadGroups, GroupTexts;
    if ls, rs, lv, rv :| GapForm(s, g, ls, rs, lv, rv) && |ls| + |rs| == 8 {
      GapIsRead(s, g, ls, rs, lv, rv);
      if ts :| FullForm(s, g, ts) {
        FullIsRead(s, g, ts);
      }
      forall ls', rs', lv', rv' | GapForm(s, g, ls', rs', lv', rv') ensures |ls'| + |rs'| == 8 {
        GapIsRead(s, g, ls', rs', lv', rv');
        SameRest(Join(rs), Join(rs'));
        SameSizes(ls, lv);
        SameSizes(ls', lv');
        SameSizes(rs, rv);
        SameSizes(rs', rv');
      }
    }
  }

  lemma SameSizes(ts: seq<string>, vs: seq<Group>)
    requires GroupTexts(ts, vs)
    ensures |ts| == |vs|
  {
  }

  /** "::" behind, in front of or between any eight groups is accepted, and not in the strict notation. */
  lemma EmptyGapAccepted(ls: seq<string>, rs: seq<string>, lv: seq<Group>, rv: seq<Group>)
    requires GroupTexts(ls, lv) && GroupTexts(rs, rv) && |ls| + |rs| == 8
    ensures var s := Join(ls) + "::" + Join(rs);
            TryParse(s) == Some(lv + rv) && !Strict(s, lv + rv)
  {
    hide Strtoul, ReadGroups, Strict, GroupTexts, Join, TryParse;
    var s, g := Join(ls) + "::" + Join(rs), lv + rv;
    SameSizes(ls, lv);
    SameSizes(rs, rv);
    NoZeros(lv, rv);
    assert GapForm(s, g, ls, rs, lv, rv);
    GapAccepted(s, g, ls, rs, lv, rv);
    hide GapForm;
    assert EmptyGap(s, g);
    hide EmptyGap;
    StrictUnlessEmptyGap(s, g);
  }

  lemma NoZeros(l: seq<Group>, r: seq<Group>)
    requires |l| + |r| == 8
    ensures Merge(l, r) == l + r
  {
    assert l + Zeros(0) + r == l + r;
  }
}
