/**
 IPv6 addresses as four 32-bit words: printing around the longest gap, and
 parsing through `IPv6Text`.
 */
module IPv6Address {
  import opened Common
  import opened IPv6Text
  import opened WordHalves

  /** The value of an address object. */
  datatype Words = Words(w0: bv32, w1: bv32, w2: bv32, w3: bv32)

  function GroupsOf(w: Words): (g: seq<Group>)
    ensures |g| == 8
  {
    [HighGroup(w.w0), LowGroup(w.w0), HighGroup(w.w1), LowGroup(w.w1),
     HighGroup(w.w2), LowGroup(w.w2), HighGroup(w.w3), LowGroup(w.w3)]
  }

  function WordsOf(g: seq<Group>): Words
    requires |g| == 8
  {
    Words(Pack(g[0], g[1]), Pack(g[2], g[3]), Pack(g[4], g[5]), Pack(g[6], g[7]))
  }

  lemma WordsOfGroups(w: Words)
    ensures WordsOf(GroupsOf(w)) == w
  {
    PackHalves(w.w0);
    PackHalves(w.w1);
    PackHalves(w.w2);
    PackHalves(w.w3);
  }

  // ----- printing -----

  function HexChar(n: nat): char
    requires n < 16
  {
    "0123456789abcdef"[n]
  }

  function Hex(n: nat): (s: string)
    ensures s != []
  {
    if n < 16 then [HexChar(n)] else Hex(n / 16) + [HexChar(n % 16)]
  }

  function HexAll(g: seq<Group>): (ts: seq<string>)
    ensures |ts| == |g| && forall i :: 0 <= i < |g| ==> ts[i] == Hex(g[i])
  {
    seq(|g|, (i: nat) requires i < |g| => Hex(g[i]))
  }

  lemma HexCharIsHex(n: nat)
    requires n < 16
    ensures IsHex(HexChar(n)) && HexDigit(HexChar(n)) == n
  {
  }

  predicate AllHex(s: string) {
    forall i :: 0 <= i < |s| ==> IsHex(s[i])
  }

  lemma {:induction false} HexRunAll(s: string)
    requires AllHex(s)
    ensures HexRun(s) == |s|
  {
    if s != [] {
      HexRunAll(s[1..]);
    }
  }

  lemma {:induction false} HexReadsBack(n: nat)
    ensures AllHex(Hex(n)) && HexValue(Hex(n)) == n
  {
    if n < 16 {
      HexCharIsHex(n);
      assert Hex(n)[..0] == [];
    } else {
      HexReadsBack(n / 16);
      HexCharIsHex(n % 16);
      assert Hex(n)[..|Hex(n)| - 1] == Hex(n / 16);
    }
  }

  lemma SmallStaysSmall(v: Group)
    ensures ToInt32(Unsigned(false, v)) == v
  {
  }

  lemma DigitsScan(t: string, v: Group)
    requires t != [] && AllHex(t) && HexValue(t) == v
    ensures ScanDigits(t, false) == Number(v, |t|)
  {
    HexRunAll(t);
    SmallStaysSmall(v);
    assert t[..|t|] == t;
  }

  lemma DigitsAreGroup(t: string, v: Group)
    requires t != [] && AllHex(t) && HexValue(t) == v
    ensures GroupText(t, v)
  {
    DigitsScan(t, v);
    assert IsHex(t[0]);
    assert |t| >= 2 ==> IsHex(t[1]);
    assert !HexPrefix(t);
    assert ScanSign(t) == ScanDigits(t, false);
  }

  /** A printed group is read back as itself. */
  lemma HexIsGroup(v: Group)
    ensures GroupText(Hex(v), v)
  {
    HexReadsBack(v);
    DigitsAreGroup(Hex(v), v);
  }

  ghost predicate ZeroRun(g: seq<Group>, i: int, j: int)
    requires |g| == 8
  {
    0 <= i <= j <= 8 && forall k :: i <= k < j ==> g[k] == 0
  }

  /** No run of two or more zeros that ends at or before `n` is longer than [start, end), or as long and further left. */
  ghost predicate BestUpTo(g: seq<Group>, n: int, start: int, end: int)
    requires |g| == 8
  {
    && ZeroRun(g, start, end) && end <= n
    && (start == end ==> start == 0)
    && (start < end ==> end - start >= 2)
    && forall i, j :: ZeroRun(g, i, j) && j <= n && j - i >= 2 ==>
         j - i < end - start || (j - i == end - start && start <= i)
  }

  /** [start, end) is the leftmost longest run of at least two zeros, or [0, 0) if there is none. */
  ghost predicate IsGap(g: seq<Group>, start: int, end: int)
    requires |g| == 8
  {
    BestUpTo(g, 8, start, end)
  }

  lemma GapUnique(g: seq<Group>, s: int, e: int, s': int, e': int)
    requires |g| == 8 && IsGap(g, s, e) && IsGap(g, s', e')
    ensures s == s' && e == e'
  {
    assert ZeroRun(g, s, e) && ZeroRun(g, s', e');
  }

  lemma RunCovers(g: seq<Group>, a: int, b: int, k: int)
    requires |g| == 8 && ZeroRun(g, a, b) && 0 <= k < 8
    ensures a <= k < b ==> g[k] == 0
  {
  }

  method FindGap(g: seq<Group>) returns (start: int, end: int)
    requires |g| == 8
    ensures IsGap(g, start, end)
  {
    start, end := 0, 0;
    var beg := -1;
    var i := 0;
    while i < 8
      invariant 0 <= i <= 8 && -1 <= beg < i
      invariant beg == -1 ==> i == 0 || g[i - 1] != 0
      invariant beg != -1 ==> ZeroRun(g, beg, i) && (beg == 0 || g[beg - 1] != 0)
      invariant BestUpTo(g, if beg == -1 then i else beg, start, end)
    {
      if beg == -1 && g[i] == 0 {
        beg := i;
      } else if beg != -1 && g[i] != 0 {
        CloseRun(g, beg, i, start, end);
        if i - beg >= 2 && i - beg > end - start {
          start, end := beg, i;
        }
        SkipNonZero(g, i, start, end);
        beg := -1;
      } else if beg == -1 {
        SkipNonZero(g, i, start, end);
      }
      i := i + 1;
    }
    if beg != -1 {
      CloseRun(g, beg, 8, start, end);
      if beg <= 6 && 8 - beg > end - start {
        start, end := beg, 8;
      }
    }
  }

  lemma CloseRun(g: seq<Group>, beg: int, i: int, start: int, end: int)
    requires |g| == 8 && 0 <= beg < i <= 8 && ZeroRun(g, beg, i) && (beg == 0 || g[beg - 1] != 0)
    requires BestUpTo(g, beg, start, end)
    ensures if i - beg >= 2 && i - beg > end - start then BestUpTo(g, i, beg, i) else BestUpTo(g, i, start, end)
  {
    forall a, b | ZeroRun(g, a, b) && b <= i && b - a >= 2 && b > beg ensures beg <= a {
      if beg > 0 { RunCovers(g, a, b, beg - 1); }
    }
  }

  lemma SkipNonZero(g: seq<Group>, i: int, start: int, end: int)
    requires |g| == 8 && 0 <= i < 8 && g[i] != 0 && BestUpTo(g, i, start, end)
    ensures BestUpTo(g, i + 1, start, end)
  {
    forall a, b | ZeroRun(g, a, b) && b <= i + 1 && b - a >= 2 ensures b <= i {
      RunCovers(g, a, b, i);
    }
  }

  /** The text for a given gap. */
  function Render(g: seq<Group>, start: int, end: int): string
    requires |g| == 8 && 0 <= start <= end <= 8
  {
    Join(HexAll(g[..start])) + (if start != end then "::" else "") + Join(HexAll(g[end..]))
  }

  lemma HexAllTexts(g: seq<Group>)
    ensures GroupTexts(HexAll(g), g)
  {
    forall i | 0 <= i < |g| ensures GroupText(HexAll(g)[i], g[i]) {
      HexIsGroup(g[i]);
    }
  }

  lemma MergeAroundGap(g: seq<Group>, start: int, end: int)
    requires |g| == 8 && ZeroRun(g, start, end)
    ensures Merge(g[..start], g[end..]) == g
  {
    var l, r := g[..start], g[end..];
    assert |l| + |r| <= 8;
    assert Zeros(8 - |l| - |r|) == g[start..end];
    assert g == g[..start] + g[start..end] + g[end..];
  }

  /** Every printed text is accepted and stands for the groups it was printed from. */
  lemma RenderReadsBack(g: seq<Group>, start: int, end: int)
    requires |g| == 8 && IsGap(g, start, end)
    ensures TryParse(Render(g, start, end)) == Some(g)
  {
    var s := Render(g, start, end);
    if start == end {
      assert g[..0] == [] && g[0..] == g;
      assert s == Join(HexAll(g));
      HexAllTexts(g);
      FullAccepted(s, g, HexAll(g));
    } else {
      var l, r := g[..start], g[end..];
      HexAllTexts(l);
      HexAllTexts(r);
      MergeAroundGap(g, start, end);
      assert |l| + |r| <= 8;
      assert GapForm(s, g, HexAll(l), HexAll(r), l, r);
      GapAccepted(s, g, HexAll(l), HexAll(r), l, r);
    }
  }

  lemma JoinAppend(ts: seq<string>, t: string)
    ensures Join(ts + [t]) == if ts == [] then t else Join(ts) + ":" + t
  {
    if |ts| > 0 {
      var us := ts + [t];
      assert us[1..] == ts[1..] + [t];
      JoinAppend(ts[1..], t);
      if |ts| == 1 {
        assert us[1..] == [t];
      } else {
        assert Join(us) == ts[0] + ":" + Join(us[1..]);
        assert Join(ts) == ts[0] + ":" + Join(ts[1..]);
      }
    }
  }

  lemma HexAllNext(g: seq<Group>, i: nat)
    requires i < |g|
    ensures HexAll(g[..i + 1]) == HexAll(g[..i]) + [Hex(g[i])] && (HexAll(g[..i]) == [] <==> i == 0)
  {
    hide Hex;
  }

  /** One of the two printing loops. */
  method PrintGroups(g: seq<Group>) returns (text: string)
    ensures text == Join(HexAll(g))
  {
    text := "";
    var i := 0;
    while i < |g|
      invariant 0 <= i <= |g|
      invariant text == Join(HexAll(g[..i]))
    {
      HexAllNext(g, i);
      hide Join, HexAll, Hex;
      JoinAppend(HexAll(g[..i]), Hex(g[i]));
      text := text + (if i == 0 then "" else ":") + Hex(g[i]);
      i := i + 1;
    }
    assert g[..i] == g;
  }

  lemma UnspecReadsBack()
    ensures TryParse("<unspec>") == Some(Zeros(8))
  {
  }

  // ----- the parser's loop -----

  lemma NoNumberStep(s: string, i: nat, k: nat)
    requires i <= |s| && k < 8 && (k > 0 ==> i > 0 && s[i - 1] == ':') && Strtoul(s[i..]).NoNumber?
    ensures ReadGroups(s[i..], k) == Run([], if k != 0 then s[i - 1..] else s[i..])
  {
    if k != 0 {
      assert ":" + s[i..] == s[i - 1..];
    }
  }

  lemma NumberStep(s: string, i: nat, k: nat, e: nat)
    requires i <= |s| && k < 8 && Strtoul(s[i..]).Number? && 0 <= Strtoul(s[i..]).value <= 0xffff
    requires e == i + Strtoul(s[i..]).end
    ensures e <= |s|
    ensures var v := Strtoul(s[i..]).value;
            if e == |s| || s[e] != ':' || k + 1 == 8 then ReadGroups(s[i..], k) == Run([v], s[e..])
            else
              var r := ReadGroups(s[e + 1..], k + 1);
              ReadGroups(s[i..], k) == Run([v] + r.groups, r.rest)
  {
    var u, n := s[i..], Strtoul(s[i..]).end;
    assert u[n..] == s[e..];
    if e < |s| {
      assert u[n + 1..] == s[e + 1..];
      assert StartsColon(u[n..]) <==> s[e] == ':';
    }
  }

  /** `done` was read before position `i`; reading on from there gives the rest of `all`. */
  ghost predicate Reading(s: string, i: nat, k: nat, done: seq<Group>, all: Run) {
    && i <= |s| && k < 8 && |done| == k && (k > 0 ==> i > 0 && s[i - 1] == ':')
    && all == Run(done + ReadGroups(s[i..], k).groups, ReadGroups(s[i..], k).rest)
  }

  /** One more group: either it is the last, or reading goes on behind the ':'. */
  lemma ReadingStep(s: string, i: nat, k: nat, done: seq<Group>, all: Run, v: Group, e: nat)
    requires i <= e && Reading(s, i, k, done, all) && Strtoul(s[i..]) == Number(v, e - i)
    ensures e <= |s|
    ensures if e == |s| || s[e] != ':' || k + 1 == 8 then all == Run(done + [v], s[e..])
            else Reading(s, e + 1, k + 1, done + [v], all)
  {
    hide Strtoul;
    NumberStep(s, i, k, e);
    if !(e == |s| || s[e] != ':' || k + 1 == 8) {
      var r := ReadGroups(s[e + 1..], k + 1);
      assert done + ([v] + r.groups) == (done + [v]) + r.groups;
    }
  }

  lemma ReadingStops(s: string, i: nat, k: nat, done: seq<Group>, all: Run)
    requires Reading(s, i, k, done, all)
    requires Strtoul(s[i..]).NoNumber? || Strtoul(s[i..]).value < 0 || Strtoul(s[i..]).value > 0xffff
    ensures all == Run(done, if Strtoul(s[i..]).NoNumber? && k != 0 then s[i - 1..] else s[i..])
  {
    if Strtoul(s[i..]).NoNumber? {
      NoNumberStep(s, i, k);
    }
    assert done + [] == done;
  }

  /** Reads groups into `octals`; the cursor ends just past the last group. */
  method ParseOctals(s: string, pos: nat, octals: array<int>) returns (k: nat, end: nat)
    requires pos <= |s| && octals.Length == 8
    modifies octals
    ensures var r := ReadGroups(s[pos..], 0);
            k == |r.groups| && octals[..k] == r.groups && end <= |s| && s[end..] == r.rest
  {
    hide ReadGroups;
    hide Strtoul;
    k, end := 0, pos;
    ghost var all := ReadGroups(s[pos..], 0);
    ghost var done: seq<Group> := [];
    assert [] + all.groups == all.groups;
    while true
      invariant Reading(s, end, k, done, all)
      invariant octals[..k] == done
      decreases |s| - end
    {
      var sc := Strtoul(s[end..]);
      if sc.NoNumber? {
        ReadingStops(s, end, k, done, all);
        if k != 0 { end := end - 1; }
        return;
      }
      octals[k] := sc.value;
      if octals[k] < 0 || octals[k] > 0xffff {
        ReadingStops(s, end, k, done, all);
        assert octals[..k] == done;
        return;
      }
      ReadingStep(s, end, k, done, all, sc.value, end + sc.end);
      done := done + [sc.value];
      k := k + 1;
      assert octals[..k] == done;
      end := end + sc.end;
      if end == |s| || s[end] != ':' || k == 8 { return; }
      end := end + 1;
    }
  }

  // ----- address objects -----

  lemma PackZeros()
    ensures WordsOf(Zeros(8)) == Words(0, 0, 0, 0)
  {
    var z := Words(0, 0, 0, 0);
    WordsOfGroups(z);
    assert GroupsOf(z) == Zeros(8);
  }

  lemma WholeGapIsUnspec(w: Words, start: int, end: int)
    requires ZeroRun(GroupsOf(w), start, end)
    ensures start == 0 && end == 8 ==> w == Words(0, 0, 0, 0)
  {
    if start == 0 && end == 8 {
      assert GroupsOf(w) == Zeros(8);
      WordsOfGroups(w);
      PackZeros();
    }
  }

  /** The parser, past the text of the null address. */
  lemma ParseParts(addr: string)
    requires addr != "<unspec>"
    ensures DoTryParse(addr) ==
            var l := ReadGroups(addr, 0);
            if StartsGap(l.rest) then
              var r := ReadGroups(l.rest[2..], 0);
              if |l.groups| + |r.groups| > 8 then Fail else Ok(Merge(l.groups, r.groups), r.rest)
            else if |l.groups| == 8 then Ok(l.groups, l.rest)
            else Fail
  {
    hide ReadGroups, Merge;
  }

  lemma Behind(s: string, pos: nat)
    ensures pos + 2 <= |s| ==> s[pos..][2..] == s[pos + 2..]
    ensures pos <= |s| ==> (StartsGap(s[pos..]) <==> pos + 1 < |s| && s[pos] == ':' && s[pos + 1] == ':')
  {
  }

  class Address {
    const d: array<bv32>

    ghost predicate Valid() {
      d.Length == 4
    }

    function Value(): Words
      requires Valid()
      reads d
    {
      Words(d[0], d[1], d[2], d[3])
    }

    constructor (w: Words)
      ensures Valid() && fresh(d) && Value() == w
    {
      d := new bv32[][w.w0, w.w1, w.w2, w.w3];
    }

    /** The null address. */
    method Clear()
      requires Valid()
      modifies d
      ensures Value() == WordsOf(Zeros(8))
    {
      PackZeros();
      hide WordsOf;
      d[0], d[1], d[2], d[3] := 0, 0, 0, 0;
    }

    /** Stores what the parser read; the words are untouched when it fails, but not when only text is left over. */
    method ParseStart(addr: string) returns (ok: bool, rest: string)
      requires Valid()
      modifies d
      ensures var p := DoTryParse(addr);
              && ok == p.Ok?
              && (ok ==> rest == p.rest && Value() == WordsOf(p.groups))
              && (!ok ==> Value() == old(Value()))
    {
      hide ReadGroups, Merge, WordsOf;
      if addr == "<unspec>" {
        Clear();
        return true, "";
      }
      ParseParts(addr);
      hide DoTryParse;
      rest := "";
      var octals := new int[8];
      var n, pos := ParseOctals(addr, 0, octals);
      assert addr[0..] == addr;
      Behind(addr, pos);
      var fits := true;
      if pos + 1 < |addr| && addr[pos] == ':' && addr[pos + 1] == ':' {
        fits, pos := ParseSuffix(addr, pos + 2, octals, n);
        n := 8;
      }
      if !fits || n != 8 { return false, ""; }
      Store(octals);
      return true, addr[pos..];
    }

    /** The groups behind "::", merged into `octals`; false if there are too many. */
    method ParseSuffix(addr: string, from: nat, octals: array<int>, n: nat) returns (fits: bool, pos: nat)
      requires from <= |addr| && octals.Length == 8 && n <= 8 && forall i :: 0 <= i < n ==> 0 <= octals[i] <= 0xffff
      modifies octals
      ensures var r := ReadGroups(addr[from..], 0);
              && fits == (n + |r.groups| <= 8)
              && (fits ==> octals[..8] == Merge(old(octals[..n]), r.groups) && pos <= |addr| && addr[pos..] == r.rest)
    {
      hide ReadGroups, Merge;
      var suffix := new int[8];
      var m;
      m, pos := ParseOctals(addr, from, suffix);
      fits := n + m <= 8;
      if fits {
        MergeSuffix(octals, n, suffix, m);
      }
    }

    method Store(octals: array<int>)
      requires Valid() && octals.Length == 8 && forall i :: 0 <= i < 8 ==> 0 <= octals[i] <= 0xffff
      modifies d
      ensures Value() == WordsOf(octals[..8])
    {
      hide Pack;
      var i := 0;
      while i < 4
        invariant 0 <= i <= 4
        invariant forall j :: 0 <= j < i ==> d[j] == Pack(octals[2 * j], octals[2 * j + 1])
      {
        d[i] := Pack(octals[2 * i], octals[2 * i + 1]);
        i := i + 1;
      }
    }

    method TryParse(addr: string) returns (ok: bool)
      requires Valid()
      modifies d
      ensures ok <==> IPv6Text.TryParse(addr).Some?
      ensures ok ==> Value() == WordsOf(IPv6Text.TryParse(addr).value)
      ensures DoTryParse(addr).Fail? ==> Value() == old(Value())
    {
      var rest;
      ok, rest := ParseStart(addr);
      ok := ok && rest == "";
    }

    /** The printed text, from the gap search and the two printing loops. */
    method Str() returns (text: string)
      requires Valid()
      ensures Value() == Words(0, 0, 0, 0) ==> text == "<unspec>"
      ensures Value() != Words(0, 0, 0, 0) ==>
        exists s, e :: 0 <= s <= e <= 8 && IsGap(GroupsOf(Value()), s, e) && text == Render(GroupsOf(Value()), s, e)
      ensures IPv6Text.TryParse(text) == Some(GroupsOf(Value()))
    {
      var w := Value();
      if w == Words(0, 0, 0, 0) {
        UnspecReadsBack();
        assert GroupsOf(w) == Zeros(8);
        return "<unspec>";
      }
      var g := GroupsOf(w);
      var start, end := FindGap(g);
      WholeGapIsUnspec(w, start, end);   // so the special case "::0" of the source is never taken
      var l := PrintGroups(g[..start]);
      var r := PrintGroups(g[end..]);
      text := l + (if start != end then "::" else "") + r;
      RenderReadsBack(g, start, end);
    }
  }

  /** Moves the right groups to the end and fills the middle with zeros. */
  method MergeSuffix(octals: array<int>, n: nat, suffix: array<int>, m: nat)
    requires octals.Length == 8 && suffix.Length == 8 && octals != suffix && n + m <= 8
    requires forall i :: 0 <= i < n ==> 0 <= octals[i] <= 0xffff
    requires forall i :: 0 <= i < m ==> 0 <= suffix[i] <= 0xffff
    modifies octals
    ensures octals[..8] == Merge(old(octals[..n]), suffix[..m])
  {
    var i := n;
    while i < 8
      invariant n <= i <= 8
      invariant forall k :: 0 <= k < n ==> octals[k] == old(octals[k])
      invariant forall k :: n <= k < i ==> octals[k] == if k - 8 + m < 0 then 0 else suffix[k - 8 + m]
    {
      var j := i - 8 + m;
      octals[i] := if j < 0 then 0 else suffix[j];
      i := i + 1;
    }
  }

  /** Printing an address and parsing the text restores the address, for all 128-bit values. */
  method PrintAndParse(a: Address, b: Address) returns (ok: bool)
    requires a.Valid() && b.Valid() && a.d != b.d
    modifies b.d
    ensures ok && b.Value() == a.Value() == old(a.Value())
  {
    var text := a.Str();
    ok := b.TryParse(text);
    WordsOfGroups(a.Value());
  }
}
