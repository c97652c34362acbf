module IPv4Address {
  // IPv4 addresses: four bytes, their value as a word, and dotted decimal text.
  //
  // The parser reads at most four numbers between dots and accepts only bytes; the text of
  // the null address is a word of its own.

  import opened Common
  import opened Decimal

  datatype Quad = Quad(b0: bv8, b1: bv8, b2: bv8, b3: bv8)

  function Word(b0: bv8, b1: bv8, b2: bv8, b3: bv8): bv32 {
    ((b0 as bv32) << 24) + ((b1 as bv32) << 16) + ((b2 as bv32) << 8) + (b3 as bv32)
  }

  function GetInt(q: Quad): bv32 {
    Word(q.b0, q.b1, q.b2, q.b3)
  }

  function FromInt(w: bv32): Quad {
    Quad(((w >> 24) & 0xFF) as bv8, ((w >> 16) & 0xFF) as bv8, ((w >> 8) & 0xFF) as bv8, (w & 0xFF) as bv8)
  }

  lemma IntOfQuad(q: Quad)
    ensures FromInt(GetInt(q)) == q
  {
  }

  lemma QuadOfInt(w: bv32)
    ensures GetInt(FromInt(w)) == w
  {
  }

  // ----- text -----

  function Bytes(q: Quad): seq<int> {
    [q.b0 as int, q.b1 as int, q.b2 as int, q.b3 as int]
  }

  function QuadOf(bs: seq<int>): Quad
    requires |bs| == 4 && forall i :: 0 <= i < 4 ==> 0 <= bs[i] <= 255
  {
    Quad(bs[0] as bv8, bs[1] as bv8, bs[2] as bv8, bs[3] as bv8)
  }

  lemma ByteBack(b: bv8)
    ensures 0 <= b as int <= 255 && (b as int) as bv8 == b
  {
  }

  lemma BytesBack(q: Quad)
    ensures |Bytes(q)| == 4 && (forall i :: 0 <= i < 4 ==> 0 <= Bytes(q)[i] <= 255) && QuadOf(Bytes(q)) == q
  {
    ByteBack(q.b0);
    ByteBack(q.b1);
    ByteBack(q.b2);
    ByteBack(q.b3);
  }

  const Unspecified := "<unspec>"

  function Dotted(bs: seq<int>): string
    requires forall i :: 0 <= i < |bs| ==> bs[i] >= 0
  {
    if bs == [] then ""
    else if |bs| == 1 then Dec(bs[0])
    else Dec(bs[0]) + "." + Dotted(bs[1..])
  }

  function Str(q: Quad): string {
    if q == Quad(0, 0, 0, 0) then Unspecified
    else
      ByteBack(q.b0); ByteBack(q.b1); ByteBack(q.b2); ByteBack(q.b3);
      Dotted(Bytes(q))
  }

  // ----- parsing -----

  /** At least one number and at most `left`, between dots, each of them a byte. */
  function Numbers(s: string, left: nat): Option<seq<int>>
    requires left > 0
    decreases left
  {
    match Lead(s)
    case None => None
    case Some((n, rest)) =>
      if n > 255 then None
      else if rest == "" then Some([n])
      else if rest[0] != '.' || left == 1 then None
      else Prepend([n], Numbers(rest[1..], left - 1))
  }

  function Prepend(done: seq<int>, r: Option<seq<int>>): Option<seq<int>> {
    match r
    case None => None
    case Some(bs) => Some(done + bs)
  }

  predicate AreBytes(bs: seq<int>) {
    forall i :: 0 <= i < |bs| ==> 0 <= bs[i] <= 255
  }

  lemma MoreBytes(n: nat, r: Option<seq<int>>)
    requires n <= 255 && (r.Some? ==> AreBytes(r.value))
    ensures Prepend([n], r).Some? ==> AreBytes(Prepend([n], r).value)
  {
  }

  lemma {:induction false} NumbersAreBytes(s: string, left: nat)
    requires left > 0
    ensures Numbers(s, left).Some? ==> AreBytes(Numbers(s, left).value)
    decreases left
  {
    if Lead(s).Some? {
      var (n, rest) := Lead(s).value;
      hide Lead, Prepend;
      if n <= 255 && rest != "" && left > 1 {
        NumbersAreBytes(rest[1..], left - 1);
        MoreBytes(n, Numbers(rest[1..], left - 1));
      }
    }
  }

  function ParseBytes(s: string): (r: Option<seq<int>>)
    ensures r.Some? ==> |r.value| == 4 && forall i :: 0 <= i < 4 ==> 0 <= r.value[i] <= 255
  {
    if s == Unspecified then Some([0, 0, 0, 0])
    else
      var r := Numbers(s, 4);
      NumbersAreBytes(s, 4);
      if r.Some? && |r.value| == 4 then r else None
  }

  function Parse(s: string): Option<Quad> {
    match ParseBytes(s)
    case None => None
    case Some(bs) => Some(QuadOf(bs))
  }

  lemma {:induction false} DottedReadsBack(bs: seq<int>, left: nat)
    requires 0 < |bs| <= left && forall i :: 0 <= i < |bs| ==> 0 <= bs[i] <= 255
    ensures Numbers(Dotted(bs), left) == Some(bs)
  {
    hide Lead, Value, Dec, AllDigits;
    DecRoundTrip(bs[0]);
    var t := Dec(bs[0]);
    if |bs| == 1 {
      LeadOf(t, "");
      assert t + "" == t && bs == [bs[0]];
    } else {
      var rest := "." + Dotted(bs[1..]);
      assert Dotted(bs) == t + rest;
      assert rest[1..] == Dotted(bs[1..]);
      LeadOf(t, rest);
      hide Dotted;
      DottedReadsBack(bs[1..], left - 1);
      assert bs == [bs[0]] + bs[1..];
    }
  }

  /** Every address: parsing its text restores it. */
  lemma PrintedReadsBack(q: Quad)
    ensures Parse(Str(q)) == Some(q)
  {
    BytesBack(q);
    hide Numbers, Dotted, QuadOf, Bytes;
    if q == Quad(0, 0, 0, 0) {
      ZeroQuad();
    } else {
      DottedReadsBack(Bytes(q), 4);
      DottedIsNumber(Bytes(q));
    }
  }

  lemma ZeroQuad()
    ensures QuadOf([0, 0, 0, 0]) == Quad(0, 0, 0, 0)
  {
  }

  lemma DottedIsNumber(bs: seq<int>)
    requires bs != [] && forall i :: 0 <= i < |bs| ==> bs[i] >= 0
    ensures Dotted(bs) != Unspecified
  {
    DecRoundTrip(bs[0]);
    assert Dotted(bs)[0] == Dec(bs[0])[0];
  }

  // ----- what a text denotes -----

  function JoinDots(ts: seq<string>): string {
    if |ts| == 0 then "" else if |ts| == 1 then ts[0] else ts[0] + "." + JoinDots(ts[1..])
  }

  /** A string of digits, with leading zeros or not, whose value is a byte. */
  predicate ByteText(t: string, b: int) {
    t != "" && AllDigits(t) && Value(t) == b <= 255
  }

  predicate ByteTexts(ts: seq<string>, bs: seq<int>) {
    |ts| == |bs| && forall i :: 0 <= i < |ts| ==> ByteText(ts[i], bs[i])
  }

  ghost predicate DotForm(s: string, bs: seq<int>, ts: seq<string>) {
    ByteTexts(ts, bs) && s == JoinDots(ts)
  }

  ghost predicate Denotes(s: string, q: Quad) {
    || (s == Unspecified && q == Quad(0, 0, 0, 0))
    || (exists bs, ts :: DotForm(s, bs, ts) && |bs| == 4 && AreBytes(bs) && q == QuadOf(bs))
  }

  lemma {:induction false} FormIsRead(ts: seq<string>, bs: seq<int>, left: nat)
    requires 0 < |ts| <= left && ByteTexts(ts, bs)
    ensures Numbers(JoinDots(ts), left) == Some(bs)
    decreases |ts|
  {
    hide Lead, Value, AllDigits;
    var t := ts[0];
    assert ByteText(t, bs[0]);
    if |ts| == 1 {
      LeadOf(t, "");
      assert t + "" == t && bs == [bs[0]];
    } else {
      var rest := "." + JoinDots(ts[1..]);
      assert JoinDots(ts) == t + rest && rest[1..] == JoinDots(ts[1..]);
      LeadOf(t, rest);
      FormIsRead(ts[1..], bs[1..], left - 1);
      assert bs == [bs[0]] + bs[1..];
    }
  }

  lemma LeadDigits(s: string)
    requires Lead(s).Some?
    ensures var (n, rest) := Lead(s).value;
            var k := |s| - |rest|;
            0 < k <= |s| && rest == s[k..] && AllDigits(s[..k]) && Value(s[..k]) == n
  {
  }

  lemma NumbersUnfold(s: string, left: nat, n: nat, rest: string)
    requires left > 0 && Numbers(s, left).Some? && Lead(s) == Some((n, rest))
    ensures n <= 255
    ensures rest == "" ==> Numbers(s, left) == Some([n])
    ensures rest != "" ==> rest[0] == '.' && left > 1 && Numbers(s, left) == Prepend([n], Numbers(rest[1..], left - 1))
  {
    hide Lead, Prepend;
  }

  /** One turn: a number up to a dot or the end. */
  lemma NumbersTurn(s: string, left: nat) returns (t: string, n: nat, rest: string)
    requires left > 0 && Numbers(s, left).Some?
    ensures ByteText(t, n) && s == t + rest
    ensures rest == "" ==> Numbers(s, left) == Some([n])
    ensures rest != "" ==> rest[0] == '.' && left > 1 && Numbers(s, left) == Prepend([n], Numbers(rest[1..], left - 1))
  {
    LeadDigits(s);
    n, rest := Lead(s).value.0, Lead(s).value.1;
    t := s[..|s| - |rest|];
    NumbersUnfold(s, left, n, rest);
    hide Lead, Value, AllDigits, Numbers;
    assert s == t + s[|s| - |rest|..];
  }

  lemma {:induction false} ReadHasForm(s: string, left: nat) returns (ts: seq<string>)
    requires left > 0 && Numbers(s, left).Some?
    ensures ts != [] && DotForm(s, Numbers(s, left).value, ts)
    decreases left
  {
    var t, n, rest := NumbersTurn(s, left);
    hide Numbers, ByteText;
    if rest == "" {
      ts := [t];
      assert t + "" == t;
    } else {
      var us := ReadHasForm(rest[1..], left - 1);
      ts := [t] + us;
      FormCons(t, n, us, Numbers(rest[1..], left - 1).value);
      BehindDot(t, rest);
    }
  }

  lemma BehindDot(t: string, rest: string)
    requires rest != "" && rest[0] == '.'
    ensures t + rest == t + "." + rest[1..]
  {
    assert rest == "." + rest[1..];
  }

  lemma FormCons(t: string, b: int, us: seq<string>, bs: seq<int>)
    requires ByteText(t, b) && ByteTexts(us, bs) && us != []
    ensures ByteTexts([t] + us, [b] + bs) && JoinDots([t] + us) == t + "." + JoinDots(us)
  {
    hide ByteText;
    assert ([t] + us)[1..] == us;
  }

  lemma FormIsNoWord(s: string, bs: seq<int>, ts: seq<string>)
    requires DotForm(s, bs, ts) && ts != []
    ensures s != Unspecified
  {
    assert ByteText(ts[0], bs[0]);
    assert s[0] == ts[0][0] && IsDigit(ts[0][0]);
  }

  /** Every text and every address: the parser accepts exactly four byte numbers between dots and the word for the null address. */
  lemma ParserIsNotation(s: string, q: Quad)
    ensures Parse(s) == Some(q) <==> Denotes(s, q)
  {
    ZeroQuad();
    hide Numbers, QuadOf, JoinDots, ByteTexts;
    if Parse(s) == Some(q) && s != Unspecified {
      var ts := ReadHasForm(s, 4);
      assert DotForm(s, ParseBytes(s).value, ts);
    }
    if bs, ts :| DotForm(s, bs, ts) && |bs| == 4 && AreBytes(bs) && q == QuadOf(bs) {
      FourTexts(ts, bs);
      FormIsNoWord(s, bs, ts);
      FormIsRead(ts, bs, 4);
    }
  }

  lemma FourTexts(ts: seq<string>, bs: seq<int>)
    requires ByteTexts(ts, bs) && |bs| == 4
    ensures |ts| == 4
  {
  }

  predicate DigitsAndDots(s: string) {
    forall i :: 0 <= i < |s| ==> IsDigit(s[i]) || s[i] == '.'
  }

  lemma LeadText(s: string)
    requires Lead(s).Some?
    ensures var (_, rest) := Lead(s).value; |rest| <= |s| && rest == s[|s| - |rest|..] && AllDigits(s[..|s| - |rest|])
  {
  }

  lemma {:induction false} NumbersText(s: string, left: nat)
    requires left > 0 && Numbers(s, left).Some?
    ensures DigitsAndDots(s)
    decreases left
  {
    LeadText(s);
    var (_, rest) := Lead(s).value;
    var k := |s| - |rest|;
    hide Lead;
    if rest != "" {
      NumbersText(rest[1..], left - 1);
    }
    forall i | 0 <= i < |s| ensures IsDigit(s[i]) || s[i] == '.' {
      if i < k { assert s[i] == s[..k][i]; }
      else if i > k { assert s[i] == rest[1..][i - k - 1]; }
    }
  }

  /** No text of an IPv4 address has a colon. */
  lemma ColonIsNoQuad(s: string, i: nat)
    requires i < |s| && s[i] == ':'
    ensures Parse(s) == None
  {
    if i < |Unspecified| {
      assert Unspecified[i] != ':';
    }
    if Numbers(s, 4).Some? {
      NumbersText(s, 4);
    }
  }

  lemma PrependTwice(a: seq<int>, b: seq<int>, r: Option<seq<int>>)
    ensures Prepend(a, Prepend(b, r)) == Prepend(a + b, r) && Prepend([], r) == r
  {
    if r.Some? {
      assert a + (b + r.value) == a + b + r.value && [] + r.value == r.value;
    }
  }

  /** The loops of the source; numbers are not bounded here. */
  method ParseIPAddress(text: string, tobytes: array<int>) returns (ok: bool)
    requires tobytes.Length == 4
    modifies tobytes
    ensures ParseBytes(text) == if ok then Some(tobytes[..]) else None
  {
    if text == Unspecified {
      tobytes[0], tobytes[1], tobytes[2], tobytes[3] := 0, 0, 0, 0;
      assert tobytes[..] == [0, 0, 0, 0];
      return true;
    }
    var n := ReadNumbers(text, tobytes);
    ok := n == 4;
    assert ok ==> tobytes[..4] == tobytes[..];
  }

  /** The outer loop; the number of bytes stored, or 0 if the text is no list of numbers. */
  method ReadNumbers(text: string, tobytes: array<int>) returns (n: nat)
    requires tobytes.Length == 4
    modifies tobytes
    ensures n <= 4 && Numbers(text, 4) == if n == 0 then None else Some(tobytes[..n])
  {
    var s, i, more := text, 0, true;
    ghost var done: seq<int> := [];
    PrependTwice([], [], Numbers(text, 4));
    hide Prepend, Lead, Numbers;
    while more
      invariant 0 <= i <= 4 && tobytes[..i] == done
      invariant more ==> i < 4 && Numbers(text, 4) == Prepend(done, Numbers(s, 4 - i))
      invariant !more ==> i > 0 && Numbers(text, 4) == Some(done)
      decreases 4 - i, more
    {
      var none, num, rest := ReadNumber(s);
      NextNumber(s, 4 - i, done, none, num, rest);
      if none || num > 255 { return 0; }
      PutByte(tobytes, i, num);
      i, done := i + 1, done + [num];
      if rest == "" {
        more := false;
      } else {
        if rest[0] != '.' || i == 4 { return 0; }
        s := rest[1..];
      }
    }
    return i;
  }

  method PutByte(tobytes: array<int>, i: nat, num: int)
    requires i < tobytes.Length
    modifies tobytes
    ensures tobytes[..i + 1] == old(tobytes[..i]) + [num]
  {
    tobytes[i] := num;
  }

  /** One turn of the loop. */
  lemma NextNumber(s: string, left: nat, done: seq<int>, none: bool, n: nat, rest: string)
    requires left > 0 && Lead(s) == if none then None else Some((n, rest))
    ensures none || n > 255 ==> Prepend(done, Numbers(s, left)) == None
    ensures !none && n <= 255 && rest == "" ==> Prepend(done, Numbers(s, left)) == Some(done + [n])
    ensures !none && n <= 255 && rest != "" && (rest[0] != '.' || left == 1) ==> Prepend(done, Numbers(s, left)) == None
    ensures !none && n <= 255 && rest != "" && rest[0] == '.' && left > 1 ==>
      Prepend(done, Numbers(s, left)) == Prepend(done + [n], Numbers(rest[1..], left - 1))
  {
    hide Lead;
    if !none && rest != "" && left > 1 {
      PrependTwice(done, [n], Numbers(rest[1..], left - 1));
    }
  }

  method ReadNumber(s: string) returns (none: bool, num: nat, rest: string)
    ensures Lead(s) == if none then None else Some((num, rest))
  {
    var end := 0;
    num, none := 0, s == "" || !IsDigit(s[0]);
    while end < |s| && IsDigit(s[end])
      invariant 0 <= end <= |s| && AllDigits(s[..end]) && num == Value(s[..end]) && (none ==> end == 0)
    {
      assert s[..end + 1][..end] == s[..end];
      num := 10 * num + DigitValue(s[end]);
      end := end + 1;
    }
    rest := s[end..];
    if !none {
      LeadOf(s[..end], rest);
      assert s[..end] + rest == s;
    }
  }
}
