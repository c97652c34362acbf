/**
 When a written patch set parses back to itself.

 One direction follows the parser through the written lines; the other counts the lines
 that are read as parts of chunks and compares them with those that were written.
 */
module PatchRoundTrip {
  import opened Common
  import opened Decimal
  import opened PatchSet

  // ----- lines -----

  /** A removed line must not look like a file header when it is written, nor must an added one. */
  predicate Fine(l: ChunkLine) {
    && !(l.kind == Src && StartsWith(l.text, "-- "))
    && !(l.kind == Dst && StartsWith(l.text, "++ "))
  }

  lemma SpanReads(start: nat, len: nat, rest: string)
    requires rest != "" && !IsDigit(rest[0])
    ensures ReadSpan(Span(start, len) + rest) == Some((start, rest))
  {
    DecRoundTrip(start);
    DecRoundTrip(len);
    var a, b := Dec(start), Dec(len);
    hide Dec, Lead, Value, AllDigits;
    var tail := "," + (b + rest);
    assert Span(start, len) + rest == a + tail;
    LeadOf(a, tail);
    assert tail[..1] == "," && tail[1..] == b + rest;
    LeadOf(b, rest);
  }

  lemma HeadSplits(c: Chunk, mid: string)
    requires mid == " +" + (Span(c.dst, DstLen(c.lines)) + " @@")
    ensures var h := Head(c);
            |h| > 4 && h[0] == '@' && h[..4] == "@@ -" && h[4..] == Span(c.src, SrcLen(c.lines)) + mid
    ensures mid[..2] == " +" && mid[2..] == Span(c.dst, DstLen(c.lines)) + " @@"
  {
    hide Span;
    assert Head(c) == "@@ -" + (Span(c.src, SrcLen(c.lines)) + mid);
  }

  lemma HeadReads(c: Chunk)
    ensures Classify(Head(c)) == Start(c.src, c.dst)
  {
    hide ReadSpan, Span, Head;
    var mid := " +" + (Span(c.dst, DstLen(c.lines)) + " @@");
    HeadSplits(c, mid);
    SpanReads(c.src, SrcLen(c.lines), mid);
    SpanReads(c.dst, DstLen(c.lines), " @@");
    assert " @@"[..3] == " @@";
    NotAHeader(Head(c));
  }

  lemma NotAHeader(h: string)
    requires h != "" && h[0] == '@'
    ensures !StartsWith(h, "--- ") && !StartsWith(h, "+++ ")
  {
    assert "--- "[0] == '-' && "+++ "[0] == '+';
    assert |h| >= 4 ==> h[..4][0] == '@';
  }

  lemma LineReads(l: ChunkLine)
    ensures Fine(l) ==> Classify(LineText(l)) == Body(l)
    ensures !Fine(l) ==> !Classify(LineText(l)).Body?
  {
    var s := LineText(l);
    assert s[1..] == l.text && s[..1] == [s[0]];
    NoHead(s);
    HeaderLine(s, l.text);
    hide ReadHead;
    OneChar(s, '-', "-");
    OneChar(s, '+', "+");
    OneChar(s, ' ', " ");
    hide StartsWith;
  }

  lemma NoHead(s: string)
    requires s != "" && s[0] != '@'
    ensures ReadHead(s) == None
  {
    assert "@@ -"[0] == '@';
    if |s| >= 4 {
      assert s[..4][0] == s[0];
    }
  }

  lemma OneChar(s: string, c: char, t: string)
    requires s != "" && t == [c]
    ensures StartsWith(s, t) <==> s[0] == c
  {
    assert s[..1] == [s[0]];
  }

  lemma HeaderLine(s: string, t: string)
    requires s != "" && s[1..] == t
    ensures StartsWith(s, "--- ") <==> s[0] == '-' && StartsWith(t, "-- ")
    ensures StartsWith(s, "+++ ") <==> s[0] == '+' && StartsWith(t, "++ ")
  {
    if |s| >= 4 {
      assert s[..4] == [s[0]] + t[..3];
      assert "--- " == ['-'] + "-- " && "+++ " == ['+'] + "++ ";
      assert s[..4][0] == s[0] && s[..4][1..] == t[..3];
      assert "--- "[0] == '-' && "--- "[1..] == "-- " && "+++ "[0] == '+' && "+++ "[1..] == "++ ";
    }
  }

  /** A head: two numbers and two more behind a minus and a plus sign; of each pair the first one counts. */
  predicate HeadForm(s: string, d1: string, d2: string, d3: string, d4: string, rest: string) {
    && s == "@@ -" + d1 + "," + d2 + " +" + d3 + "," + d4 + " @@" + rest
    && IsNumber(d1) && IsNumber(d2) && IsNumber(d3) && IsNumber(d4)
  }

  predicate IsNumber(d: string) {
    d != "" && AllDigits(d)
  }

  lemma SpanForm(d1: string, d2: string, rest: string)
    requires IsNumber(d1) && IsNumber(d2) && rest != "" && !IsDigit(rest[0])
    ensures ReadSpan(d1 + "," + d2 + rest) == Some((Value(d1), rest))
  {
    hide Lead, Value;
    var tail := "," + (d2 + rest);
    assert d1 + "," + d2 + rest == d1 + tail;
    LeadOf(d1, tail);
    assert tail[..1] == "," && tail[1..] == d2 + rest;
    LeadOf(d2, rest);
  }

  lemma HeadFormReads(s: string, d1: string, d2: string, d3: string, d4: string, rest: string)
    requires HeadForm(s, d1, d2, d3, d4, rest)
    ensures ReadHead(s) == Some((Value(d1), Value(d3)))
  {
    var last := " @@" + rest;
    var back := d3 + "," + d4 + last;
    var mid := " +" + back;
    var span := d1 + "," + d2 + mid;
    hide ReadSpan, Value, AllDigits;
    assert s == "@@ -" + span;
    assert s[..4] == "@@ -" && s[4..] == span;
    SpanForm(d1, d2, mid);
    assert mid[..2] == " +" && mid[2..] == back;
    SpanForm(d3, d4, last);
    assert last[..3] == " @@";
  }

  lemma LeadTakes(s: string) returns (d: string)
    requires Lead(s).Some?
    ensures IsNumber(d) && s == d + Lead(s).value.1 && Lead(s).value.0 == Value(d)
  {
    var k := DigitRun(s);
    d := s[..k];
    assert s == s[..k] + s[k..];
  }

  lemma SpanTakes(s: string) returns (d1: string, d2: string)
    requires ReadSpan(s).Some?
    ensures IsNumber(d1) && IsNumber(d2) && s == d1 + "," + d2 + ReadSpan(s).value.1 && ReadSpan(s).value.0 == Value(d1)
  {
    hide Lead, Value, AllDigits;
    d1 := LeadTakes(s);
    var rest := Lead(s).value.1;
    d2 := LeadTakes(rest[1..]);
    assert rest == "," + rest[1..];
  }

  lemma HeadTakes(s: string) returns (d1: string, d2: string, d3: string, d4: string, rest: string)
    requires ReadHead(s).Some?
    ensures HeadForm(s, d1, d2, d3, d4, rest) && ReadHead(s) == Some((Value(d1), Value(d3)))
  {
    hide ReadSpan, Value, AllDigits;
    d1, d2 := SpanTakes(s[4..]);
    var mid := ReadSpan(s[4..]).value.1;
    d3, d4 := SpanTakes(mid[2..]);
    var last := ReadSpan(mid[2..]).value.1;
    rest := last[3..];
    assert s == "@@ -" + s[4..] && mid == " +" + mid[2..] && last == " @@" + rest;
    Joined("@@ -", d1, d2, d3, d4, rest);
  }

  lemma Joined(h: string, d1: string, d2: string, d3: string, d4: string, rest: string)
    ensures h + (d1 + "," + d2 + (" +" + (d3 + "," + d4 + (" @@" + rest))))
         == h + d1 + "," + d2 + " +" + d3 + "," + d4 + " @@" + rest
  {
  }

  /** Every line: it is read as the head of a chunk exactly if it has the form of one. */
  lemma ReadHeadIff(s: string, a: nat, b: nat)
    ensures ReadHead(s) == Some((a, b)) <==>
              exists d1, d2, d3, d4, rest :: HeadForm(s, d1, d2, d3, d4, rest) && Value(d1) == a && Value(d3) == b
  {
    hide ReadHead;
    if ReadHead(s) == Some((a, b)) {
      var d1, d2, d3, d4, rest := HeadTakes(s);
      HeadFormNumbers(s, d1, d2, d3, d4, rest);
      assert HeadForm(s, d1, d2, d3, d4, rest) && Value(d1) == a && Value(d3) == b;
    }
    if d1, d2, d3, d4, rest :| HeadForm(s, d1, d2, d3, d4, rest) && Value(d1) == a && Value(d3) == b {
      HeadFormReads(s, d1, d2, d3, d4, rest);
    }
  }

  lemma HeadFormNumbers(s: string, d1: string, d2: string, d3: string, d4: string, rest: string)
    requires HeadForm(s, d1, d2, d3, d4, rest)
    ensures AllDigits(d1) && AllDigits(d3)
  {
  }

  /** The lines of a chunk that belong to one side of it. */
  function Side(ls: seq<ChunkLine>, k: Kind): seq<ChunkLine> {
    if ls == [] then [] else (if ls[0].kind == k || ls[0].kind == Both then [ls[0]] else []) + Side(ls[1..], k)
  }

  /** The written head gives the start and the number of lines of either side. */
  lemma HeadCounts(c: Chunk)
    ensures HeadForm(Head(c), Dec(c.src), Dec(|Side(c.lines, Src)|), Dec(c.dst), Dec(|Side(c.lines, Dst)|), "")
  {
    SideCounts(c.lines);
    var a, b, d, e := c.src, |Side(c.lines, Src)|, c.dst, |Side(c.lines, Dst)|;
    DecRoundTrip(a);
    DecRoundTrip(b);
    DecRoundTrip(d);
    DecRoundTrip(e);
    hide Dec, AllDigits, Value;
    assert Head(c) == "@@ -" + Dec(a) + "," + Dec(b) + " +" + Dec(d) + "," + Dec(e) + " @@" + "";
  }

  lemma {:induction false} SideCounts(ls: seq<ChunkLine>)
    ensures SrcLen(ls) == |Side(ls, Src)| && DstLen(ls) == |Side(ls, Dst)|
  {
    if ls != [] {
      SideCounts(ls[1..]);
    }
  }

  /** Every line: it is of no kind exactly if it begins like none, and a chunk line begins with its sign. */
  lemma ClassifyLaw(s: string)
    ensures Classify(s) == Unknown <==> (s == "" || s[0] !in {'-', '+', ' '}) && ReadHead(s) == None
    ensures Classify(s).Body? ==> s == LineText(Classify(s).l)
    ensures Classify(s).SrcFile? ==> s == "--- " + Classify(s).name
    ensures Classify(s).DstFile? ==> s == "+++ " + Classify(s).name
    ensures Classify(s).Start? ==> ReadHead(s) == Some((Classify(s).src, Classify(s).dst))
  {
    hide ReadHead;
    if s != "" {
      OneChar(s, '-', "-");
      OneChar(s, '+', "+");
      OneChar(s, ' ', " ");
      HeaderLine(s, s[1..]);
      assert s == [s[0]] + s[1..];
    }
  }

  /** The parser fails on a line that fits nothing and on one that has no patch or chunk to go to, and on no other. */
  lemma FeedFailsIff(s: State, item: Item)
    requires Placed(s)
    ensures Feed(s, item) == None <==>
              || item.Unknown?
              || ((item.DstFile? || item.Start?) && s.patches == [])
              || (item.Body? && s.current == None)
  {
  }

  // ----- text -----

  lemma {:induction false} EndOfLine(l: string, rest: string)
    requires '\n' !in l
    ensures LineEnd(l + "\n" + rest) == |l|
  {
    var t := l + "\n" + rest;
    if l != "" {
      assert t[1..] == l[1..] + "\n" + rest;
      EndOfLine(l[1..], rest);
    }
  }

  lemma {:induction false} LinesReadBack(lines: seq<string>)
    requires forall i :: 0 <= i < |lines| ==> '\n' !in lines[i]
    ensures LinesOf(Written(lines)) == lines
  {
    if lines != [] {
      var l, rest := lines[0], Written(lines[1..]);
      var t := Written(lines);
      EndOfLine(l, rest);
      assert t == l + "\n" + rest && t[..|l|] == l && t[|l| + 1..] == rest;
      LinesReadBack(lines[1..]);
      if rest == "" {
        assert lines[1..] == [];
      }
    }
  }

  // ----- what the parser does with a written set -----

  function Then(r: Option<State>, lines: seq<string>): Option<State>
    requires r.Some? ==> Placed(r.value)
  {
    if r.None? then None else FeedAll(r.value, lines)
  }

  lemma {:induction false} FeedAppend(s: State, a: seq<string>, b: seq<string>)
    requires Placed(s)
    ensures FeedAll(s, a + b) == Then(FeedAll(s, a), b)
    decreases |a|
  {
    hide Classify, Feed;
    if a == [] {
      assert a + b == b;
    } else {
      assert (a + b)[1..] == a[1..] + b && (a + b)[0] == a[0];
      var r := Feed(s, Classify(a[0]));
      if r.Some? {
        FeedAppend(r.value, a[1..], b);
      }
    }
  }

  // Adding things one after the other is adding them at once.

  lemma AddNothing(ps: seq<Patch>, i: nat, k: nat)
    requires i < |ps| && k < |ps[i].chunks|
    ensures AddToPatch(ps, i, k, []) == ps
  {
    var c := ps[i].chunks[k];
    assert c.lines + [] == c.lines;
    assert ps[i].chunks[k := c] == ps[i].chunks;
  }

  lemma AddTwice(ps: seq<Patch>, i: nat, k: nat, a: seq<ChunkLine>, b: seq<ChunkLine>)
    requires i < |ps| && k < |ps[i].chunks|
    ensures AddToPatch(AddToPatch(ps, i, k, a), i, k, b) == AddToPatch(ps, i, k, a + b)
  {
    AddTwiceToChunk(ps[i].chunks, k, a, b);
    hide AddToChunk;
  }

  lemma AddTwiceToChunk(cs: seq<Chunk>, k: nat, a: seq<ChunkLine>, b: seq<ChunkLine>)
    requires k < |cs|
    ensures AddToChunk(AddToChunk(cs, k, a), k, b) == AddToChunk(cs, k, a + b)
  {
    assert cs[k].lines + a + b == cs[k].lines + (a + b);
  }

  lemma AddToNew(ps: seq<Patch>, a: nat, b: nat, ls: seq<ChunkLine>)
    requires ps != []
    ensures var n := |ps| - 1;
            AddToPatch(PushChunks(ps, [Chunk(a, b, [])]), n, |ps[n].chunks|, ls) == PushChunks(ps, [Chunk(a, b, ls)])
  {
    var cs := ps[|ps| - 1].chunks;
    assert [] + ls == ls;
    assert (cs + [Chunk(a, b, [])])[|cs| := Chunk(a, b, ls)] == cs + [Chunk(a, b, ls)];
  }

  lemma PushTwice(ps: seq<Patch>, a: seq<Chunk>, b: seq<Chunk>)
    requires ps != []
    ensures PushChunks(PushChunks(ps, a), b) == PushChunks(ps, a + b) && PushChunks(ps, []) == ps
  {
    var cs := ps[|ps| - 1].chunks;
    assert cs + a + b == cs + (a + b) && cs + [] == cs;
  }

  lemma PushToNew(ps: seq<Patch>, p: Patch)
    ensures PushChunks(ps + [Patch(p.src, p.dst, [])], p.chunks) == ps + [p]
  {
    assert [] + p.chunks == p.chunks;
  }

  lemma {:induction false} BodyFeeds(s: State, ls: seq<ChunkLine>)
    requires Placed(s) && s.current.Some? && forall i :: 0 <= i < |ls| ==> Fine(ls[i])
    ensures FeedAll(s, BodyTexts(ls)) == Some(s.(patches := AddToPatch(s.patches, s.current.value.0, s.current.value.1, ls)))
    decreases |ls|
  {
    var (i, k) := s.current.value;
    if ls == [] {
      AddNothing(s.patches, i, k);
    } else {
      LineReads(ls[0]);
      hide Classify, Fine, AddToPatch, LineText;
      var ts := BodyTexts(ls);
      assert ts[0] == LineText(ls[0]) && ts[1..] == BodyTexts(ls[1..]);
      FeedOne(s, ts);
      BodyFeeds(s.(patches := AddToPatch(s.patches, i, k, [ls[0]])), ls[1..]);
      AddTwice(s.patches, i, k, [ls[0]], ls[1..]);
      assert [ls[0]] + ls[1..] == ls;
    }
  }

  /** The state after chunks have been read into the last patch. */
  function WithChunks(s: State, cs: seq<Chunk>): (r: State)
    requires Placed(s) && s.patches != []
    ensures Placed(r) && r.patches != []
  {
    var n := |s.patches| - 1;
    State(PushChunks(s.patches, cs), if cs == [] then s.current else Some((n, |s.patches[n].chunks| + |cs| - 1)))
  }

  predicate FineChunk(c: Chunk) {
    forall i :: 0 <= i < |c.lines| ==> Fine(c.lines[i])
  }

  lemma ChunkFeeds(s: State, c: Chunk)
    requires Placed(s) && s.patches != [] && FineChunk(c)
    ensures FeedAll(s, [Head(c)] + BodyTexts(c.lines)) == Some(WithChunks(s, [c]))
  {
    hide Classify, Head, Fine, BodyTexts, FeedAll;
    HeadReads(c);
    var s1 := WithChunks(s, [Chunk(c.src, c.dst, [])]);
    StartFeeds(s, c);
    hide Feed, WithChunks;
    var lines := [Head(c)] + BodyTexts(c.lines);
    FeedOne(s, lines);
    assert lines[1..] == BodyTexts(c.lines);
    BodyFeeds(s1, c.lines);
  }

  /** The head of a chunk starts one without lines, and lines added to it complete it. */
  lemma StartFeeds(s: State, c: Chunk)
    requires Placed(s) && s.patches != []
    ensures var s1 := WithChunks(s, [Chunk(c.src, c.dst, [])]);
            && Feed(s, Start(c.src, c.dst)) == Some(s1) && s1.current.Some?
            && s1.(patches := AddToPatch(s1.patches, s1.current.value.0, s1.current.value.1, c.lines)) == WithChunks(s, [c])
  {
    AddToNew(s.patches, c.src, c.dst, c.lines);
    hide PushChunks, AddToPatch;
  }

  lemma {:induction false} ChunksFeed(s: State, cs: seq<Chunk>)
    requires Placed(s) && s.patches != [] && forall i :: 0 <= i < |cs| ==> FineChunk(cs[i])
    ensures FeedAll(s, ChunkTexts(cs)) == Some(WithChunks(s, cs))
    decreases |cs|
  {
    if cs == [] {
      PushTwice(s.patches, [], []);
    } else {
      hide Head, FineChunk, FeedAll, BodyTexts, WithChunks;
      var first := [Head(cs[0])] + BodyTexts(cs[0].lines);
      FeedAppend(s, first, ChunkTexts(cs[1..]));
      ChunkFeeds(s, cs[0]);
      ChunksFeed(WithChunks(s, [cs[0]]), cs[1..]);
      WithBoth(s, cs[0], cs[1..]);
      assert [cs[0]] + cs[1..] == cs;
    }
  }

  lemma WithBoth(s: State, c: Chunk, cs: seq<Chunk>)
    requires Placed(s) && s.patches != []
    ensures WithChunks(WithChunks(s, [c]), cs) == WithChunks(s, [c] + cs)
  {
    PushTwice(s.patches, [c], cs);
    hide PushChunks;
  }

  predicate FinePatch(p: Patch) {
    forall i :: 0 <= i < |p.chunks| ==> FineChunk(p.chunks[i])
  }

  lemma HeadersFeed(s: State, p: Patch)
    requires Placed(s)
    ensures FeedAll(s, ["--- " + p.src, "+++ " + p.dst]) == Some(s.(patches := s.patches + [Patch(p.src, p.dst, [])]))
  {
    var a, b := "--- " + p.src, "+++ " + p.dst;
    HeadersRead(p);
    hide Classify, FeedAll;
    FeedOne(s, [a, b]);
    assert [a, b][1..] == [b] && [b][1..] == [];
    var s1, s2 := s.(patches := s.patches + [Patch(p.src, "", [])]), s.(patches := s.patches + [Patch(p.src, p.dst, [])]);
    assert Feed(s, SrcFile(p.src)) == Some(s1);
    FeedOne(s1, [b]);
    assert s1.patches[|s1.patches| - 1 := Patch(p.src, p.dst, [])] == s2.patches;
    assert Feed(s1, DstFile(p.dst)) == Some(s2);
    hide Feed;
    FeedNone(s2);
  }

  lemma FeedNone(s: State)
    requires Placed(s)
    ensures FeedAll(s, []) == Some(s)
  {
  }

  lemma HeadersRead(p: Patch)
    ensures Classify("--- " + p.src) == SrcFile(p.src) && Classify("+++ " + p.dst) == DstFile(p.dst)
  {
    var a, b := "--- " + p.src, "+++ " + p.dst;
    assert a[..4] == "--- " && a[4..] == p.src && b[..4] == "+++ " && b[4..] == p.dst;
    HeaderLine(b, b[1..]);
    hide ReadHead;
  }

  predicate AllFine(ps: seq<Patch>) {
    forall i :: 0 <= i < |ps| ==> FinePatch(ps[i])
  }

  lemma PatchFeeds(s: State, p: Patch) returns (s': State)
    requires Placed(s) && FinePatch(p)
    ensures Placed(s') && FeedAll(s, PatchTexts(p)) == Some(s') && s'.patches == s.patches + [p]
  {
    hide FeedAll, FineChunk, PushChunks, ChunkTexts;
    FeedAppend(s, ["--- " + p.src, "+++ " + p.dst], ChunkTexts(p.chunks));
    HeadersFeed(s, p);
    var s1 := s.(patches := s.patches + [Patch(p.src, p.dst, [])]);
    ChunksFeed(s1, p.chunks);
    PushToNew(s.patches, p);
    s' := WithChunks(s1, p.chunks);
  }

  lemma {:induction false} PatchesFeed(s: State, ps: seq<Patch>)
    requires Placed(s) && AllFine(ps)
    ensures FeedAll(s, Texts(ps)).Some? && FeedAll(s, Texts(ps)).value.patches == s.patches + ps
    decreases |ps|
  {
    hide FeedAll, Texts, PatchTexts, FinePatch;
    if ps == [] {
      NoTexts();
      FeedNone(s);
      assert s.patches + ps == s.patches;
    } else {
      var p, rest := ps[0], ps[1..];
      TextsCons(ps);
      var s' := PatchFeeds(s, p);
      FeedOn(s, PatchTexts(p), s', Texts(rest));
      PatchesFeed(s', rest);
      OneMore(s.patches, ps);
    }
  }

  lemma NoTexts()
    ensures Texts([]) == []
  {
  }

  lemma TextsCons(ps: seq<Patch>)
    requires ps != []
    ensures Texts(ps) == PatchTexts(ps[0]) + Texts(ps[1..])
  {
  }

  lemma FeedOn(s: State, a: seq<string>, s': State, b: seq<string>)
    requires Placed(s) && Placed(s') && FeedAll(s, a) == Some(s')
    ensures FeedAll(s, a + b) == FeedAll(s', b)
  {
    hide FeedAll;
    FeedAppend(s, a, b);
  }

  lemma OneMore(a: seq<Patch>, ps: seq<Patch>)
    requires ps != []
    ensures a + [ps[0]] + ps[1..] == a + ps
  {
  }

  // ----- a set that parses back has only fine lines -----

  function Bodies(lines: seq<string>): nat {
    if lines == [] then 0 else (if Classify(lines[0]).Body? then 1 else 0) + Bodies(lines[1..])
  }

  function ChunkSize(cs: seq<Chunk>): nat {
    if cs == [] then 0 else |cs[0].lines| + ChunkSize(cs[1..])
  }

  function Size(ps: seq<Patch>): nat {
    if ps == [] then 0 else ChunkSize(ps[0].chunks) + Size(ps[1..])
  }

  lemma {:induction false} BodiesAppend(a: seq<string>, b: seq<string>)
    ensures Bodies(a + b) == Bodies(a) + Bodies(b)
  {
    hide Classify;
    if a == [] {
      assert a + b == b;
    } else {
      assert (a + b)[1..] == a[1..] + b;
      BodiesAppend(a[1..], b);
    }
  }

  lemma {:induction false} ChunkSizeUpdate(cs: seq<Chunk>, k: nat, c: Chunk)
    requires k < |cs|
    ensures ChunkSize(cs[k := c]) + |cs[k].lines| == ChunkSize(cs) + |c.lines|
  {
    if k == 0 {
      assert cs[k := c][1..] == cs[1..];
    } else {
      assert cs[k := c][1..] == cs[1..][k - 1 := c];
      ChunkSizeUpdate(cs[1..], k - 1, c);
    }
  }

  lemma {:induction false} SizeUpdate(ps: seq<Patch>, k: nat, p: Patch)
    requires k < |ps|
    ensures Size(ps[k := p]) + ChunkSize(ps[k].chunks) == Size(ps) + ChunkSize(p.chunks)
  {
    if k == 0 {
      assert ps[k := p][1..] == ps[1..];
    } else {
      assert ps[k := p][1..] == ps[1..][k - 1 := p];
      SizeUpdate(ps[1..], k - 1, p);
    }
  }

  lemma {:induction false} ChunkSizeAppend(cs: seq<Chunk>, c: Chunk)
    ensures ChunkSize(cs + [c]) == ChunkSize(cs) + |c.lines|
  {
    if cs == [] {
      assert (cs + [c])[1..] == [];
    } else {
      assert (cs + [c])[1..] == cs[1..] + [c];
      ChunkSizeAppend(cs[1..], c);
    }
  }

  lemma {:induction false} SizeAppend(ps: seq<Patch>, p: Patch)
    ensures Size(ps + [p]) == Size(ps) + ChunkSize(p.chunks)
  {
    if ps == [] {
      assert (ps + [p])[1..] == [];
    } else {
      assert (ps + [p])[1..] == ps[1..] + [p];
      SizeAppend(ps[1..], p);
    }
  }

  /** Every step of the parser adds a line exactly if it reads one. */
  lemma FeedCounts(s: State, item: Item)
    requires Placed(s) && Feed(s, item).Some?
    ensures Size(Feed(s, item).value.patches) == Size(s.patches) + (if item.Body? then 1 else 0)
  {
    hide Size, ChunkSize;
    var n := |s.patches|;
    match item
    case SrcFile(name) => SizeAppend(s.patches, Patch(name, "", [])); NoChunks();
    case DstFile(name) => SizeUpdate(s.patches, n - 1, s.patches[n - 1].(dst := name));
    case Start(a, b) =>
      var p := s.patches[n - 1];
      ChunkSizeAppend(p.chunks, Chunk(a, b, []));
      SizeUpdate(s.patches, n - 1, p.(chunks := p.chunks + [Chunk(a, b, [])]));
    case Body(l) =>
      var (i, k) := s.current.value;
      var p := s.patches[i];
      ChunkSizeUpdate(p.chunks, k, p.chunks[k].(lines := p.chunks[k].lines + [l]));
      SizeUpdate(s.patches, i, p.(chunks := AddToChunk(p.chunks, k, [l])));
  }

  lemma NoChunks()
    ensures ChunkSize([]) == 0
  {
  }

  lemma {:induction false} FeedAllCounts(s: State, lines: seq<string>)
    requires Placed(s) && FeedAll(s, lines).Some?
    ensures Size(FeedAll(s, lines).value.patches) == Size(s.patches) + Bodies(lines)
    decreases |lines|
  {
    hide Size, Classify, Feed;
    if lines != [] {
      FeedCounts(s, Classify(lines[0]));
      FeedAllCounts(Feed(s, Classify(lines[0])).value, lines[1..]);
    }
  }

  lemma {:induction false} BodiesOfLines(ls: seq<ChunkLine>)
    ensures Bodies(BodyTexts(ls)) <= |ls|
    ensures Bodies(BodyTexts(ls)) == |ls| ==> forall i :: 0 <= i < |ls| ==> Fine(ls[i])
  {
    if ls != [] {
      LineReads(ls[0]);
      hide Classify, Fine;
      assert BodyTexts(ls)[1..] == BodyTexts(ls[1..]);
      BodiesOfLines(ls[1..]);
      assert forall i :: 0 < i < |ls| ==> ls[i] == ls[1..][i - 1];
    }
  }

  lemma {:induction false} BodiesOfChunks(cs: seq<Chunk>)
    ensures Bodies(ChunkTexts(cs)) <= ChunkSize(cs)
    ensures Bodies(ChunkTexts(cs)) == ChunkSize(cs) ==> forall i :: 0 <= i < |cs| ==> FineChunk(cs[i])
  {
    if cs != [] {
      HeadReads(cs[0]);
      hide Classify, Fine, Head, BodyTexts;
      var head, body := [Head(cs[0])], BodyTexts(cs[0].lines);
      BodiesAppend(head + body, ChunkTexts(cs[1..]));
      BodiesAppend(head, body);
      assert head[1..] == [];
      BodiesOfLines(cs[0].lines);
      BodiesOfChunks(cs[1..]);
      assert forall i :: 0 < i < |cs| ==> cs[i] == cs[1..][i - 1];
    }
  }

  lemma HeadersAreNoBodies(p: Patch)
    ensures Bodies(["--- " + p.src, "+++ " + p.dst]) == 0
  {
    HeadersFeed(State([], None), p);
    FeedAllCounts(State([], None), ["--- " + p.src, "+++ " + p.dst]);
    hide Bodies, FeedAll;
    SizeAppend([], Patch(p.src, p.dst, []));
  }

  lemma {:induction false} BodiesOfPatches(ps: seq<Patch>)
    ensures Bodies(Texts(ps)) <= Size(ps)
    ensures Bodies(Texts(ps)) == Size(ps) ==> AllFine(ps)
  {
    if ps != [] {
      var p := ps[0];
      hide Classify, FineChunk, ChunkTexts, ChunkSize;
      BodiesAppend(PatchTexts(p), Texts(ps[1..]));
      BodiesAppend(["--- " + p.src, "+++ " + p.dst], ChunkTexts(p.chunks));
      HeadersAreNoBodies(p);
      BodiesOfChunks(p.chunks);
      hide Bodies;
      BodiesOfPatches(ps[1..]);
      assert forall i :: 0 < i < |ps| ==> ps[i] == ps[1..][i - 1];
    }
  }

  // ----- the theorem -----

  /** No line of the written set has a newline of its own. */
  predicate OneLineEach(ps: seq<Patch>) {
    forall i :: 0 <= i < |Texts(ps)| ==> '\n' !in Texts(ps)[i]
  }

  /**
   Every patch set without newlines in its names and lines: parsing the written text
   restores it exactly if no removed line begins with "-- " and no added line with "++ ".
   */
  lemma ParsesBackIff(ps: seq<Patch>)
    requires OneLineEach(ps)
    ensures Parse(Written(Texts(ps))) == Some(ps) <==> AllFine(ps)
  {
    var start := State([], None);
    LinesReadBack(Texts(ps));
    BodiesOfPatches(ps);
    hide Bodies, Texts, Written, LinesOf, AllFine, FeedAll, Size;
    if FeedAll(start, Texts(ps)).Some? {
      FeedAllCounts(start, Texts(ps));
      NoPatches();
    }
    if AllFine(ps) {
      PatchesFeed(start, ps);
      assert [] + ps == ps;
    }
  }

  /** A removed line that begins with "-- ", in a patch of its own. */
  lemma HeaderLikeLineIsLost(t: string)
    requires '\n' !in t
    ensures var ps := [Patch("a", "b", [Chunk(1, 1, [ChunkLine(Src, "-- " + t)])])];
            OneLineEach(ps) && Parse(Written(Texts(ps))) != Some(ps)
  {
    var l := ChunkLine(Src, "-- " + t);
    var c := Chunk(1, 1, [l]);
    var ps := [Patch("a", "b", [c])];
    assert ps[1..] == [] && [c][1..] == [] && [l][1..] == [];
    assert BodyTexts([l]) == [LineText(l)] + BodyTexts([]);
    assert ChunkTexts([c]) == [Head(c)] + BodyTexts([l]) + ChunkTexts([]);
    assert Texts(ps) == PatchTexts(ps[0]) + Texts([]);
    assert Texts(ps) == ["--- " + "a", "+++ " + "b", Head(c), LineText(l)];
    assert '\n' !in Head(c) by {
      DecRoundTrip(SrcLen([l]));
      DecRoundTrip(DstLen([l]));
      DecRoundTrip(1);
    }
    assert '\n' !in LineText(l);
    assert ("-- " + t)[..3] == "-- ";
    assert !Fine(ps[0].chunks[0].lines[0]);
    assert !FineChunk(ps[0].chunks[0]);
    assert !FinePatch(ps[0]);
    ParsesBackIff(ps);
  }

  lemma NoPatches()
    ensures Size([]) == 0
  {
  }
}
