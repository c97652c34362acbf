/**
 The layer between the scanner and the parser of the globaliser: it takes white space and
 gcc attributes out of the token stream and hangs them on the token in front of them.
 */
module Lexer {
  import opened Common

  /** What the scanner delivers; every piece carries its text. */
  datatype Raw = Blank(t: string) | AttrWord(t: string) | LeftParen | RightParen | Other(kind: nat, t: string)

  function TextOf(r: Raw): string {
    match r
    case LeftParen => "("
    case RightParen => ")"
    case _ => r.t
  }

  function Text(rs: seq<Raw>): string {
    if rs == [] then "" else TextOf(rs[0]) + Text(rs[1..])
  }

  /** The pieces that are not white space, in order. */
  function Solid(rs: seq<Raw>): seq<Raw> {
    if rs == [] then [] else if rs[0].Blank? then Solid(rs[1..]) else [rs[0]] + Solid(rs[1..])
  }

  lemma {:induction false} SolidAppend(a: seq<Raw>, b: seq<Raw>)
    ensures Solid(a + b) == Solid(a) + Solid(b)
  {
    if a == [] {
      assert a + b == b;
    } else {
      assert (a + b)[1..] == a[1..] + b;
      SolidAppend(a[1..], b);
    }
  }

  // ----- attributes and gaps -----

  /** Pieces taken from the front of a stream, and the rest of it. */
  datatype Taken = Taken(pieces: seq<Raw>, rest: seq<Raw>)

  /** Up to the parenthesis that closes `depth` open ones; None if the stream ends first. */
  function Balanced(s: seq<Raw>, depth: nat): Option<Taken>
    decreases |s|
  {
    if depth == 0 then Some(Taken([], s))
    else if s == [] then None
    else
      var d := if s[0].LeftParen? then depth + 1 else if s[0].RightParen? then depth - 1 else depth;
      match Balanced(s[1..], d)
      case None => None
      case Some(t) => Some(Taken([s[0]] + t.pieces, t.rest))
  }

  function Blanks(s: seq<Raw>): Taken {
    if s == [] || !s[0].Blank? then Taken([], s)
    else
      var t := Blanks(s[1..]);
      Taken([s[0]] + t.pieces, t.rest)
  }

  /** What follows the attribute word; None is the failed assertion, or the scan that never ends. */
  function AttrArgs(s: seq<Raw>): Option<Taken> {
    var b := Blanks(s);
    if b.rest == [] || !b.rest[0].LeftParen? then None
    else match Balanced(b.rest[1..], 1)
      case None => None
      case Some(t) => Some(Taken(b.pieces + [LeftParen] + t.pieces, t.rest))
  }

  /** The white space and the attributes up to the next token. */
  datatype Gap = Gap(blanks: seq<Raw>, attrs: seq<Raw>, rest: seq<Raw>)

  lemma {:induction false} BalancedShrinks(s: seq<Raw>, depth: nat)
    ensures Balanced(s, depth).Some? ==> |Balanced(s, depth).value.rest| <= |s|
    decreases |s|
  {
    if depth > 0 && s != [] {
      BalancedShrinks(s[1..], if s[0].LeftParen? then depth + 1 else if s[0].RightParen? then depth - 1 else depth);
    }
  }

  lemma {:induction false} BlanksSplit(s: seq<Raw>)
    ensures Blanks(s).pieces + Blanks(s).rest == s && Solid(Blanks(s).pieces) == []
  {
    if s == [] || !s[0].Blank? {
      assert [] + s == s;
    } else {
      var b, t := s[0], Blanks(s[1..]);
      BlanksSplit(s[1..]);
      hide Blanks;
      SolidBlank(b, t.pieces);
      Regroup([b], t.pieces, t.rest);
      assert [b] + s[1..] == s;
    }
  }

  lemma SolidBlank(b: Raw, rs: seq<Raw>)
    requires b.Blank?
    ensures Solid([b] + rs) == Solid(rs)
  {
    assert ([b] + rs)[1..] == rs;
  }

  lemma AttrShrinks(s: seq<Raw>)
    ensures AttrArgs(s).Some? ==> |AttrArgs(s).value.rest| <= |s|
  {
    BlanksSplit(s);
    var b := Blanks(s);
    if b.rest != [] {
      BalancedShrinks(b.rest[1..], 1);
    }
  }

  function NextGap(s: seq<Raw>): Option<Gap>
    decreases |s|
  {
    if s == [] then Some(Gap([], [], []))
    else if s[0].Blank? then
      (match NextGap(s[1..])
       case None => None
       case Some(g) => Some(g.(blanks := [s[0]] + g.blanks)))
    else if s[0].AttrWord? then
      AttrShrinks(s[1..]);
      (match AttrArgs(s[1..])
       case None => None
       case Some(a) =>
         match NextGap(a.rest)
         case None => None
         case Some(g) => Some(g.(attrs := [s[0]] + a.pieces + [Blank(" ")] + g.attrs)))
    else Some(Gap([], [], s))
  }

  // ----- the tokens of a stream -----

  /** A token that has been scanned but not returned yet; None as its piece is the end of input. */
  datatype Held = Held(piece: Option<Raw>, lex: seq<Raw>)

  /** A returned token with the text it stands for. */
  datatype Token = Token(piece: Option<Raw>, lex: seq<Raw>)

  function Pick(rest: seq<Raw>): (Option<Raw>, seq<Raw>) {
    if rest == [] then (None, []) else (Some(rest[0]), rest[1..])
  }

  function Own(p: Option<Raw>): seq<Raw> {
    if p.None? then [] else [p.value]
  }

  /** One call with a token held back. */
  function Return(h: Held, s: seq<Raw>): Option<(Token, Held, seq<Raw>)> {
    match NextGap(s)
    case None => None
    case Some(g) =>
      var (p, rest) := Pick(g.rest);
      Some((Token(h.piece, h.lex + g.blanks + g.attrs), Held(p, Own(p)), rest))
  }

  /** The first token is held back; the white space in front of it is put out at once. */
  function First(s: seq<Raw>): Option<(Held, seq<Raw>, seq<Raw>)> {
    match NextGap(s)
    case None => None
    case Some(g) =>
      var (p, rest) := Pick(g.rest);
      Some((Held(p, g.attrs + Own(p)), g.blanks, rest))
  }

  lemma {:induction false} GapShrinks(s: seq<Raw>)
    ensures NextGap(s).Some? ==> |NextGap(s).value.rest| <= |s|
    decreases |s|
  {
    if s != [] {
      if s[0].Blank? {
        GapShrinks(s[1..]);
      } else if s[0].AttrWord? {
        AttrShrinks(s[1..]);
        if AttrArgs(s[1..]).Some? {
          GapShrinks(AttrArgs(s[1..]).value.rest);
        }
      }
    }
  }

  /** All that is returned from here on, up to the end of input. */
  function Returned(h: Held, s: seq<Raw>): Option<seq<Raw>>
    decreases |s|
  {
    GapShrinks(s);
    match Return(h, s)
    case None => None
    case Some((t, h', rest)) =>
      if h'.piece.None? then Some(t.lex)
      else match Returned(h', rest)
        case None => None
        case Some(more) => Some(t.lex + more)
  }

  /** What is put out at first and then returned, token by token. */
  function Delivered(s: seq<Raw>): Option<seq<Raw>> {
    match First(s)
    case None => None
    case Some((h, blanks, rest)) =>
      if h.piece.None? then Some(blanks + h.lex)
      else match Returned(h, rest)
        case None => None
        case Some(more) => Some(blanks + more)
  }

  // ----- nothing is lost -----

  predicate NoAttributes(s: seq<Raw>) {
    forall i :: 0 <= i < |s| ==> !s[i].AttrWord?
  }

  lemma {:induction false} BalancedKeeps(s: seq<Raw>, depth: nat)
    requires Balanced(s, depth).Some?
    ensures Balanced(s, depth).value.pieces + Balanced(s, depth).value.rest == s
    decreases |s|
  {
    if depth > 0 {
      BalancedKeeps(s[1..], if s[0].LeftParen? then depth + 1 else if s[0].RightParen? then depth - 1 else depth);
    }
  }

  lemma AttrKeeps(s: seq<Raw>)
    requires AttrArgs(s).Some?
    ensures AttrArgs(s).value.pieces + AttrArgs(s).value.rest == s
  {
    hide Blanks, Balanced, Solid;
    BlanksSplit(s);
    var b := Blanks(s);
    BalancedKeeps(b.rest[1..], 1);
    var t := Balanced(b.rest[1..], 1).value;
    assert b.rest == [LeftParen] + (t.pieces + t.rest);
    assert b.pieces + [LeftParen] + t.pieces + t.rest == b.pieces + ([LeftParen] + (t.pieces + t.rest));
  }

  /** The same pieces, or at least the same ones that are not white space. */
  predicate Like(exact: bool, a: seq<Raw>, b: seq<Raw>) {
    if exact then a == b else Solid(a) == Solid(b)
  }

  lemma LikeBehind(exact: bool, a: seq<Raw>, b: seq<Raw>, c: seq<Raw>)
    requires Like(exact, b, c)
    ensures Like(exact, a + b, a + c)
  {
    SolidAppend(a, b);
    SolidAppend(a, c);
  }

  lemma Regroup(a: seq<Raw>, b: seq<Raw>, c: seq<Raw>)
    ensures a + b + c == a + (b + c)
  {
  }

  function All(g: Gap): seq<Raw> {
    g.blanks + (g.attrs + g.rest)
  }

  lemma {:induction false} GapBlanks(s: seq<Raw>)
    requires NextGap(s).Some?
    ensures Solid(NextGap(s).value.blanks) == []
    decreases |s|
  {
    hide AttrArgs;
    if s != [] {
      if s[0].Blank? {
        GapBlanks(s[1..]);
        var x := NextGap(s[1..]).value.blanks;
        assert ([s[0]] + x)[1..] == x;
      } else if s[0].AttrWord? {
        AttrShrinks(s[1..]);
        GapBlanks(AttrArgs(s[1..]).value.rest);
      }
    }
  }

  /** A gap and what is behind it are like the stream they were taken from. */
  lemma {:induction false} GapLike(exact: bool, s: seq<Raw>)
    requires NextGap(s).Some? && (exact ==> NoAttributes(s))
    ensures Like(exact, All(NextGap(s).value), s)
    decreases |s|, 1
  {
    if s != [] {
      if s[0].Blank? {
        var g := NextGap(s[1..]).value;
        GapLike(exact, s[1..]);
        LikeBehind(exact, [s[0]], All(g), s[1..]);
        Regroup([s[0]], g.blanks, g.attrs + g.rest);
        assert [s[0]] + s[1..] == s;
      } else if s[0].AttrWord? {
        AttrGapLike(s);
      } else {
        assert [] + ([] + s) == s;
      }
    }
  }

  lemma {:induction false} AttrGapLike(s: seq<Raw>)
    requires NextGap(s).Some? && s != [] && s[0].AttrWord?
    ensures Like(false, All(NextGap(s).value), s)
    decreases |s|, 0
  {
    AttrShrinks(s[1..]);
    AttrKeeps(s[1..]);
    var a := AttrArgs(s[1..]).value;
    GapLike(false, a.rest);
    GapBlanks(a.rest);
    GapBlanks(s);
    var g := NextGap(a.rest).value;
    var front := [s[0]] + a.pieces;
    assert NextGap(s).value == Gap(g.blanks, front + [Blank(" ")] + g.attrs, g.rest);
    assert s == front + a.rest by { Regroup([s[0]], a.pieces, a.rest); }
    hide NextGap, AttrArgs;
    Squeeze(g.blanks, front, g.attrs + g.rest);
    Regroup(front + [Blank(" ")], g.attrs, g.rest);
    LikeBehind(false, front, All(g), a.rest);
    Squeeze(g.blanks, [], g.attrs + g.rest);
    SolidAppend(front, All(g));
    SolidAppend(front, g.attrs + g.rest);
  }

  /** White space does not count, wherever it stands. */
  lemma Squeeze(blanks: seq<Raw>, front: seq<Raw>, x: seq<Raw>)
    requires Solid(blanks) == []
    ensures Solid(blanks + (front + [Blank(" ")] + x)) == Solid(front + x)
    ensures Solid(blanks + x) == Solid(x)
  {
    SolidAppend(blanks, x);
    SolidAppend(blanks, front + [Blank(" ")] + x);
    SolidAppend(front + [Blank(" ")], x);
    SolidAppend(front, [Blank(" ")]);
    SolidAppend(front, x);
    assert Solid([Blank(" ")]) == Solid([]) == [] by { assert [Blank(" ")][1..] == []; }
    hide Solid;
    var f, y := Solid(front), Solid(x);
    assert f + [] == f && [] + y == y && [] + (f + y) == f + y;
  }

  lemma {:induction false} GapSuffix(s: seq<Raw>)
    requires NoAttributes(s)
    ensures NextGap(s).Some? && NoAttributes(NextGap(s).value.rest)
    decreases |s|
  {
    if s != [] && s[0].Blank? {
      GapSuffix(s[1..]);
    }
  }

  /** One call: the text returned, the token held back and the rest are like what there was before. */
  lemma ReturnLike(exact: bool, h: Held, s: seq<Raw>)
    requires Return(h, s).Some? && (exact ==> NoAttributes(s))
    ensures var (t, h', rest) := Return(h, s).value;
            Like(exact, t.lex + (h'.lex + rest), h.lex + s) && (exact ==> NoAttributes(rest))
  {
    GapLike(exact, s);
    if exact { GapSuffix(s); }
    var g := NextGap(s).value;
    var (p, rest) := Pick(g.rest);
    assert Own(p) + rest == g.rest;
    hide NextGap, Solid;
    LikeBehind(exact, h.lex, All(g), s);
    Regroup(h.lex + g.blanks, g.attrs, g.rest);
    Regroup(h.lex, g.blanks, g.attrs + g.rest);
  }

  lemma {:induction false} ReturnedLike(exact: bool, h: Held, s: seq<Raw>)
    requires Returned(h, s).Some? && (exact ==> NoAttributes(s))
    ensures Like(exact, Returned(h, s).value, h.lex + s)
    decreases |s|
  {
    GapShrinks(s);
    ReturnLike(exact, h, s);
    var (t, h', rest) := Return(h, s).value;
    if h'.piece.None? {
      assert h'.lex + rest == [];
      assert t.lex + [] == t.lex;
    } else {
      ReturnedLike(exact, h', rest);
      LikeBehind(exact, t.lex, Returned(h', rest).value, h'.lex + rest);
    }
  }

  /**
   Every stream: with attributes, the pieces that are not white space are delivered in
   their order; without attributes, the very pieces of the input are.
   */
  lemma NothingIsLost(exact: bool, s: seq<Raw>)
    requires Delivered(s).Some? && (exact ==> NoAttributes(s))
    ensures Like(exact, Delivered(s).value, s)
  {
    GapLike(exact, s);
    if exact { GapSuffix(s); }
    var g := NextGap(s).value;
    var (h, blanks, rest) := First(s).value;
    var (p, _) := Pick(g.rest);
    assert Own(p) + rest == g.rest;
    Regroup(g.attrs, Own(p), rest);
    hide NextGap, Solid;
    if h.piece.None? {
      assert rest == [] && h.lex + [] == h.lex;
    } else {
      ReturnedLike(exact, h, rest);
      LikeBehind(exact, blanks, Returned(h, rest).value, h.lex + rest);
    }
  }

  /** Without attributes every stream is delivered byte for byte. */
  lemma ByteForByte(s: seq<Raw>)
    requires NoAttributes(s)
    ensures Delivered(s).Some? && Text(Delivered(s).value) == Text(s)
  {
    GapSuffix(s);
    var (h, _, rest) := First(s).value;
    if h.piece.Some? {
      PlainReturns(h, rest);
    }
    NothingIsLost(true, s);
  }

  lemma {:induction false} PlainReturns(h: Held, s: seq<Raw>)
    requires NoAttributes(s)
    ensures Returned(h, s).Some?
    decreases |s|
  {
    GapSuffix(s);
    GapShrinks(s);
    var (t, h', rest) := Return(h, s).value;
    if h'.piece.Some? {
      PlainReturns(h', rest);
    }
  }

  // ----- the text of a token -----

  /** A piece of white space, or an attribute with its arguments. */
  datatype Seg = White(r: Raw) | Attr(word: Raw, args: seq<Raw>)

  function Flat(segs: seq<Seg>): seq<Raw> {
    if segs == [] then []
    else (match segs[0] case White(r) => [r] case Attr(word, args) => [word] + args) + Flat(segs[1..])
  }

  function Whites(segs: seq<Seg>): seq<Raw> {
    if segs == [] then [] else (if segs[0].White? then [segs[0].r] else []) + Whites(segs[1..])
  }

  /** Each attribute is followed by one blank. */
  function Attrs(segs: seq<Seg>): seq<Raw> {
    if segs == [] then []
    else (if segs[0].Attr? then [segs[0].word] + segs[0].args + [Blank(" ")] else []) + Attrs(segs[1..])
  }

  function Depth(rs: seq<Raw>): int {
    if rs == [] then 0
    else Depth(rs[..|rs| - 1]) + (if rs[|rs| - 1].LeftParen? then 1 else if rs[|rs| - 1].RightParen? then -1 else 0)
  }

  /** Every front of it has a parenthesis open. */
  predicate StaysOpen(rs: seq<Raw>) {
    rs == [] || (Depth(rs) > 0 && StaysOpen(rs[..|rs| - 1]))
  }

  /** White space, and a parenthesis up to the one that closes it. */
  ghost predicate Closed(args: seq<Raw>) {
    exists bs, u :: ClosedAs(args, bs, u)
  }

  predicate ClosedAs(args: seq<Raw>, bs: seq<Raw>, u: seq<Raw>) {
    && args == bs + u + [RightParen] && (forall i :: 0 <= i < |bs| ==> bs[i].Blank?)
    && u != [] && u[0].LeftParen? && StaysOpen(u) && Depth(u) == 1
  }

  ghost predicate Proper(segs: seq<Seg>) {
    forall i :: 0 <= i < |segs| ==>
      match segs[i]
      case White(r) => r.Blank?
      case Attr(word, args) => word.AttrWord? && Closed(args)
  }

  lemma DepthStep(a: seq<Raw>, r: Raw)
    ensures Depth(a + [r]) == Depth(a) + (if r.LeftParen? then 1 else if r.RightParen? then -1 else 0)
  {
    assert (a + [r])[..|a|] == a;
  }

  lemma OpenStep(a: seq<Raw>, r: Raw)
    requires StaysOpen(a)
    ensures StaysOpen(a + [r]) <==> Depth(a + [r]) > 0
  {
    assert (a + [r])[..|a|] == a;
  }

  /** `front` is open at depth `d`, and `Balanced` goes on from there. */
  lemma {:induction false} BalancedCloses(s: seq<Raw>, d: nat, front: seq<Raw>) returns (u: seq<Raw>)
    requires d > 0 && Depth(front) == d && StaysOpen(front) && Balanced(s, d).Some?
    ensures front + Balanced(s, d).value.pieces == u + [RightParen] && StaysOpen(u) && Depth(u) == 1 && front <= u
    decreases |s|
  {
    var r := s[0];
    var d' := if r.LeftParen? then d + 1 else if r.RightParen? then d - 1 else d;
    DepthStep(front, r);
    OpenStep(front, r);
    hide Depth, StaysOpen;
    BalancedStep(s, d);
    if d' == 0 {
      u := front;
    } else {
      u := BalancedCloses(s[1..], d', front + [r]);
      Regroup(front, [r], Balanced(s[1..], d').value.pieces);
    }
  }

  lemma BalancedStep(s: seq<Raw>, d: nat)
    requires d > 0 && Balanced(s, d).Some?
    ensures s != []
    ensures var d' := if s[0].LeftParen? then d + 1 else if s[0].RightParen? then d - 1 else d;
            && Balanced(s[1..], d').Some? && Balanced(s, d).value.pieces == [s[0]] + Balanced(s[1..], d').value.pieces
            && (d' == 0 ==> Balanced(s, d).value.pieces == [RightParen])
  {
  }

  lemma AttrCloses(s: seq<Raw>)
    requires AttrArgs(s).Some?
    ensures Closed(AttrArgs(s).value.pieces)
  {
    BlanksBlank(s);
    var bs, after := Blanks(s).pieces, Blanks(s).rest[1..];
    OneOpen();
    hide Blanks, Balanced, Depth, StaysOpen;
    var u := BalancedCloses(after, 1, [LeftParen]);
    var p := Balanced(after, 1).value.pieces;
    Regroup(bs, [LeftParen], p);
    Regroup(bs, u, [RightParen]);
    assert ClosedAs(AttrArgs(s).value.pieces, bs, u);
  }

  lemma OneOpen()
    ensures Depth([LeftParen]) == 1 && StaysOpen([LeftParen])
  {
    assert [LeftParen][..0] == [];
  }

  lemma {:induction false} BlanksBlank(s: seq<Raw>)
    ensures forall i :: 0 <= i < |Blanks(s).pieces| ==> Blanks(s).pieces[i].Blank?
  {
    if s != [] && s[0].Blank? {
      BlanksBlank(s[1..]);
    }
  }

  ghost predicate GapOf(s: seq<Raw>, g: Gap, segs: seq<Seg>) {
    && s == Flat(segs) + g.rest && g.blanks == Whites(segs) && g.attrs == Attrs(segs)
    && (g.rest != [] ==> !g.rest[0].Blank? && !g.rest[0].AttrWord?)
  }

  lemma WhiteCons(s: seq<Raw>, g: Gap, r: Raw, segs: seq<Seg>)
    requires GapOf(s, g, segs)
    ensures GapOf([r] + s, Gap([r] + g.blanks, g.attrs, g.rest), [White(r)] + segs)
  {
    var more := [White(r)] + segs;
    assert more[1..] == segs;
    Regroup([r], Flat(segs), g.rest);
    assert [] + Attrs(segs) == Attrs(segs);
  }

  lemma AttrCons(s: seq<Raw>, g: Gap, word: Raw, args: seq<Raw>, segs: seq<Seg>)
    requires GapOf(s, g, segs)
    ensures GapOf([word] + (args + s), Gap(g.blanks, [word] + args + [Blank(" ")] + g.attrs, g.rest), [Attr(word, args)] + segs)
  {
    var more := [Attr(word, args)] + segs;
    assert more[1..] == segs;
    Regroup([word] + args, Flat(segs), g.rest);
    Regroup([word], args, s);
    assert [] + Whites(segs) == Whites(segs);
  }

  lemma ProperCons(seg: Seg, segs: seq<Seg>)
    requires Proper(segs) && Proper([seg])
    ensures Proper([seg] + segs)
  {
    hide Closed;
    assert [seg][0] == seg;
    forall i | 0 <= i < |[seg] + segs|
      ensures match ([seg] + segs)[i] case White(r) => r.Blank? case Attr(word, args) => word.AttrWord? && Closed(args)
    {
      if i > 0 { assert ([seg] + segs)[i] == segs[i - 1]; }
    }
  }

  /** What stands in front of a token is white space and attributes with closed parentheses; each kind keeps its order. */
  lemma {:induction false} GapInSegs(s: seq<Raw>) returns (segs: seq<Seg>)
    requires NextGap(s).Some?
    ensures GapOf(s, NextGap(s).value, segs) && Proper(segs)
    decreases |s|
  {
    segs := [];
    hide GapOf, Proper, Closed;
    if s != [] && s[0].Blank? {
      var more := GapInSegs(s[1..]);
      WhiteCons(s[1..], NextGap(s[1..]).value, s[0], more);
      OneProper(White(s[0]));
      ProperCons(White(s[0]), more);
      assert [s[0]] + s[1..] == s;
      segs := [White(s[0])] + more;
    } else if s != [] && s[0].AttrWord? {
      AttrShrinks(s[1..]);
      AttrKeeps(s[1..]);
      AttrCloses(s[1..]);
      var a := AttrArgs(s[1..]).value;
      var seg := Attr(s[0], a.pieces);
      var more := GapInSegs(a.rest);
      AttrCons(a.rest, NextGap(a.rest).value, s[0], a.pieces, more);
      OneProper(seg);
      ProperCons(seg, more);
      assert [s[0]] + (a.pieces + a.rest) == s;
      segs := [seg] + more;
    } else {
      NoSegs(s);
    }
  }

  lemma OneProper(seg: Seg)
    requires match seg case White(r) => r.Blank? case Attr(word, args) => word.AttrWord? && Closed(args)
    ensures Proper([seg])
  {
    hide Closed;
  }

  lemma NoSegs(s: seq<Raw>)
    requires s == [] || (!s[0].Blank? && !s[0].AttrWord?)
    ensures GapOf(s, Gap([], [], s), []) && Proper([])
  {
    assert [] + s == s;
  }

  /**
   The text of a returned token: its own lexeme, then the white space behind it in order, then
   the attributes behind it in order, each with a blank; the next token comes from what is left.
   */
  lemma TokenText(h: Held, s: seq<Raw>) returns (segs: seq<Seg>)
    requires Return(h, s).Some?
    ensures Proper(segs)
    ensures var (t, h', rest) := Return(h, s).value;
            && t.piece == h.piece && t.lex == h.lex + Whites(segs) + Attrs(segs)
            && s == Flat(segs) + Own(h'.piece) + rest && h'.lex == Own(h'.piece) && (h'.piece.None? ==> rest == [])
            && (h'.piece.Some? ==> !h'.piece.value.Blank? && !h'.piece.value.AttrWord?)
  {
    segs := GapInSegs(s);
    hide NextGap, Proper, Flat, Whites, Attrs;
    var rest := NextGap(s).value.rest;
    if rest == [] {
      assert Flat(segs) + [] + [] == Flat(segs) + rest;
    } else {
      assert Flat(segs) + [rest[0]] + rest[1..] == Flat(segs) + rest;
    }
  }

  /** Of the first token: the white space in front of it is put out, and its text begins with the attributes. */
  lemma FirstText(s: seq<Raw>) returns (segs: seq<Seg>)
    requires First(s).Some?
    ensures Proper(segs)
    ensures var (h, blanks, rest) := First(s).value;
            && blanks == Whites(segs) && h.lex == Attrs(segs) + Own(h.piece) && s == Flat(segs) + Own(h.piece) + rest
  {
    segs := GapInSegs(s);
    hide NextGap, Proper, Flat, Whites, Attrs;
    var rest := NextGap(s).value.rest;
    if rest == [] {
      assert Flat(segs) + [] + [] == Flat(segs) + rest;
    } else {
      assert Flat(segs) + [rest[0]] + rest[1..] == Flat(segs) + rest;
    }
  }

  // ----- the object -----

  class Scanner {
    var input: seq<Raw>
    var held: Option<Held>       // the token saved for the next call
    var printed: seq<Raw>        // what went to standard output

    constructor (input: seq<Raw>)
      ensures this.input == input && held == None && printed == []
    {
      this.input, held, printed := input, None, [];
    }

    method SkipBlanks() returns (oa: seq<Raw>)
      modifies this`input
      ensures Taken(oa, input) == Blanks(old(input))
    {
      ghost var start := input;
      oa := [];
      while input != [] && input[0].Blank?
        invariant Put(oa, Blanks(input)) == Blanks(start)
        decreases |input|
      {
        PutTwice(oa, [input[0]], Blanks(input[1..]));
        oa, input := oa + [input[0]], input[1..];
      }
      assert oa + [] == oa;
    }

    method SkipBalanced() returns (ok: bool, oa: seq<Raw>)
      modifies this`input
      ensures Balanced(old(input), 1) == if ok then Some(Taken(oa, input)) else None
    {
      ghost var start := input;
      oa := [];
      var depth := 1;
      PutNothing(Balanced(start, 1));
      while depth > 0
        invariant depth >= 0 && PutAll(oa, Balanced(input, depth)) == Balanced(start, 1)
        decreases |input|, depth
      {
        if input == [] { return false, []; }
        var r := input[0];
        if r.LeftParen? { depth := depth + 1; } else if r.RightParen? { depth := depth - 1; }
        if Balanced(input[1..], depth).Some? {
          PutTwice(oa, [r], Balanced(input[1..], depth).value);
        }
        oa, input := oa + [r], input[1..];
      }
      assert oa + [] == oa;
      ok := true;
    }

    /** The arguments of an attribute; false when the source stops in an assertion or never returns. */
    method ParseAttr() returns (ok: bool, oa: seq<Raw>)
      modifies this`input
      ensures AttrArgs(old(input)) == if ok then Some(Taken(oa, input)) else None
    {
      hide Blanks, Balanced;
      var blanks := SkipBlanks();
      if input == [] || !input[0].LeftParen? { return false, []; }
      input := input[1..];
      ok, oa := SkipBalanced();
      oa := blanks + [LeftParen] + oa;
    }

    /** White space and attributes up to the next token. */
    method SkipGap() returns (ok: bool, os: seq<Raw>, oa: seq<Raw>)
      modifies this`input
      ensures NextGap(old(input)) == if ok then Some(Gap(os, oa, input)) else None
    {
      ghost var start := input;
      os, oa := [], [];
      PutGapNothing(NextGap(start));
      while input != [] && (input[0].Blank? || input[0].AttrWord?)
        invariant PutGap(os, oa, NextGap(input)) == NextGap(start)
        decreases |input|
      {
        var r := input[0];
        AttrShrinks(input[1..]);
        GapStep(os, oa, input);
        hide NextGap, AttrArgs, PutGap;
        input := input[1..];
        if r.Blank? {
          os := os + [r];
        } else {
          var more;
          ok, more := ParseAttr();
          if !ok { return false, [], []; }
          oa := oa + ([r] + more + [Blank(" ")]);
        }
      }
      assert os + [] == os && oa + [] == oa;
      ok := true;
    }

    /** The next token with its text; the first call scans twice. */
    method Yylex() returns (ok: bool, t: Token)
      modifies this
      ensures old(held).Some? ==>
        match Return(old(held).value, old(input))
        case None => !ok
        case Some((t', h, rest)) => ok && t == t' && held == Some(h) && input == rest && printed == old(printed)
      ensures old(held).None? ==>
        match First(old(input))
        case None => !ok
        case Some((h, blanks, rest)) =>
          match Return(h, rest)
          case None => !ok
          case Some((t', h', rest')) => ok && t == t' && held == Some(h') && input == rest' && printed == old(printed) + blanks
    {
      hide NextGap;
      t := Token(None, []);
      var os, oa;
      ok, os, oa := SkipGap();
      if !ok { return; }
      if held.None? {
        var p, rest := None, input;
        if input != [] { p, rest := Some(input[0]), input[1..]; }
        held := Some(Held(p, oa + Own(p)));
        input := rest;
        printed := printed + os;
        ok, os, oa := SkipGap();
        if !ok { return; }
      }
      t := Token(held.value.piece, held.value.lex + os + oa);
      if input == [] {
        held := Some(Held(None, []));
      } else {
        held := Some(Held(Some(input[0]), [input[0]]));
        input := input[1..];
      }
    }
  }

  /** Asks for tokens up to the end of input: what was put out and returned is what the stream delivers. */
  method ReadAll(input: seq<Raw>) returns (ok: bool, text: seq<Raw>)
    ensures Delivered(input) == if ok then Some(text) else None
  {
    var s := new Scanner(input);
    var t;
    FirstCall(input);
    hide First, Return, Returned, Delivered;
    ok, t := s.Yylex();
    text := s.printed + t.lex;
    if !ok { return; }
    assert s.printed == First(input).value.1;
    while t.piece.Some?
      invariant s.held.Some? && AtEnd(s.held.value, s.input)
      invariant t.piece.None? ==> s.held.value.piece.None?
      invariant Delivered(input) == Onto(text, Ahead(s.held.value, s.input))
      decreases |s.input| + (if s.held.value.piece.Some? then 1 else 0) + (if t.piece.Some? then 1 else 0)
    {
      NextCall(s.held.value, s.input, text);
      ok, t := s.Yylex();
      if !ok { return; }
      text := text + t.lex;
    }
    assert text + [] == text;
  }

  /** Behind the end of input there is nothing. */
  predicate AtEnd(h: Held, s: seq<Raw>) {
    h.piece.None? ==> h.lex == [] && s == []
  }

  /** What the calls after this one return. */
  function Ahead(h: Held, s: seq<Raw>): Option<seq<Raw>> {
    if h.piece.None? then Some([]) else Returned(h, s)
  }

  function Onto(a: seq<Raw>, b: Option<seq<Raw>>): Option<seq<Raw>> {
    if b.None? then None else Some(a + b.value)
  }

  lemma FirstCall(input: seq<Raw>)
    ensures match First(input)
            case None => Delivered(input) == None
            case Some((h, blanks, rest)) =>
              match Return(h, rest)
              case None => Delivered(input) == None
              case Some((t, h', rest')) =>
                && Delivered(input) == Onto(blanks + t.lex, Ahead(h', rest')) && AtEnd(h', rest')
                && (t.piece.None? ==> h'.piece.None?)
  {
    if First(input).Some? {
      var (h, blanks, rest) := First(input).value;
      if h.piece.None? {
        assert rest == [];
        assert h.lex + [] + [] == h.lex;
        assert blanks + h.lex + [] == blanks + h.lex;
      } else if Return(h, rest).Some? {
        var (t, h', rest') := Return(h, rest).value;
        StepOnto(h, rest, blanks);
      }
    }
  }

  lemma StepOnto(h: Held, s: seq<Raw>, a: seq<Raw>)
    requires h.piece.Some? && Return(h, s).Some?
    ensures var (t, h', rest) := Return(h, s).value;
            Onto(a, Returned(h, s)) == Onto(a + t.lex, Ahead(h', rest))
  {
    var (t, h', rest) := Return(h, s).value;
    if h'.piece.None? {
      assert a + t.lex + [] == a + t.lex;
    } else if Returned(h', rest).Some? {
      Regroup(a, t.lex, Returned(h', rest).value);
    }
  }

  lemma NextCall(h: Held, s: seq<Raw>, a: seq<Raw>)
    requires AtEnd(h, s)
    ensures match Return(h, s)
            case None => Onto(a, Ahead(h, s)) == None
            case Some((t, h', rest)) =>
              && Onto(a, Ahead(h, s)) == Onto(a + t.lex, Ahead(h', rest)) && AtEnd(h', rest)
              && t.piece == h.piece && (h.piece.None? ==> h'.piece.None?)
              && |rest| + (if h'.piece.Some? then 1 else 0) <= |s|
  {
    GapShrinks(s);
    if h.piece.None? {
      assert [] + [] + [] == h.lex && a + [] + [] == a + [];
    } else if Return(h, s).Some? {
      StepOnto(h, s, a);
    }
  }

  function Put(a: seq<Raw>, t: Taken): Taken {
    Taken(a + t.pieces, t.rest)
  }

  function PutAll(a: seq<Raw>, t: Option<Taken>): Option<Taken> {
    if t.None? then None else Some(Put(a, t.value))
  }

  lemma PutTwice(a: seq<Raw>, b: seq<Raw>, t: Taken)
    ensures Put(a, Put(b, t)) == Put(a + b, t)
  {
    Regroup(a, b, t.pieces);
  }

  lemma PutNothing(t: Option<Taken>)
    ensures PutAll([], t) == t
  {
    if t.Some? {
      assert [] + t.value.pieces == t.value.pieces;
    }
  }

  function PutGap(os: seq<Raw>, oa: seq<Raw>, g: Option<Gap>): Option<Gap> {
    if g.None? then None else Some(Gap(os + g.value.blanks, oa + g.value.attrs, g.value.rest))
  }

  lemma PutGapNothing(g: Option<Gap>)
    ensures PutGap([], [], g) == g
  {
    if g.Some? {
      assert [] + g.value.blanks == g.value.blanks && [] + g.value.attrs == g.value.attrs;
    }
  }

  /** One turn of the loop. */
  lemma GapStep(os: seq<Raw>, oa: seq<Raw>, s: seq<Raw>)
    requires s != []
    ensures s[0].Blank? ==> PutGap(os, oa, NextGap(s)) == PutGap(os + [s[0]], oa, NextGap(s[1..]))
    ensures s[0].AttrWord? ==>
      PutGap(os, oa, NextGap(s)) ==
        match AttrArgs(s[1..])
        case None => None
        case Some(a) => PutGap(os, oa + ([s[0]] + a.pieces + [Blank(" ")]), NextGap(a.rest))
  {
    AttrShrinks(s[1..]);
    if s[0].Blank? && NextGap(s[1..]).Some? {
      Regroup(os, [s[0]], NextGap(s[1..]).value.blanks);
    }
    if s[0].AttrWord? && AttrArgs(s[1..]).Some? {
      var a := AttrArgs(s[1..]).value;
      if NextGap(a.rest).Some? {
        Regroup(oa, [s[0]] + a.pieces + [Blank(" ")], NextGap(a.rest).value.attrs);
      }
    }
  }
}
