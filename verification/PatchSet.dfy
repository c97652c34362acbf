/**
 Patch sets in unified format: written to text, and parsed back line by line.

 The parser tries its expressions in a fixed order on every line.  The current chunk
 outlives the patch it belongs to, as the variable of the source does.
 */
module PatchSet {
  import opened Common
  import opened Decimal

  datatype Kind = Src | Dst | Both

  datatype ChunkLine = ChunkLine(kind: Kind, text: string)

  datatype Chunk = Chunk(src: nat, dst: nat, lines: seq<ChunkLine>)

  datatype Patch = Patch(src: string, dst: string, chunks: seq<Chunk>)

  // ----- writing -----

  function SrcLen(ls: seq<ChunkLine>): nat {
    if ls == [] then 0 else (if ls[0].kind != Dst then 1 else 0) + SrcLen(ls[1..])
  }

  function DstLen(ls: seq<ChunkLine>): nat {
    if ls == [] then 0 else (if ls[0].kind != Src then 1 else 0) + DstLen(ls[1..])
  }

  function LineText(l: ChunkLine): string {
    (match l.kind
     case Src => "-"
     case Dst => "+"
     case Both => " ") + l.text
  }

  function Head(c: Chunk): string {
    "@@ -" + Span(c.src, SrcLen(c.lines)) + " +" + Span(c.dst, DstLen(c.lines)) + " @@"
  }

  function Span(start: nat, len: nat): string {
    Dec(start) + "," + Dec(len)
  }

  function BodyTexts(ls: seq<ChunkLine>): seq<string> {
    if ls == [] then [] else [LineText(ls[0])] + BodyTexts(ls[1..])
  }

  function ChunkTexts(cs: seq<Chunk>): seq<string> {
    if cs == [] then [] else [Head(cs[0])] + BodyTexts(cs[0].lines) + ChunkTexts(cs[1..])
  }

  function PatchTexts(p: Patch): seq<string> {
    ["--- " + p.src, "+++ " + p.dst] + ChunkTexts(p.chunks)
  }

  function Texts(ps: seq<Patch>): seq<string> {
    if ps == [] then [] else PatchTexts(ps[0]) + Texts(ps[1..])
  }

  /** Each line ends in a newline. */
  function Written(lines: seq<string>): string {
    if lines == [] then "" else lines[0] + "\n" + Written(lines[1..])
  }

  // ----- parsing -----

  /** What the expressions tried in turn make of a line. */
  datatype Item = SrcFile(name: string) | DstFile(name: string) | Start(src: nat, dst: nat) | Body(l: ChunkLine) | Unknown

  predicate StartsWith(s: string, p: string) {
    |p| <= |s| && s[..|p|] == p
  }

  /** A number, a comma and a number; the second is not kept. */
  function ReadSpan(s: string): Option<(nat, string)> {
    match Lead(s)
    case None => None
    case Some((n, rest)) =>
      if !StartsWith(rest, ",") then None
      else match Lead(rest[1..])
        case None => None
        case Some((_, rest')) => Some((n, rest'))
  }

  function ReadHead(s: string): Option<(nat, nat)> {
    if !StartsWith(s, "@@ -") then None
    else match ReadSpan(s[4..])
      case None => None
      case Some((a, rest)) =>
        if !StartsWith(rest, " +") then None
        else match ReadSpan(rest[2..])
          case None => None
          case Some((b, rest')) => if StartsWith(rest', " @@") then Some((a, b)) else None
  }

  function Classify(s: string): Item {
    if StartsWith(s, "--- ") then SrcFile(s[4..])
    else if StartsWith(s, "+++ ") then DstFile(s[4..])
    else match ReadHead(s)
      case Some((a, b)) => Start(a, b)
      case None =>
        if StartsWith(s, "-") then Body(ChunkLine(Src, s[1..]))
        else if StartsWith(s, "+") then Body(ChunkLine(Dst, s[1..]))
        else if StartsWith(s, " ") then Body(ChunkLine(Both, s[1..]))
        else Unknown
  }

  /** The patches so far and the place of the current chunk, which outlives its patch. */
  datatype State = State(patches: seq<Patch>, current: Option<(nat, nat)>)

  predicate Placed(s: State) {
    s.current.Some? ==>
      s.current.value.0 < |s.patches| && s.current.value.1 < |s.patches[s.current.value.0].chunks|
  }

  /** The chunks with lines added to number `k`. */
  function AddToChunk(cs: seq<Chunk>, k: nat, ls: seq<ChunkLine>): (r: seq<Chunk>)
    requires k < |cs|
    ensures |r| == |cs|
  {
    cs[k := cs[k].(lines := cs[k].lines + ls)]
  }

  function AddToPatch(ps: seq<Patch>, i: nat, k: nat, ls: seq<ChunkLine>): (r: seq<Patch>)
    requires i < |ps| && k < |ps[i].chunks|
    ensures |r| == |ps| && |r[i].chunks| == |ps[i].chunks|
  {
    ps[i := ps[i].(chunks := AddToChunk(ps[i].chunks, k, ls))]
  }

  /** The patches with chunks added to the last one. */
  function PushChunks(ps: seq<Patch>, cs: seq<Chunk>): (r: seq<Patch>)
    requires ps != []
    ensures |r| == |ps| && |r[|ps| - 1].chunks| == |ps[|ps| - 1].chunks| + |cs|
    ensures forall i :: 0 <= i < |ps| ==> |ps[i].chunks| <= |r[i].chunks|
  {
    var n := |ps| - 1;
    ps[n := ps[n].(chunks := ps[n].chunks + cs)]
  }

  /** None is an error: a line that fits nothing, or one that has no patch or chunk to go to. */
  function Feed(s: State, item: Item): (r: Option<State>)
    requires Placed(s)
    ensures r.Some? ==> Placed(r.value)
  {
    var n := |s.patches|;
    match item
    case SrcFile(name) => Some(s.(patches := s.patches + [Patch(name, "", [])]))
    case DstFile(name) => if n == 0 then None else Some(s.(patches := s.patches[n - 1 := s.patches[n - 1].(dst := name)]))
    case Start(a, b) =>
      if n == 0 then None
      else Some(State(PushChunks(s.patches, [Chunk(a, b, [])]), Some((n - 1, |s.patches[n - 1].chunks|))))
    case Body(l) =>
      if s.current.None? then None
      else Some(s.(patches := AddToPatch(s.patches, s.current.value.0, s.current.value.1, [l])))
    case Unknown => None
  }

  function FeedAll(s: State, lines: seq<string>): (r: Option<State>)
    requires Placed(s)
    ensures r.Some? ==> Placed(r.value)
    decreases |lines|
  {
    if lines == [] then Some(s)
    else match Feed(s, Classify(lines[0]))
      case None => None
      case Some(s') => FeedAll(s', lines[1..])
  }

  function LinesOf(text: string): seq<string> {
    if text == "" then []
    else
      var k := LineEnd(text);
      [text[..k]] + (if k == |text| then [] else LinesOf(text[k + 1..]))
  }

  function LineEnd(text: string): (k: nat)
    ensures k <= |text| && '\n' !in text[..k] && (k < |text| ==> text[k] == '\n')
  {
    if text == "" || text[0] == '\n' then 0
    else
      var k := 1 + LineEnd(text[1..]);
      assert text[..k] == [text[0]] + text[1..][..k - 1];
      k
  }

  function Parse(text: string): Option<seq<Patch>> {
    match FeedAll(State([], None), LinesOf(text))
    case None => None
    case Some(s) => Some(s.patches)
  }

  method ParsePatchset(lines: seq<string>) returns (r: Option<seq<Patch>>)
    ensures r == match FeedAll(State([], None), lines)
                 case None => None
                 case Some(s) => Some(s.patches)
  {
    var patches: seq<Patch> := [];
    var current: Option<(nat, nat)> := None;
    var i := 0;
    assert lines[0..] == lines;
    while i < |lines|
      invariant 0 <= i <= |lines| && Placed(State(patches, current))
      invariant FeedAll(State(patches, current), lines[i..]) == FeedAll(State([], None), lines)
    {
      assert lines[i..][0] == lines[i] && lines[i..][1..] == lines[i + 1..];
      hide FeedAll, Classify, Feed, Placed;
      FeedOne(State(patches, current), lines[i..]);
      var ok;
      ok, patches, current := FeedLine(patches, current, Classify(lines[i]));
      if !ok { return None; }
      i := i + 1;
    }
    r := Some(patches);
  }

  /** One turn of the loop. */
  method FeedLine(patches: seq<Patch>, current: Option<(nat, nat)>, item: Item)
    returns (ok: bool, patches': seq<Patch>, current': Option<(nat, nat)>)
    requires Placed(State(patches, current))
    ensures Feed(State(patches, current), item) == if ok then Some(State(patches', current')) else None
    ensures ok ==> Placed(State(patches', current'))
  {
    hide PushChunks, AddToPatch;
    ok, patches', current' := true, patches, current;
    match item {
      case SrcFile(name) => patches' := patches + [Patch(name, "", [])];
      case DstFile(name) =>
        ok := patches != [];
        if ok {
          var n := |patches| - 1;
          patches' := patches[n := patches[n].(dst := name)];
        }
      case Start(a, b) =>
        ok := patches != [];
        if ok {
          var n := |patches| - 1;
          current' := Some((n, |patches[n].chunks|));
          patches' := PushChunks(patches, [Chunk(a, b, [])]);
        }
      case Body(l) =>
        ok := current.Some?;
        if ok {
          var (n, k) := current.value;
          patches' := AddToPatch(patches, n, k, [l]);
        }
      case Unknown => ok := false;
    }
  }

  lemma FeedOne(s: State, lines: seq<string>)
    requires Placed(s) && lines != []
    ensures FeedAll(s, lines) ==
            match Feed(s, Classify(lines[0]))
            case None => None
            case Some(s') => FeedAll(s', lines[1..])
  {
    hide Classify, Feed;
  }
}
