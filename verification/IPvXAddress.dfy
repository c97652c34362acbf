/** Addresses of either family: a null address is always kept as an IPv4 one. */
module IPvXAddress {
  import opened Common
  import IPv4Address
  import opened IPv6Address
  import IPv6Text
  import opened WordHalves

  datatype Any = V4(w: bv32) | V6(words: Words)

  const Null6 := Words(0, 0, 0, 0)

  /** What the setters ever store. */
  predicate Normal(a: Any) {
    a.V6? ==> a.words != Null6
  }

  /** A text of groups in hexadecimal always has a colon. */
  lemma RenderHasColon(g: seq<Group>, start: int, end: int) returns (i: nat)
    requires |g| == 8 && 0 <= start <= end <= 8
    ensures i < |Render(g, start, end)| && Render(g, start, end)[i] == ':'
  {
    var l, r := IPv6Text.Join(HexAll(g[..start])), IPv6Text.Join(HexAll(g[end..]));
    hide HexAll;
    if start != end {
      i := |l|;
    } else if start >= 2 {
      i := JoinHasColon(HexAll(g[..start]));
    } else {
      var k := JoinHasColon(HexAll(g[end..]));
      i := |l| + k;
    }
  }

  lemma JoinHasColon(ts: seq<string>) returns (i: nat)
    requires |ts| >= 2
    ensures i < |IPv6Text.Join(ts)| && IPv6Text.Join(ts)[i] == ':'
  {
    i := |ts[0]|;
  }

  class Address {
    var isv6: bool
    var d: seq<bv32>

    ghost predicate Valid()
      reads this
    {
      |d| == 4
    }

    function Value(): Any
      requires Valid()
      reads this
    {
      if isv6 then V6(Words(d[0], d[1], d[2], d[3])) else V4(d[0])
    }

    constructor ()
      ensures Valid() && Value() == V4(0)
    {
      isv6, d := false, [0, 0, 0, 0];
    }

    method Set4(q: IPv4Address.Quad)
      requires Valid()
      modifies this
      ensures Valid() && Value() == V4(IPv4Address.GetInt(q))
    {
      isv6 := false;
      d := d[0 := IPv4Address.GetInt(q)];
    }

    method Set6(w: Words)
      requires Valid()
      modifies this
      ensures Valid() && Normal(Value()) && Value() == if w == Null6 then V4(0) else V6(w)
    {
      if w == Null6 {
        isv6 := false;
        d := d[0 := 0];
        return;
      }
      isv6 := true;
      d := [w.w0, w.w1, w.w2, w.w3];
    }

    /** IPv4 is tried first; the object is left alone when neither notation fits. */
    method TryParse(addr: string) returns (ok: bool)
      requires Valid()
      modifies this
      ensures Valid()
      ensures match IPv4Address.Parse(addr)
              case Some(q) => ok && Value() == V4(IPv4Address.GetInt(q))
              case None =>
                match IPv6Text.TryParse(addr)
                case None => !ok && Value() == old(Value())
                case Some(g) => ok && Value() == if WordsOf(g) == Null6 then V4(0) else V6(WordsOf(g))
    {
      var q := IPv4Address.Parse(addr);
      if q.Some? {
        Set4(q.value);
        return true;
      }
      var ipv6 := new IPv6Address.Address(Null6);
      ok := ipv6.TryParse(addr);
      if ok {
        Set6(ipv6.Value());
      }
    }

    method Str() returns (text: string)
      requires Valid()
      ensures !isv6 ==> text == IPv4Address.Str(IPv4Address.FromInt(d[0]))
      ensures isv6 && Normal(Value()) ==>
        IPv4Address.Parse(text) == None && IPv6Text.TryParse(text) == Some(GroupsOf(Value().words))
    {
      if !isv6 {
        return IPv4Address.Str(IPv4Address.FromInt(d[0]));
      }
      var w := Words(d[0], d[1], d[2], d[3]);
      var a := new IPv6Address.Address(w);
      text := a.Str();
      if w != Null6 {
        ghost var s, e :| 0 <= s <= e <= 8 && IsGap(GroupsOf(w), s, e) && text == Render(GroupsOf(w), s, e);
        ghost var i := RenderHasColon(GroupsOf(w), s, e);
        IPv4Address.ColonIsNoQuad(text, i);
      }
    }
  }

  /** For every address the setters can store, parsing its text restores family and value. */
  method PrintAndParse(a: Address, b: Address) returns (ok: bool)
    requires a.Valid() && b.Valid() && a != b && Normal(a.Value())
    modifies b
    ensures ok && b.Valid() && b.Value() == a.Value() == old(a.Value())
  {
    var text := a.Str();
    ok := b.TryParse(text);
    if a.isv6 {
      WordsOfGroups(a.Value().words);
    } else {
      IPv4Address.PrintedReadsBack(IPv4Address.FromInt(a.d[0]));
      IPv4Address.QuadOfInt(a.d[0]);
    }
  }
}
