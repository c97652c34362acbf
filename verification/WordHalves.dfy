/**
 The two 16-bit halves of a 32-bit word, and the numbers they stand for.

 An IPv6 address is stored in four words and written in eight groups; the halves are the
 groups.  Words are bit vectors and groups are numbers, and this is the only place where
 the one is turned into the other.
 */
module WordHalves {

  type Group = n: int | 0 <= n <= 0xffff

  function High(d: bv32): bv16 {
    ((d >> 16) & 0xffff) as bv16
  }

  function Low(d: bv32): bv16 {
    (d & 0xffff) as bv16
  }

  function Glue(h: bv16, l: bv16): bv32 {
    ((h as bv32) << 16) + (l as bv32)
  }

  lemma GlueHalves(d: bv32)
    ensures Glue(High(d), Low(d)) == d
  {
  }

  /** The high half counts 65536 times what the low half does. */
  lemma HalvesValue(d: bv32)
    ensures d == (High(d) as bv32) * 0x1_0000 + (Low(d) as bv32)
  {
  }

  lemma GlueSplits(h: bv16, l: bv16)
    ensures High(Glue(h, l)) == h && Low(Glue(h, l)) == l
  {
  }

  function Num(h: bv16): Group {
    h as int
  }

  function FromNum(g: Group): bv16 {
    g as bv16
  }

  lemma NumBack(h: bv16)
    ensures FromNum(Num(h)) == h
  {
  }

  function HighGroup(d: bv32): Group {
    Num(High(d))
  }

  function LowGroup(d: bv32): Group {
    Num(Low(d))
  }

  /** The word made of two groups. */
  function Pack(h: Group, l: Group): bv32 {
    Glue(FromNum(h), FromNum(l))
  }

  lemma PackHalves(d: bv32)
    ensures Pack(HighGroup(d), LowGroup(d)) == d
  {
    NumBack(High(d));
    NumBack(Low(d));
    GlueHalves(d);
  }
}
