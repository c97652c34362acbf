module IPv6Prefix {
  // Prefixes of IPv6 addresses.  Bits are numbered from the most significant one, so
  // the first `n` bits are the prefix of length `n`.

  import opened IPv6Address
  import opened BitWords

  type Len = n: bv8 | n <= 128

  // ----- addresses -----

  predicate Bit(a: Words, b: bv8)
    requires b < 128
  {
    if b < 32 then WordBit(a.w0, b)
    else if b < 64 then WordBit(a.w1, b - 32)
    else if b < 96 then WordBit(a.w2, b - 64)
    else WordBit(a.w3, b - 96)
  }

  /** How many of the 32 bits from bit `lo` on belong to a prefix of length `n`. */
  function Part(n: Len, lo: bv8): (k: bv8)
    requires lo <= 96
    ensures k <= 32
  {
    if n <= lo then 0 else if n >= lo + 32 then 32 else n - lo
  }

  function Mask(n: Len): Words {
    Words(WordMask(Part(n, 0)), WordMask(Part(n, 32)), WordMask(Part(n, 64)), WordMask(Part(n, 96)))
  }

  lemma PartBit(n: Len, lo: bv8, b: bv8)
    requires lo <= 96 && lo <= b < lo + 32
    ensures WordBit(WordMask(Part(n, lo)), b - lo) <==> b < n
  {
    hide WordBit, WordMask, Part;
    WordMaskBit(Part(n, lo), b - lo);
    if b < n {
      BeforeEnd(n, lo, b);
    } else {
      BehindEnd(n, lo, b);
    }
  }

  lemma BeforeEnd(n: Len, lo: bv8, b: bv8)
    requires lo <= 96 && lo <= b < lo + 32 && b < n
    ensures b - lo < Part(n, lo)
  {
  }

  lemma BehindEnd(n: Len, lo: bv8, b: bv8)
    requires lo <= 96 && lo <= b < lo + 32 && b >= n
    ensures b - lo >= Part(n, lo)
  {
  }

  /** The mask is ones in exactly the first `n` bits. */
  lemma MaskIsPrefix(n: Len, b: bv8)
    requires b < 128
    ensures Bit(Mask(n), b) <==> b < n
  {
    hide WordBit, WordMask, Part;
    if b < 32 { PartBit(n, 0, b); }
    else if b < 64 { PartBit(n, 32, b); }
    else if b < 96 { PartBit(n, 64, b); }
    else { PartBit(n, 96, b); }
  }

  function GetPrefix(a: Words, n: Len): Words {
    var m := Mask(n);
    Words(Keep(a.w0, m.w0), Keep(a.w1, m.w1), Keep(a.w2, m.w2), Keep(a.w3, m.w3))
  }

  function GetSuffix(a: Words, n: Len): Words {
    var m := Mask(n);
    Words(Drop(a.w0, m.w0), Drop(a.w1, m.w1), Drop(a.w2, m.w2), Drop(a.w3, m.w3))
  }

  function Mix(a: Words, f: Words, m: Words): Words {
    Words(MixWord(a.w0, f.w0, m.w0), MixWord(a.w1, f.w1, m.w1),
          MixWord(a.w2, f.w2, m.w2), MixWord(a.w3, f.w3, m.w3))
  }

  predicate Matches(a: Words, p: Words, n: Len) {
    var m := Mask(n);
    AllZero(Clash(a.w0, p.w0, m.w0), Clash(a.w1, p.w1, m.w1), Clash(a.w2, p.w2, m.w2), Clash(a.w3, p.w3, m.w3))
  }

  // ----- laws -----

  lemma PrefixBits(a: Words, n: Len, b: bv8)
    requires b < 128
    ensures Bit(GetPrefix(a, n), b) <==> b < n && Bit(a, b)
  {
    hide WordBit, Keep, WordMask, Part;
    MaskIsPrefix(n, b);
    var m := Mask(n);
    if b < 32 { KeepBit(a.w0, m.w0, b); }
    else if b < 64 { KeepBit(a.w1, m.w1, b - 32); }
    else if b < 96 { KeepBit(a.w2, m.w2, b - 64); }
    else { KeepBit(a.w3, m.w3, b - 96); }
  }

  /** Prefix and suffix have no bit in common and together make up the address. */
  lemma Recombine(a: Words, n: Len)
    ensures var p, s := GetPrefix(a, n), GetSuffix(a, n);
            && a == Words(Join(p.w0, s.w0), Join(p.w1, s.w1), Join(p.w2, s.w2), Join(p.w3, s.w3))
            && Words(0, 0, 0, 0) == Words(Keep(p.w0, s.w0), Keep(p.w1, s.w1), Keep(p.w2, s.w2), Keep(p.w3, s.w3))
  {
    hide Mask, Keep, Drop, Join;
    var m := Mask(n);
    KeepDrop(a.w0, m.w0);
    KeepDrop(a.w1, m.w1);
    KeepDrop(a.w2, m.w2);
    KeepDrop(a.w3, m.w3);
  }

  lemma MatchesIsEqualPrefix(a: Words, p: Words, n: Len)
    ensures Matches(a, p, n) <==> GetPrefix(a, n) == GetPrefix(p, n)
  {
    hide Mask, Keep, Clash, AllZero;
    var m := Mask(n);
    AllZeroIff(Clash(a.w0, p.w0, m.w0), Clash(a.w1, p.w1, m.w1), Clash(a.w2, p.w2, m.w2), Clash(a.w3, p.w3, m.w3));
    ClashWord(a.w0, p.w0, m.w0);
    ClashWord(a.w1, p.w1, m.w1);
    ClashWord(a.w2, p.w2, m.w2);
    ClashWord(a.w3, p.w3, m.w3);
  }

  lemma Differ(a: Words, b: Words) returns (j: bv8)
    requires a != b
    ensures j < 128 && Bit(a, j) != Bit(b, j)
  {
    hide WordBit;
    if a.w0 != b.w0 { j := WordsDiffer(a.w0, b.w0); }
    else if a.w1 != b.w1 { var i := WordsDiffer(a.w1, b.w1); j := i + 32; }
    else if a.w2 != b.w2 { var i := WordsDiffer(a.w2, b.w2); j := i + 64; }
    else { var i := WordsDiffer(a.w3, b.w3); j := i + 96; }
  }

  /** Matching is agreement on the first `n` bits, and nothing else. */
  lemma MatchesIsBitwise(a: Words, p: Words, n: Len)
    ensures Matches(a, p, n) <==> forall b: bv8 :: b < 128 && b < n ==> Bit(a, b) == Bit(p, b)
  {
    MatchesIsEqualPrefix(a, p, n);
    hide Matches, GetPrefix, Bit;
    if GetPrefix(a, n) == GetPrefix(p, n) {
      forall b: bv8 | b < 128 && b < n ensures Bit(a, b) == Bit(p, b) {
        PrefixBits(a, n, b);
        PrefixBits(p, n, b);
      }
    } else {
      var j := Differ(GetPrefix(a, n), GetPrefix(p, n));
      PrefixBits(a, n, j);
      PrefixBits(p, n, j);
    }
  }

  lemma MatchesShorter(a: Words, p: Words, n: Len, m: Len)
    requires Matches(a, p, n) && m <= n
    ensures Matches(a, p, m)
  {
    MatchesIsBitwise(a, p, n);
    MatchesIsBitwise(a, p, m);
  }

  lemma MixBits(a: Words, f: Words, m: Words, b: bv8)
    requires b < 128
    ensures Bit(Mix(a, f, m), b) <==> if Bit(m, b) then Bit(f, b) else Bit(a, b)
  {
    hide WordBit, MixWord;
    if b < 32 { MixBit(a.w0, f.w0, m.w0, b); }
    else if b < 64 { MixBit(a.w1, f.w1, m.w1, b - 32); }
    else if b < 96 { MixBit(a.w2, f.w2, m.w2, b - 64); }
    else { MixBit(a.w3, f.w3, m.w3, b - 96); }
  }

  /** Mixing by a prefix mask replaces exactly the first `n` bits. */
  lemma MixPrefix(a: Words, f: Words, n: Len, b: bv8)
    requires b < 128
    ensures Bit(Mix(a, f, Mask(n)), b) <==> if b < n then Bit(f, b) else Bit(a, b)
  {
    hide Bit, Mix, Mask;
    MixBits(a, f, Mask(n), b);
    MaskIsPrefix(n, b);
  }

  /** An address is mixed from its own prefix and any address with its suffix. */
  lemma MixRestores(a: Words, f: Words, n: Len)
    ensures GetPrefix(Mix(a, f, Mask(n)), n) == GetPrefix(f, n)
    ensures GetSuffix(Mix(a, f, Mask(n)), n) == GetSuffix(a, n)
  {
    hide Mask, MixWord, Keep, Drop;
    var m := Mask(n);
    MixParts(a.w0, f.w0, m.w0);
    MixParts(a.w1, f.w1, m.w1);
    MixParts(a.w2, f.w2, m.w2);
    MixParts(a.w3, f.w3, m.w3);
  }

  // ----- the operations on objects -----

  /** The case distinction over the four words. */
  method ConstructMask(n: Len, mask: array<bv32>)
    requires mask.Length == 4
    modifies mask
    ensures Words(mask[0], mask[1], mask[2], mask[3]) == Mask(n)
  {
    hide WordMask;
    if n == 0 {
      MaskValues(32);
      mask[0], mask[1], mask[2], mask[3] := 0, 0, 0, 0;
    } else if n <= 32 {
      MaskValues(n);
      mask[0], mask[1], mask[2], mask[3] := 0xFFFF_FFFF << (32 - n), 0, 0, 0;
    } else if n <= 64 {
      MaskValues(n - 32);
      mask[0], mask[1], mask[2], mask[3] := 0xFFFF_FFFF, 0xFFFF_FFFF << (64 - n), 0, 0;
    } else if n <= 96 {
      MaskValues(n - 64);
      mask[0], mask[1], mask[2], mask[3] := 0xFFFF_FFFF, 0xFFFF_FFFF, 0xFFFF_FFFF << (96 - n), 0;
    } else {
      MaskValues(n - 96);
      mask[0], mask[1], mask[2], mask[3] := 0xFFFF_FFFF, 0xFFFF_FFFF, 0xFFFF_FFFF, 0xFFFF_FFFF << (128 - n);
    }
  }

  /** Overwrites the first `n` bits, also when both are the same object. */
  method SetPrefix(a: Address, from: Address, n: Len)
    requires a.Valid() && from.Valid()
    modifies a.d
    ensures a.Value() == Mix(old(a.Value()), old(from.Value()), Mask(n))
  {
    var mask := new bv32[4];
    ConstructMask(n, mask);
    hide Mask, MixWord;
    a.d[0], a.d[1], a.d[2], a.d[3] :=
      MixWord(a.d[0], from.d[0], mask[0]), MixWord(a.d[1], from.d[1], mask[1]),
      MixWord(a.d[2], from.d[2], mask[2]), MixWord(a.d[3], from.d[3], mask[3]);
  }

  /** Overwrites the bits after the first `n`. */
  method SetSuffix(a: Address, from: Address, n: Len)
    requires a.Valid() && from.Valid()
    modifies a.d
    ensures a.Value() == Mix(old(from.Value()), old(a.Value()), Mask(n))
  {
    var mask := new bv32[4];
    ConstructMask(n, mask);
    hide Mask, MixWord;
    a.d[0], a.d[1], a.d[2], a.d[3] :=
      MixWord(from.d[0], a.d[0], mask[0]), MixWord(from.d[1], a.d[1], mask[1]),
      MixWord(from.d[2], a.d[2], mask[2]), MixWord(from.d[3], a.d[3], mask[3]);
  }
}
