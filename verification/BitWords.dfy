/**
 Masks and bits of one 32-bit word, for the prefixes of addresses.

 Bits are counted from the left: bit 0 is the most significant one, and bit `j` is what
 `j` left shifts bring to that place.  The first bit of a word and the rest of it are
 treated apart, so that every law about bits is an induction over the shifts.
 */
module BitWords {

  predicate Top(w: bv32) {
    w >= 0x8000_0000
  }

  function Next(w: bv32): bv32 {
    w << 1
  }

  predicate WordBit(w: bv32, j: bv8)
    requires j < 32
    decreases j
  {
    if j == 0 then Top(w) else WordBit(Next(w), j - 1)
  }

  /** The first `k` bits of a word. */
  function WordMask(k: bv8): bv32
    requires k <= 32
  {
    if k == 0 then 0 else 0xFFFF_FFFF << (32 - k)
  }

  function Keep(a: bv32, m: bv32): bv32 {
    a & m
  }

  function Drop(a: bv32, m: bv32): bv32 {
    a & !m
  }

  function Join(a: bv32, b: bv32): bv32 {
    a | b
  }

  /** `f` where the mask has ones, `a` elsewhere. */
  function MixWord(a: bv32, f: bv32, m: bv32): bv32 {
    Join(Drop(a, m), Keep(f, m))
  }

  function Differences(x: bv32, y: bv32): bv32 {
    x ^ y
  }

  /** Where two words differ inside a mask. */
  function Clash(x: bv32, y: bv32, m: bv32): bv32 {
    (x ^ y) & m
  }

  predicate AllZero(p: bv32, q: bv32, r: bv32, s: bv32) {
    p | q | r | s == 0
  }

  // ----- the first bit of a word, and the rest -----

  lemma KeepFirst(a: bv32, m: bv32)
    ensures Top(Keep(a, m)) <==> Top(a) && Top(m)
  {
  }

  lemma KeepRest(a: bv32, m: bv32)
    ensures Next(Keep(a, m)) == Keep(Next(a), Next(m))
  {
  }

  lemma DropOne(a: bv32, m: bv32)
    requires Top(a) && !Top(m)
    ensures Top(Drop(a, m))
  {
  }

  lemma DropOnly(a: bv32, m: bv32)
    requires Top(Drop(a, m))
    ensures Top(a) && !Top(m)
  {
  }

  lemma DropRest(a: bv32, m: bv32)
    ensures Next(Drop(a, m)) == Drop(Next(a), Next(m))
  {
  }

  lemma JoinOne(a: bv32, b: bv32)
    requires Top(a)
    ensures Top(Join(a, b)) && Top(Join(b, a))
  {
  }

  lemma JoinNone(a: bv32, b: bv32)
    requires !Top(a) && !Top(b)
    ensures !Top(Join(a, b))
  {
  }

  lemma JoinRest(a: bv32, b: bv32)
    ensures Next(Join(a, b)) == Join(Next(a), Next(b))
  {
  }

  lemma DifferencesFirst(x: bv32, y: bv32)
    ensures Top(Differences(x, y)) <==> Top(x) != Top(y)
  {
  }

  lemma DifferencesRest(x: bv32, y: bv32)
    ensures Next(Differences(x, y)) == Differences(Next(x), Next(y))
  {
  }

  lemma MaskFirst(k: bv8)
    requires k <= 32
    ensures Top(WordMask(k)) <==> k > 0
  {
  }

  lemma MaskRest(k: bv8)
    requires 0 < k <= 32
    ensures Next(WordMask(k)) == WordMask(k - 1)
  {
  }

  lemma ZeroRest()
    ensures Next(WordMask(0)) == WordMask(0)
  {
  }

  // ----- every bit -----

  lemma {:induction false} WordMaskBit(k: bv8, j: bv8)
    requires k <= 32 && j < 32
    ensures WordBit(WordMask(k), j) <==> j < k
    decreases j
  {
    hide Top, Next, WordMask;
    if j == 0 {
      MaskFirst(k);
    } else if k == 0 {
      ZeroRest();
      WordMaskBit(0, j - 1);
    } else {
      MaskRest(k);
      WordMaskBit(k - 1, j - 1);
    }
  }

  lemma {:induction false} KeepBit(a: bv32, m: bv32, j: bv8)
    requires j < 32
    ensures WordBit(Keep(a, m), j) <==> WordBit(a, j) && WordBit(m, j)
    decreases j
  {
    hide Top, Next, Keep;
    if j == 0 {
      KeepFirst(a, m);
    } else {
      KeepRest(a, m);
      KeepBit(Next(a), Next(m), j - 1);
    }
  }

  lemma {:induction false} DropBit(a: bv32, m: bv32, j: bv8)
    requires j < 32
    ensures WordBit(Drop(a, m), j) <==> WordBit(a, j) && !WordBit(m, j)
    decreases j
  {
    hide Top, Next, Drop;
    if j == 0 {
      if Top(Drop(a, m)) {
        DropOnly(a, m);
      } else if Top(a) && !Top(m) {
        DropOne(a, m);
      }
    } else {
      DropRest(a, m);
      DropBit(Next(a), Next(m), j - 1);
    }
  }

  lemma {:induction false} JoinBit(a: bv32, b: bv32, j: bv8)
    requires j < 32
    ensures WordBit(Join(a, b), j) <==> WordBit(a, j) || WordBit(b, j)
    decreases j
  {
    hide Top, Next, Join;
    if j == 0 {
      if Top(a) {
        JoinOne(a, b);
      } else if Top(b) {
        JoinOne(b, a);
      } else {
        JoinNone(a, b);
      }
    } else {
      JoinRest(a, b);
      JoinBit(Next(a), Next(b), j - 1);
    }
  }

  lemma MixBit(a: bv32, f: bv32, m: bv32, j: bv8)
    requires j < 32
    ensures WordBit(MixWord(a, f, m), j) <==> if WordBit(m, j) then WordBit(f, j) else WordBit(a, j)
  {
    hide WordBit, Join, Drop, Keep;
    JoinBit(Drop(a, m), Keep(f, m), j);
    DropBit(a, m, j);
    KeepBit(f, m, j);
  }

  lemma {:induction false} DifferencesBit(x: bv32, y: bv32, j: bv8)
    requires j < 32
    ensures WordBit(Differences(x, y), j) <==> WordBit(x, j) != WordBit(y, j)
    decreases j
  {
    hide Top, Next, Differences;
    if j == 0 {
      DifferencesFirst(x, y);
    } else {
      DifferencesRest(x, y);
      DifferencesBit(Next(x), Next(y), j - 1);
    }
  }

  // ----- whole words -----

  lemma KeepDrop(a: bv32, m: bv32)
    ensures Join(Keep(a, m), Drop(a, m)) == a && Keep(Keep(a, m), Drop(a, m)) == 0
  {
  }

  lemma MixParts(a: bv32, f: bv32, m: bv32)
    ensures Keep(MixWord(a, f, m), m) == Keep(f, m)
    ensures Drop(MixWord(a, f, m), m) == Drop(a, m)
  {
  }

  lemma XorUnderMask(x: bv32, y: bv32, m: bv32)
    ensures (x ^ y) & m == 0 <==> x & m == y & m
  {
  }

  lemma ClashWord(x: bv32, y: bv32, m: bv32)
    ensures Clash(x, y, m) == 0 <==> Keep(x, m) == Keep(y, m)
  {
    XorUnderMask(x, y, m);
  }

  lemma AllZeroIff(p: bv32, q: bv32, r: bv32, s: bv32)
    ensures AllZero(p, q, r, s) <==> p == 0 && q == 0 && r == 0 && s == 0
  {
  }

  lemma MaskValues(k: bv8)
    requires 0 < k <= 32
    ensures WordMask(k) == 0xFFFF_FFFF << (32 - k)
    ensures WordMask(32) == 0xFFFF_FFFF && WordMask(0) == 0
  {
  }

  lemma LaterOne(a: bv32)
    requires a != 0 && !Top(a)
    ensures Next(a) != 0
  {
  }

  lemma FirstOnly(a: bv32)
    requires Keep(a, WordMask(0)) == a
    ensures a == 0
  {
  }

  lemma WholeMask(a: bv32)
    ensures Keep(a, WordMask(32)) == a
  {
  }

  /** A word that is not zero but is zero after its first `k` bits has a one among them. */
  lemma {:induction false} SomeBit(a: bv32, k: bv8) returns (j: bv8)
    requires k <= 32 && a != 0 && Keep(a, WordMask(k)) == a
    ensures j < k && j < 32 && WordBit(a, j)
    decreases k
  {
    if k == 0 {
      FirstOnly(a);
      return 0;
    }
    hide Top, Next, Keep, WordMask;
    if Top(a) {
      j := 0;
    } else {
      LaterOne(a);
      KeepRest(a, WordMask(k));
      MaskRest(k);
      var i := SomeBit(Next(a), k - 1);
      j := i + 1;
      assert j - 1 == i;
    }
  }

  lemma NoDifference(x: bv32, y: bv32)
    requires x != y
    ensures Differences(x, y) != 0
  {
  }

  /** Different words differ in some bit. */
  lemma WordsDiffer(x: bv32, y: bv32) returns (j: bv8)
    requires x != y
    ensures j < 32 && WordBit(x, j) != WordBit(y, j)
  {
    NoDifference(x, y);
    WholeMask(Differences(x, y));
    hide WordBit, Differences, Keep, WordMask;
    j := SomeBit(Differences(x, y), 32);
    DifferencesBit(x, y, j);
  }
}
