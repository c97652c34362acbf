module IPv4Prefix {
  // Prefixes of IPv4 addresses: three ways to compare the first bits of two addresses.
  //
  // The three are a masked comparison of words, a count of equal bits from the left, and the
  // comparison of addresses cut off byte by byte.  Each is shown to be agreement on bits.

  import opened IPv4Address
  import opened BitWords

  /** Two words agree on their first `n` bits. */
  ghost predicate Agree(x: bv32, y: bv32, n: bv8)
    requires n <= 32
  {
    forall j: bv8 :: j < 32 && j < n ==> WordBit(x, j) == WordBit(y, j)
  }

  lemma MaskedIffAgree(x: bv32, y: bv32, n: bv8)
    requires n <= 32
    ensures Keep(x, WordMask(n)) == Keep(y, WordMask(n)) <==> Agree(x, y, n)
  {
    hide WordBit, Keep, WordMask;
    var m := WordMask(n);
    if Keep(x, m) == Keep(y, m) {
      forall j: bv8 | j < 32 && j < n ensures WordBit(x, j) == WordBit(y, j) {
        KeptBits(x, n, j);
        KeptBits(y, n, j);
      }
    } else {
      var j := WordsDiffer(Keep(x, m), Keep(y, m));
      KeptBits(x, n, j);
      KeptBits(y, n, j);
    }
  }

  lemma KeptBits(x: bv32, n: bv8, j: bv8)
    requires n <= 32 && j < 32
    ensures WordBit(Keep(x, WordMask(n)), j) <==> j < n && WordBit(x, j)
  {
    hide WordBit, Keep, WordMask;
    KeepBit(x, WordMask(n), j);
    WordMaskBit(n, j);
  }

  // ----- prefixMatches -----

  function ShiftMask(n: bv8): bv32
    requires 1 <= n <= 31
  {
    !(0xFFFF_FFFF >> n)
  }

  predicate PrefixMatches(a: bv32, b: bv32, n: bv8)
    requires n <= 32
  {
    if n < 1 then true
    else if n > 31 then a == b
    else Keep(a, ShiftMask(n)) == Keep(b, ShiftMask(n))
  }

  lemma ShiftMaskIsMask(n: bv8)
    requires 1 <= n <= 31
    ensures ShiftMask(n) == WordMask(n)
  {
  }

  lemma PrefixMatchesIffAgree(a: bv32, b: bv32, n: bv8)
    requires n <= 32
    ensures PrefixMatches(a, b, n) <==> Agree(a, b, n)
  {
    MaskedIffAgree(a, b, n);
    if 1 <= n <= 31 {
      ShiftMaskIsMask(n);
    } else if n == 32 {
      WholeMask(a);
      WholeMask(b);
    }
    hide Keep, WordMask, ShiftMask, WordBit;
  }

  // ----- numMatchingPrefixBits -----

  predicate BitSet(w: bv32, i: bv8)
    requires i < 32
  {
    w & (1 << i) != 0
  }

  /** `r` bits from the left are equal and the next one is not. */
  ghost predicate MatchCount(a: bv32, b: bv32, r: bv8) {
    r <= 32 && Agree(a, b, r) && (r < 32 ==> WordBit(a, r) != WordBit(b, r))
  }

  /** Counts the equal bits from the left. */
  method NumMatchingPrefixBits(a: bv32, b: bv32) returns (r: bv8)
    ensures MatchCount(a, b, r)
  {
    var res := Differences(a, b);
    hide WordBit, Differences, BitSet;
    r := 0;
    while r < 32
      invariant r <= 32 && Agree(a, b, r)
      decreases 32 - r
    {
      DifferencesBit(a, b, r);
      BitSetIsWordBit(res, r);
      if BitSet(res, 31 - r) { return; }
      Extend(a, b, r);
      r := r + 1;
    }
  }

  lemma Extend(a: bv32, b: bv32, r: bv8)
    requires r < 32 && Agree(a, b, r) && WordBit(a, r) == WordBit(b, r)
    ensures Agree(a, b, r + 1)
  {
    hide WordBit;
  }

  lemma {:induction false} BitSetIsWordBit(w: bv32, j: bv8)
    requires j < 32
    ensures BitSet(w, 31 - j) <==> WordBit(w, j)
    decreases j
  {
    if j == 0 {
      BitSetTop(w);
    } else {
      BitSetNext(w, j);
      hide BitSet, Next;
      BitSetIsWordBit(Next(w), j - 1);
    }
  }

  lemma BitSetTop(w: bv32)
    ensures BitSet(w, 31) <==> Top(w)
  {
  }

  lemma BitSetNext(w: bv32, j: bv8)
    requires 0 < j < 32
    ensures BitSet(w, 31 - j) <==> BitSet(Next(w), 32 - j)
  {
  }

  // ----- keepFirstBits -----

  /** The first `k` bits of a byte. */
  function ByteMask(k: bv8): bv8
    requires k < 8
  {
    !(0xFF >> k)
  }

  function KeepFirst(q: Quad, n: bv8): Quad
    requires n <= 32
  {
    if n > 31 then q
    else if n < 8 then Quad(q.b0 & ByteMask(n), 0, 0, 0)
    else if n < 16 then Quad(q.b0, q.b1 & ByteMask(n - 8), 0, 0)
    else if n < 24 then Quad(q.b0, q.b1, q.b2 & ByteMask(n - 16), 0)
    else Quad(q.b0, q.b1, q.b2, q.b3 & ByteMask(n - 24))
  }

  lemma KeepIn0(b0: bv8, b1: bv8, b2: bv8, b3: bv8, n: bv8)
    requires n < 8
    ensures Word(b0 & ByteMask(n), 0, 0, 0) == Keep(Word(b0, b1, b2, b3), WordMask(n))
  {
  }

  lemma KeepIn1(b0: bv8, b1: bv8, b2: bv8, b3: bv8, n: bv8)
    requires 8 <= n < 16
    ensures Word(b0, b1 & ByteMask(n - 8), 0, 0) == Keep(Word(b0, b1, b2, b3), WordMask(n))
  {
  }

  lemma KeepIn2(b0: bv8, b1: bv8, b2: bv8, b3: bv8, n: bv8)
    requires 16 <= n < 24
    ensures Word(b0, b1, b2 & ByteMask(n - 16), 0) == Keep(Word(b0, b1, b2, b3), WordMask(n))
  {
  }

  lemma KeepIn3(b0: bv8, b1: bv8, b2: bv8, b3: bv8, n: bv8)
    requires 24 <= n < 32
    ensures Word(b0, b1, b2, b3 & ByteMask(n - 24)) == Keep(Word(b0, b1, b2, b3), WordMask(n))
  {
  }

  lemma KeepFirstIsMask(q: Quad, n: bv8)
    requires n <= 32
    ensures GetInt(KeepFirst(q, n)) == Keep(GetInt(q), WordMask(n))
  {
    hide Word, Keep, WordMask, ByteMask;
    if n > 31 {
      WholeMask(GetInt(q));
    } else if n < 8 {
      KeepIn0(q.b0, q.b1, q.b2, q.b3, n);
    } else if n < 16 {
      KeepIn1(q.b0, q.b1, q.b2, q.b3, n);
    } else if n < 24 {
      KeepIn2(q.b0, q.b1, q.b2, q.b3, n);
    } else {
      KeepIn3(q.b0, q.b1, q.b2, q.b3, n);
    }
  }

  lemma CountIffAgree(a: bv32, b: bv32, r: bv8, n: bv8)
    requires MatchCount(a, b, r) && n <= 32
    ensures r >= n <==> Agree(a, b, n)
  {
    hide WordBit;
    if r < n {
      assert r < 32;
    }
  }

  /**
   For every pair of addresses and every length up to 32: the masked comparison, the
   count of matching bits and the comparison of truncated addresses say the same.
   */
  lemma ThreeWaysAgree(a: Quad, b: Quad, n: bv8, r: bv8)
    requires n <= 32 && MatchCount(GetInt(a), GetInt(b), r)
    ensures PrefixMatches(GetInt(a), GetInt(b), n) <==> r >= n
    ensures PrefixMatches(GetInt(a), GetInt(b), n) <==> KeepFirst(a, n) == KeepFirst(b, n)
  {
    hide GetInt, Keep, WordMask, KeepFirst, PrefixMatches, Agree, FromInt;
    PrefixMatchesIffAgree(GetInt(a), GetInt(b), n);
    CountIffAgree(GetInt(a), GetInt(b), r, n);
    MaskedIffAgree(GetInt(a), GetInt(b), n);
    KeepFirstIsMask(a, n);
    KeepFirstIsMask(b, n);
    IntOfQuad(KeepFirst(a, n));
    IntOfQuad(KeepFirst(b, n));
  }

  /** In place: one byte is masked, those behind it are cleared. */
  method KeepFirstBits(addr: array<bv8>, n: bv8)
    requires addr.Length == 4 && n <= 32
    modifies addr
    ensures Quad(addr[0], addr[1], addr[2], addr[3]) == KeepFirst(old(Quad(addr[0], addr[1], addr[2], addr[3])), n)
  {
    hide ByteMask;
    if n > 31 { return; }
    var lenBytes, bits := 0, n;
    if n >= 24 { lenBytes, bits := 3, n - 24; }
    else if n >= 16 { lenBytes, bits := 2, n - 16; }
    else if n >= 8 { lenBytes, bits := 1, n - 8; }
    addr[lenBytes] := addr[lenBytes] & ByteMask(bits);
    var i := lenBytes + 1;
    while i < 4
      invariant lenBytes < i <= 4
      invariant forall k :: 0 <= k < lenBytes ==> addr[k] == old(addr[k])
      invariant addr[lenBytes] == old(addr[lenBytes]) & ByteMask(bits)
      invariant forall k :: lenBytes < k < i ==> addr[k] == 0
    {
      addr[i] := 0;
      i := i + 1;
    }
  }
}
