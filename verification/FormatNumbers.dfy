/** The numbers of section 3.2 of RFC 1951, from the rules the section states and not from the tables of the code. */
module FormatNumbers {
  import opened Words
  import opened Codes
  import opened TableLayout
  import opened InflateBlocks
  import opened InflateTokens
  import opened FixedCodes
  import opened Lz77

  // ----- lengths and distances (section 3.2.5) -----

  /** Eight length codes without extra bits, then four codes for each number of them; the last stands for 258 alone. */
  function LengthExtraBits(i: nat): nat {
    if i < 8 || i == 28 then 0 else i / 4 - 1
  }

  /** Four distance codes without extra bits, then two codes for each number of them. */
  function DistanceExtraBits(j: nat): nat {
    if j < 4 then 0 else j / 2 - 1
  }

  lemma ExtraCounts()
    ensures forall i: nat :: i < 29 ==> LEXT[i] == 16 + LengthExtraBits(i)
    ensures forall j: nat :: j < 30 ==> DEXT[j] == 16 + DistanceExtraBits(j)
  {}

  /** The ranges of the length codes follow each other without gap or overlap; only 258 is in a range besides its own. */
  lemma LengthTiles(i: nat)
    requires i < 28
    ensures LBASE[0] == MIN_MATCH && LBASE[28] == MAX_MATCH
    ensures LBASE[i] + Pow2(LengthExtraBits(i)) == if i < 27 then LBASE[i + 1] else MAX_MATCH + 1
  {
    hide Pow2;
    SmallPowers();
  }

  lemma DistanceTiles(j: nat)
    requires j < 30
    ensures DBASE[0] == 1
    ensures DBASE[j] + Pow2(DistanceExtraBits(j)) == if j < 29 then DBASE[j + 1] else 32769
  {
    hide Pow2;
    SmallPowers();
    LargePowers();
  }

  lemma {:induction false} LengthsAscend(i: nat, k: nat)
    requires i <= k < 28
    ensures LBASE[i] <= LBASE[k] && (i < k ==> LBASE[i] + Pow2(LengthExtraBits(i)) <= LBASE[k])
    decreases k
  {
    hide Pow2;
    if i < k {
      LengthsAscend(i, k - 1);
      LengthTiles(k - 1);
    }
  }

  lemma {:induction false} DistancesAscend(j: nat, k: nat)
    requires j <= k < 30
    ensures DBASE[j] <= DBASE[k] && (j < k ==> DBASE[j] + Pow2(DistanceExtraBits(j)) <= DBASE[k])
    decreases k
  {
    hide Pow2;
    if j < k {
      DistancesAscend(j, k - 1);
      DistanceTiles(k - 1);
    }
  }

  /** A length up to 257 has one code and one value of its extra bits. */
  lemma OneLengthPair(len: nat, i: nat, v: nat)
    requires MIN_MATCH <= len < MAX_MATCH && i < 29 && LBASE[i] + v == len && v < Pow2(LengthExtraBits(i))
    ensures i == LengthCode(len) && v == LengthExtra(len).v && LengthExtraBits(i) == LengthExtra(len).n
  {
    hide Pow2, LengthCode;
    var k, x := LengthCode(len), LengthExtra(len);
    ExtraCounts();
    assert LBASE[28] == 258 && x.n == LengthExtraBits(k);
    if i < k { LengthsAscend(i, k); }
    if k < i { LengthsAscend(k, i); }
  }

  /** So has every distance. */
  lemma OneDistancePair(dist: nat, j: nat, v: nat)
    requires 1 <= dist <= 32768 && j < 30 && DBASE[j] + v == dist && v < Pow2(DistanceExtraBits(j))
    ensures j == DistanceCode(dist) && v == DistanceExtra(dist).v && DistanceExtraBits(j) == DistanceExtra(dist).n
  {
    hide Pow2, DistanceCode;
    var k, x := DistanceCode(dist), DistanceExtra(dist);
    ExtraCounts();
    assert x.n == DistanceExtraBits(k);
    if j < k { DistancesAscend(j, k); }
    if k < j { DistancesAscend(k, j); }
  }

  /** The longest match is sent with the code that stands for it alone. */
  lemma LongestCode()
    ensures LengthCode(MAX_MATCH) == 28 && LengthExtra(MAX_MATCH) == ExtraBits(0, 0)
  {
    hide Pow2;
    assert Range(LBASE, 29, 258) == 28;
    assert Pow2(0) == 1 by { SmallPowers(); }
  }

  /** What inflate looks up for a length or distance code, and for the symbols that stand for nothing. */
  lemma SymbolEntries(n: nat)
    ensures forall i: nat :: i < 29 ==> Here(LENS, 257 + i, n) == Entry(16 + LengthExtraBits(i), n, LBASE[i])
    ensures forall j: nat :: j < 30 ==> Here(DISTS, j, n) == Entry(16 + DistanceExtraBits(j), n, DBASE[j])
    ensures Here(LENS, 286, n).op / 64 % 2 == Here(LENS, 287, n).op / 64 % 2 == 1
    ensures Here(DISTS, 30, n).op / 64 % 2 == Here(DISTS, 31, n).op / 64 % 2 == 1
  {
    ExtraCounts();
  }

  // ----- code lengths (section 3.2.7) -----

  /** The order of the lengths of the code-length code: the repeats, then 8 and from there outwards both ways. */
  lemma OrderForm(k: nat)
    requires k < 8
    ensures ORDER[..4] == [16, 17, 18, 0] && |ORDER| == 19
    ensures ORDER[4 + 2 * k] == 8 + k && (k < 7 ==> ORDER[5 + 2 * k] == 7 - k)
  {}

  /** Repeats of 3 to 6, of 3 to 10 and of 11 to 138. */
  lemma RepeatRanges()
    ensures RepeatBase(16) == 3 && RepeatBase(16) + Pow2(RepeatBits(16)) == 7
    ensures RepeatBase(17) == 3 && RepeatBase(17) + Pow2(RepeatBits(17)) == RepeatBase(18)
    ensures RepeatBase(18) + Pow2(RepeatBits(18)) == 139
  {
    hide Pow2;
    SmallPowers();
    LargePowers();
  }

  // ----- the fixed codes (section 3.2.6) -----

  /** The codes themselves, each stretch of symbols counting up from its first code. */
  lemma FixedValues(s: nat)
    requires s < 288
    ensures Code(FixedLens(), s) ==
            if s < 144 then 0x30 + s else if s < 256 then 0x190 + (s - 144) else if s < 280 then s - 256 else 0xc0 + (s - 280)
    ensures FixedLens()[s] == if s < 144 then 8 else if s < 256 then 9 else if s < 280 then 7 else 8
    ensures s < 32 ==> Code(FixedDists(), s) == s && FixedDists()[s] == 5
  {
    hide Count, First, Repeated;
    FixedAre(s);
    FixedFirst();
    FixedBefore(s);
  }

  lemma FixedAre(s: nat)
    requires s < 288
    ensures FixedLens()[s] == if s < 144 then 8 else if s < 256 then 9 else if s < 280 then 7 else 8
    ensures s < 32 ==> FixedDists()[s] == 5
  {}

  lemma FixedFirst()
    ensures First(FixedLens(), 7) == 0 && First(FixedLens(), 8) == 0x30 && First(FixedLens(), 9) == 0x190
    ensures First(FixedDists(), 5) == 0
  {
    hide Count, FixedLens, FixedDists;
    forall n: nat ensures Count(FixedLens(), n) == (if n == 7 then 24 else if n == 8 then 152 else if n == 9 then 112 else 0)
                       && Count(FixedDists(), n) == (if n == 5 then 32 else 0) { FixedCounts(n); }
    var f, g := FixedLens(), FixedDists();
    assert First(f, 2) == 0 && First(f, 3) == 0 && First(f, 4) == 0;
    assert First(f, 5) == 0 && First(f, 6) == 0 && First(f, 7) == 0;
    assert First(g, 2) == 0 && First(g, 3) == 0 && First(g, 4) == 0;
  }

  /** The lengths before symbol s. */
  lemma FixedFront(s: nat)
    requires s < 288
    ensures FixedLens()[..s] ==
            if s < 144 then Repeated(8, s)
            else if s < 256 then Repeated(8, 144) + Repeated(9, s - 144)
            else if s < 280 then Repeated(8, 144) + Repeated(9, 112) + Repeated(7, s - 256)
            else Repeated(8, 144) + Repeated(9, 112) + Repeated(7, 24) + Repeated(8, s - 280)
    ensures s < 32 ==> FixedDists()[..s] == Repeated(5, s)
  {}

  /** How many symbols before s have codes as long as that of s. */
  lemma FixedBefore(s: nat)
    requires s < 288
    ensures Count(FixedLens()[..s], FixedLens()[s]) ==
            if s < 144 then s else if s < 256 then s - 144 else if s < 280 then s - 256 else s - 280 + 144
    ensures s < 32 ==> Count(FixedDists()[..s], 5) == s
  {
    hide Count, Repeated, FixedLens, FixedDists;
    FixedAre(s);
    FixedFront(s);
    var a, b, c, n := Repeated(8, 144), Repeated(9, 112), Repeated(7, 24), FixedLens()[s];
    CountRepeated(8, 144, n);
    CountRepeated(9, 112, n);
    CountRepeated(7, 24, n);
    if s < 144 {
      CountRepeated(8, s, n);
    } else if s < 256 {
      CountConcat(a, Repeated(9, s - 144), n);
      CountRepeated(9, s - 144, n);
    } else {
      CountConcat(a, b, n);
      if s < 280 {
        CountConcat(a + b, Repeated(7, s - 256), n);
        CountRepeated(7, s - 256, n);
      } else {
        CountConcat(a + b, c, n);
        CountConcat(a + b + c, Repeated(8, s - 280), n);
        CountRepeated(8, s - 280, n);
      }
    }
    if s < 32 { CountRepeated(5, s, 5); }
  }
}
