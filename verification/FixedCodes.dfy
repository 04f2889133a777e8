/** The fixed codes of section 3.2.6 of RFC 1951, and how large decoding tables can become. */
module FixedCodes {
  import opened Words
  import opened Codes
  import opened InflateCodes
  import opened TableLayout
  import opened Inftrees
  import opened InflateBlocks

  // ----- counting lengths -----

  lemma {:induction false} CountConcat(a: seq<nat>, b: seq<nat>, n: nat)
    ensures Count(a + b, n) == Count(a, n) + Count(b, n)
  {
    if b == [] {
      assert a + b == a;
    } else {
      CountConcat(a, b[..|b| - 1], n);
      assert (a + b)[..|a + b| - 1] == a + b[..|b| - 1];
    }
  }

  lemma {:induction false} CountRepeated(x: nat, k: nat, n: nat)
    ensures Count(Repeated(x, k), n) == if x == n then k else 0
  {
    if k > 0 {
      CountRepeated(x, k - 1, n);
      assert Repeated(x, k)[..k - 1] == Repeated(x, k - 1);
    }
  }

  lemma {:induction false} KraftConcat(a: seq<nat>, b: seq<nat>, m: nat)
    ensures KraftSum(a + b, m) == KraftSum(a, m) + KraftSum(b, m)
  {
    if b == [] {
      assert a + b == a;
    } else {
      KraftConcat(a, b[..|b| - 1], m);
      assert (a + b)[..|a + b| - 1] == a + b[..|b| - 1];
    }
  }

  lemma {:induction false} KraftRepeated(x: nat, k: nat, m: nat)
    requires 1 <= x <= m
    ensures KraftSum(Repeated(x, k), m) == k * Pow2(m - x)
  {
    if k > 0 {
      KraftRepeated(x, k - 1, m);
      assert Repeated(x, k)[..k - 1] == Repeated(x, k - 1);
    }
  }

  lemma Powers()
    ensures Pow2(5) == 32 && Pow2(6) == 64 && Pow2(7) == 128 && Pow2(8) == 256 && Pow2(9) == 512
    ensures Pow2(10) == 1024 && Pow2(15) == 32768
  {
    assert Pow2(1) == 2 && Pow2(2) == 4 && Pow2(3) == 8 && Pow2(4) == 16;
    assert Pow2(11) == 2048 && Pow2(12) == 4096 && Pow2(13) == 8192 && Pow2(14) == 16384;
  }

  /** Without codes longer than the root table there are no sub-tables. */
  lemma RootOnly(lens: seq<nat>, root: nat)
    requires Lengths(lens) && Longest(lens, MAXBITS) <= root
    ensures TableSize(lens, root) == Pow2(root)
  {
    hide Stem, Code, Pow2, Longest;
    forall s: nat | s < |lens| ensures lens[s] <= root { LongestBounds(lens, s); }
    forall q: nat | q < Pow2(root) ensures Room(lens, root, q) == 0 { NoRoom(lens, root, q); }
    OffsetSkip(lens, root, 0, Pow2(root));
    OffsetStart(lens, root);
  }

  lemma NoRoom(lens: seq<nat>, root: nat, q: nat)
    requires forall s: nat :: s < |lens| ==> lens[s] <= root
    ensures Room(lens, root, q) == 0
  {
    hide Stem, Code, Pow2;
  }

  lemma LongestIs(lens: seq<nat>, m: nat)
    requires 1 <= m <= MAXBITS && Count(lens, m) > 0 && forall n: nat :: m < n <= MAXBITS ==> Count(lens, n) == 0
    ensures Longest(lens, MAXBITS) == m
  {
    hide Count, Longest;
    var x := Longest(lens, MAXBITS);
    assert x >= m;
  }

  lemma ShortestIs(lens: seq<nat>, m: nat, max: nat)
    requires 1 <= m <= max && Count(lens, m) > 0 && forall n: nat :: 1 <= n < m ==> Count(lens, n) == 0
    ensures Shortest(lens, 1, max) == m
  {
    hide Count, Shortest;
    var x := Shortest(lens, 1, max);
    assert x <= m;
  }

  // ----- the fixed codes -----

  lemma FixedCounts(n: nat)
    ensures Count(FixedLens(), n) == if n == 7 then 24 else if n == 8 then 152 else if n == 9 then 112 else 0
    ensures Count(FixedDists(), n) == if n == 5 then 32 else 0
  {
    hide Count, Repeated;
    var a, b, c, d := Repeated(8, 144), Repeated(9, 112), Repeated(7, 24), Repeated(8, 8);
    CountConcat(a, b, n);
    CountConcat(a + b, c, n);
    CountConcat(a + b + c, d, n);
    CountRepeated(8, 144, n);
    CountRepeated(9, 112, n);
    CountRepeated(7, 24, n);
    CountRepeated(8, 8, n);
    CountRepeated(5, 32, n);
  }

  lemma FixedTaken()
    ensures Taken(FixedLens()) == Pow2(MAXBITS) && Taken(FixedDists()) == Pow2(MAXBITS)
  {
    hide KraftSum, Repeated, Pow2;
    var a, b, c, d := Repeated(8, 144), Repeated(9, 112), Repeated(7, 24), Repeated(8, 8);
    Powers();
    KraftConcat(a, b, MAXBITS);
    KraftConcat(a + b, c, MAXBITS);
    KraftConcat(a + b + c, d, MAXBITS);
    KraftRepeated(8, 144, MAXBITS);
    KraftRepeated(9, 112, MAXBITS);
    KraftRepeated(7, 24, MAXBITS);
    KraftRepeated(8, 8, MAXBITS);
    KraftRepeated(5, 32, MAXBITS);
  }

  /** Both are codes, and their tables need no links. */
  lemma FixedFit()
    ensures Lengths(FixedLens()) && Longest(FixedLens(), MAXBITS) == 9 && !Rejected(LENS, FixedLens())
    ensures RootBits(FixedLens(), 9) == 9 && TableSize(FixedLens(), 9) == 512
    ensures Lengths(FixedDists()) && Longest(FixedDists(), MAXBITS) == 5 && !Rejected(DISTS, FixedDists())
    ensures RootBits(FixedDists(), 5) == 5 && TableSize(FixedDists(), 5) == 32
  {
    hide Count, Taken, TableSize, Pow2, Longest, Shortest;
    forall n: nat ensures Count(FixedLens(), n) == (if n == 7 then 24 else if n == 8 then 152 else if n == 9 then 112 else 0)
                       && Count(FixedDists(), n) == (if n == 5 then 32 else 0) { FixedCounts(n); }
    FixedTaken();
    LongestIs(FixedLens(), 9);
    LongestIs(FixedDists(), 5);
    RootOnly(FixedLens(), 9);
    RootOnly(FixedDists(), 5);
    Powers();
  }

  // ----- a complete code that is refused -----

  /** Thirty distance lengths that make a complete code. */
  function Overfull(): (lens: seq<nat>)
    ensures |lens| == 30
  {
    [1, 2, 3, 4, 7] + Repeated(8, 9) + Repeated(9, 9) + [10, 11, 12, 13, 14, 15, 15]
  }

  lemma CountOne(x: nat, n: nat)
    ensures Count([x], n) == if x == n then 1 else 0
  {
    assert [x][..0] == [];
  }

  lemma CountPair(s: seq<nat>, x: nat, n: nat)
    ensures Count(s + [x], n) == Count(s, n) + if x == n then 1 else 0
  {
    CountConcat(s, [x], n);
    CountOne(x, n);
  }

  lemma FrontCounts(n: nat)
    ensures Count([1, 2, 3, 4, 7], n) == if n == 1 || n == 2 || n == 3 || n == 4 || n == 7 then 1 else 0
    ensures Count([1, 2, 3, 4], n) == if n == 1 || n == 2 || n == 3 || n == 4 then 1 else 0
  {
    hide Count;
    CountOne(1, n);
    CountPair([1], 2, n);
    CountPair([1, 2], 3, n);
    CountPair([1, 2, 3], 4, n);
    CountPair([1, 2, 3, 4], 7, n);
    assert [1] + [2] == [1, 2] && [1, 2] + [3] == [1, 2, 3] && [1, 2, 3] + [4] == [1, 2, 3, 4];
    assert [1, 2, 3, 4] + [7] == [1, 2, 3, 4, 7];
  }

  /** 10, 11, 12, 13, 14, and 15 when k is 6, of the k lengths from 10 on. */
  function Climb(k: nat): (s: seq<nat>)
    ensures |s| == k
  {
    seq(k, i => 10 + i)
  }

  lemma {:induction false} ClimbCounts(k: nat, n: nat)
    ensures Count(Climb(k), n) == if 10 <= n < 10 + k then 1 else 0
  {
    hide Count;
    if k == 0 {
      assert Count([], n) == 0 by { CountNothing(n); }
    } else {
      ClimbCounts(k - 1, n);
      CountPair(Climb(k - 1), 9 + k, n);
      assert Climb(k) == Climb(k - 1) + [9 + k];
    }
  }

  lemma CountNothing(n: nat)
    ensures Count([], n) == 0
  {}

  /** Of the first i lengths, how many are n. */
  lemma OverfullCounts(i: nat, n: nat)
    requires 5 <= i <= 30
    ensures Count(Overfull()[..i], n) ==
            (if n == 1 || n == 2 || n == 3 || n == 4 || n == 7 then 1 else 0) +
            (if n == 8 then (if i <= 14 then i - 5 else 9) else 0) +
            (if n == 9 then (if i <= 14 then 0 else if i <= 23 then i - 14 else 9) else 0) +
            (if 10 <= n < 16 && n < i - 13 then 1 else 0) + (if n == 15 && i == 30 then 1 else 0)
  {
    hide Count, Repeated, Climb;
    var front := [1, 2, 3, 4, 7];
    FrontCounts(n);
    var eights: nat := if i <= 14 then i - 5 else 9;
    var nines: nat := if i <= 14 then 0 else if i <= 23 then i - 14 else 9;
    var more: nat := if i <= 23 then 0 else if i == 30 then 6 else i - 23;
    CountRepeated(8, eights, n);
    CountRepeated(9, nines, n);
    ClimbCounts(more, n);
    CountConcat(front, Repeated(8, eights), n);
    CountConcat(front + Repeated(8, eights), Repeated(9, nines), n);
    CountConcat(front + Repeated(8, eights) + Repeated(9, nines), Climb(more), n);
    var s := front + Repeated(8, eights) + Repeated(9, nines) + Climb(more);
    OverfullFront(i, eights, nines, more);
    if i == 30 { CountPair(s, 15, n); } else { assert s + [] == s; }
  }

  lemma OverfullFront(i: nat, eights: nat, nines: nat, more: nat)
    requires 5 <= i <= 30 && eights == (if i <= 14 then i - 5 else 9)
    requires nines == (if i <= 14 then 0 else if i <= 23 then i - 14 else 9)
    requires more == (if i <= 23 then 0 else if i == 30 then 6 else i - 23)
    ensures Overfull()[..i] ==
            [1, 2, 3, 4, 7] + Repeated(8, eights) + Repeated(9, nines) + Climb(more) + if i == 30 then [15] else []
  {}

  lemma OverfullFirsts()
    ensures var lens := Overfull();
            First(lens, 7) == 120 && First(lens, 8) == 242 && First(lens, 9) == 502 && First(lens, 10) == 1022 &&
            First(lens, 11) == 2046 && First(lens, 12) == 4094 && First(lens, 13) == 8190 && First(lens, 14) == 16382 &&
            First(lens, 15) == 32766
  {
    hide Count, Overfull;
    var lens := Overfull();
    assert lens[..30] == lens;
    forall n: nat ensures Count(lens, n) ==
      (if n == 1 || n == 2 || n == 3 || n == 4 || n == 7 || 10 <= n <= 14 then 1 else if n == 8 || n == 9 then 9
       else if n == 15 then 2 else 0) { OverfullCounts(30, n); }
    assert First(lens, 1) == 0 && First(lens, 2) == 2 && First(lens, 3) == 6 && First(lens, 4) == 14 && First(lens, 5) == 30;
    assert First(lens, 6) == 60 && First(lens, 7) == 120;
  }

  lemma {:induction false} ShrBetween(c: nat, k: nat, q: nat)
    requires q * Pow2(k) <= c < q * Pow2(k) + Pow2(k)
    ensures Shr(c, k) == q
  {
    if k > 0 {
      var p := Pow2(k - 1);
      assert q * Pow2(k) == 2 * (q * p);
      ShrBetween(c / 2, k - 1, q);
    }
  }

  /** The root bits above which a code of more than six bits belongs. */
  function StemOf(s: nat): nat {
    if s <= 6 then 60 else if s <= 10 then 61 else if s <= 15 then 62 else 63
  }

  lemma OverfullStem(s: nat)
    requires 4 <= s < 30
    ensures Occurs(Overfull(), s) && Overfull()[s] > 6 && Stem(Overfull(), 6, s) == StemOf(s)
  {
    hide Count, First, Shr;
    var lens := Overfull();
    OverfullFirsts();
    if s >= 5 { OverfullCounts(s, lens[s]); } else { FrontCounts(7); assert lens[..4] == [1, 2, 3, 4]; }
    Powers();
    assert Pow2(1) == 2 && Pow2(2) == 4 && Pow2(3) == 8 && Pow2(4) == 16;
    ShrBetween(Code(lens, s), lens[s] - 6, StemOf(s));
  }

  lemma DeepestIs(lens: seq<nat>, root: nat, q: nat, s: nat)
    requires Under(lens, root, q, s) && forall x: nat :: Under(lens, root, q, x) ==> lens[x] <= lens[s]
    ensures Deepest(lens, root, q, |lens|) == lens[s]
  {
    hide Under;
    assert s < |lens| by { UnderBound(lens, root, q, s); }
  }

  lemma UnderBound(lens: seq<nat>, root: nat, q: nat, s: nat)
    requires Under(lens, root, q, s)
    ensures s < |lens|
  {}

  lemma OverfullRooms(q: nat)
    requires q < 64
    ensures Room(Overfull(), 6, q) == if q < 60 then 0 else if q < 62 then 4 else if q == 62 then 8 else 512
  {
    hide Stem, Deepest, Pow2;
    var lens := Overfull();
    forall s: nat ensures Under(lens, 6, q, s) <==> 4 <= s < 30 && StemOf(s) == q {
      if 4 <= s < 30 { OverfullStem(s); }
    }
    Powers();
    assert Pow2(2) == 4 && Pow2(3) == 8 by { SmallPowers(); }
    if q < 60 {
      NothingDeep(lens, 6, q);
    } else {
      DeepestIs(lens, 6, q, if q == 60 then 6 else if q == 61 then 10 else if q == 62 then 15 else 29);
    }
  }

  lemma NothingDeep(lens: seq<nat>, root: nat, q: nat)
    requires forall s: nat :: !Under(lens, root, q, s)
    ensures Deepest(lens, root, q, |lens|) == 0
  {
    hide Under;
  }

  /** A complete code for distances, which section 3.2.7 of RFC 1951 allows, whose table inflate_table refuses to build. */
  lemma CompleteRefused()
    ensures Lengths(Overfull()) && Taken(Overfull()) == Pow2(MAXBITS) && !Rejected(DISTS, Overfull())
    ensures RootBits(Overfull(), 6) == 6 && TableSize(Overfull(), 6) == ENOUGH_DISTS && Refused(DISTS, Overfull(), 6)
  {
    hide Count, KraftSum, First, Room, Longest, Shortest, Pow2, Overfull;
    var lens := Overfull();
    assert lens[..30] == lens;
    forall n: nat ensures Count(lens, n) ==
      (if n == 1 || n == 2 || n == 3 || n == 4 || n == 7 || 10 <= n <= 14 then 1 else if n == 8 || n == 9 then 9
       else if n == 15 then 2 else 0) { OverfullCounts(30, n); }
    OverfullFirsts();
    KraftEnd(lens, MAXBITS);
    Powers();
    LongestIs(lens, 15);
    ShortestIs(lens, 1, 15);
    OverfullSize();
    OverfullLengths();
  }

  lemma OverfullLengths()
    ensures Lengths(Overfull())
  {}

  lemma OverfullSize()
    ensures TableSize(Overfull(), 6) == 592
  {
    hide Room, Overfull;
    var lens := Overfull();
    forall q: nat | q < 64
      ensures Room(lens, 6, q) == if q < 60 then 0 else if q < 62 then 4 else if q == 62 then 8 else 512 { OverfullRooms(q); }
    Powers();
    OffsetSkip(lens, 6, 0, 60);
    OffsetStart(lens, 6);
    assert Offset(lens, 6, 61) == Offset(lens, 6, 60) + 4 && Offset(lens, 6, 62) == Offset(lens, 6, 61) + 4;
    assert Offset(lens, 6, 63) == Offset(lens, 6, 62) + 8;
  }
}
