/** The Burrows-Wheeler transform and its two inversions. */
module Bwt {
  import opened Rotations

  /** What the encoder transmits: the character preceding each rotation, in sorted order. */
  function LastColumn(s: seq<Byte>, p: seq<nat>): (col: seq<Byte>)
    requires forall i :: 0 <= i < |p| ==> p[i] < |s|
    ensures |col| == |p|
  {
    seq(|p|, i requires 0 <= i < |p| => s[Prev(|s|, p[i])])
  }

  function CountBelow(col: seq<Byte>, c: int): (r: nat)
    ensures r <= |col|
  {
    if |col| == 0 then 0
    else CountBelow(col[..|col| - 1], c) + if col[|col| - 1] < c then 1 else 0
  }

  function CountOf(col: seq<Byte>, c: int): (r: nat)
    ensures r <= |col|
  {
    if |col| == 0 then 0
    else CountOf(col[..|col| - 1], c) + if col[|col| - 1] == c then 1 else 0
  }

  /** Row of the sorted first column that holds the same occurrence as row i of the last column. */
  function Rank(col: seq<Byte>, i: nat): nat
    requires i < |col|
  {
    CountBelow(col, col[i]) + CountOf(col[..i], col[i])
  }

  lemma {:induction false} CountNext(col: seq<Byte>, c: int)
    ensures CountBelow(col, c + 1) == CountBelow(col, c) + CountOf(col, c)
  {
    if |col| > 0 { CountNext(col[..|col| - 1], c); }
  }

  lemma {:induction false} CountBelowMono(col: seq<Byte>, c: int, d: int)
    requires c <= d
    ensures CountBelow(col, c) <= CountBelow(col, d)
  {
    if |col| > 0 { CountBelowMono(col[..|col| - 1], c, d); }
  }

  lemma {:induction false} CountBelowEnds(col: seq<Byte>)
    ensures CountBelow(col, 0) == 0 && CountBelow(col, 256) == |col|
  {
    if |col| > 0 { CountBelowEnds(col[..|col| - 1]); }
  }

  lemma {:induction false} CountOfMono(col: seq<Byte>, c: int, i: nat, j: nat)
    requires i <= j <= |col|
    ensures CountOf(col[..i], c) <= CountOf(col[..j], c)
    ensures i < j && col[i] == c ==> CountOf(col[..i], c) < CountOf(col[..j], c)
    decreases j
  {
    if i < j {
      assert col[..j][..j - 1] == col[..j - 1];
      CountOfMono(col, c, i, j - 1);
    }
  }

  lemma RankBounds(col: seq<Byte>, i: nat)
    requires i < |col|
    ensures var c: int := col[i];
            CountBelow(col, c) <= Rank(col, i) < CountBelow(col, c + 1) <= |col|
  {
    hide Next;
    CountOfMono(col, col[i], i, |col|);
    assert col[..|col|] == col;
    CountNext(col, col[i]);
  }

  /** Ranking orders rows by character, then by position. */
  lemma RankOrder(col: seq<Byte>, i: nat, j: nat)
    requires i < |col| && j < |col|
    requires col[i] < col[j] || (col[i] == col[j] && i < j)
    ensures Rank(col, i) < Rank(col, j)
  {
    if col[i] < col[j] {
      RankBounds(col, i);
      RankBounds(col, j);
      var c: int := col[i];
      CountBelowMono(col, c + 1, col[j]);
    } else {
      CountOfMono(col, col[i], i, j);
    }
  }

  function Ranks(col: seq<Byte>): (r: seq<nat>)
    ensures |r| == |col|
  {
    seq(|col|, i requires 0 <= i < |col| => Rank(col, i))
  }

  lemma RanksPermute(col: seq<Byte>)
    ensures Permutes(Ranks(col), |col|)
  {
    forall i | 0 <= i < |col| ensures Ranks(col)[i] < |col| { RankBounds(col, i); }
    forall i, j | 0 <= i < j < |col| ensures Ranks(col)[i] != Ranks(col)[j] {
      if col[j] < col[i] { RankOrder(col, j, i); } else { RankOrder(col, i, j); }
    }
  }

  function Locate(col: seq<Byte>, r: nat, i: nat): (k: nat)
    requires i <= |col|
    decreases |col| - i
  {
    if i == |col| || Rank(col, i) == r then i else Locate(col, r, i + 1)
  }

  lemma {:induction false} LocateFinds(col: seq<Byte>, r: nat, i: nat, k: nat)
    requires i <= k < |col| && Rank(col, k) == r
    ensures Locate(col, r, i) == k
    decreases |col| - i
  {
    if i < k {
      if Rank(col, i) == r {
        if col[k] < col[i] { RankOrder(col, k, i); } else { RankOrder(col, i, k); }
        assert false;
      }
      LocateFinds(col, r, i + 1, k);
    }
  }

  /** The inverse of the ranking: T^(-1) in the source's terms. */
  function Unranks(col: seq<Byte>): (t: seq<nat>)
    ensures |t| == |col|
  {
    seq(|col|, r requires 0 <= r < |col| => Locate(col, r, 0))
  }

  /** Unranks and Ranks are mutually inverse permutations of the rows. */
  lemma UnrankInverts(col: seq<Byte>, r: nat)
    requires r < |col|
    ensures Unranks(col)[r] < |col| && Rank(col, Unranks(col)[r]) == r
    ensures Rank(col, r) < |col| && Unranks(col)[Rank(col, r)] == r
  {
    RanksPermute(col);
    var k := PermutationHits(Ranks(col), |col|, r);
    LocateFinds(col, r, 0, k);
    RankBounds(col, r);
    LocateFinds(col, Rank(col, r), 0, r);
  }

  lemma UnrankOrder(col: seq<Byte>, i: nat, j: nat)
    requires i < j < |col|
    ensures var x, y := Unranks(col)[i], Unranks(col)[j];
            x < |col| && y < |col| && (col[x] < col[y] || (col[x] == col[y] && x < y))
  {
    UnrankInverts(col, i);
    UnrankInverts(col, j);
    var x, y := Unranks(col)[i], Unranks(col)[j];
    if x != y && !(col[x] < col[y] || (col[x] == col[y] && x < y)) {
      RankOrder(col, y, x);
      assert false;
    }
  }

  /** k steps of the inverse walk from row r. */
  function Walk(col: seq<Byte>, r: nat, k: nat): (w: nat)
    requires r < |col|
    ensures w < |col|
  {
    if k == 0 then r
    else
      var w := Walk(col, r, k - 1);
      UnrankInverts(col, w);
      Unranks(col)[w]
  }

  /** Character k of the decoded block.  It is defined past the end of the block because the decoder
      reads one character ahead. */
  function CharAt(col: seq<Byte>, origPtr: nat, k: nat): Byte
    requires origPtr < |col|
  {
    col[Walk(col, origPtr, k + 1)]
  }

  /** The block a last column and an origin decode to. */
  function Invert(col: seq<Byte>, origPtr: nat): (s: seq<Byte>)
    requires origPtr < |col|
    ensures |s| == |col|
  {
    seq(|col|, k requires 0 <= k < |col| => CharAt(col, origPtr, k))
  }

  /** The predecessors of all rotations, sorted stably by their first character. */
  function Predecessors(s: seq<Byte>, p: seq<nat>): (b: seq<nat>)
    requires RotationSorted(s, p)
    ensures |b| == |s|
  {
    var col := LastColumn(s, p);
    seq(|s|, r requires 0 <= r < |s| => UnrankInverts(col, r); Prev(|s|, p[Unranks(col)[r]]))
  }

  lemma PredecessorsDiffer(s: seq<Byte>, p: seq<nat>, i: nat, j: nat)
    requires RotationSorted(s, p) && i < j < |s|
    ensures var b := Predecessors(s, p);
            b[i] < |s| && b[j] < |s| && b[i] != b[j] && Le(s, b[i], b[j], |s|)
  {
    hide Locate, Rank, Le, Unranks, Prev;
    var n, col := |s|, LastColumn(s, p);
    var x, y := Unranks(col)[i], Unranks(col)[j];
    UnrankOrder(col, i, j);
    assert p[x] != p[y];
    PredecessorsOrder(s, p[x], p[y]);
  }

  lemma PredecessorsOrder(s: seq<Byte>, u: nat, v: nat)
    requires u < |s| && v < |s| && u != v
    requires var a, b := s[Prev(|s|, u)], s[Prev(|s|, v)];
             a < b || (a == b && Le(s, u, v, |s|))
    ensures Prev(|s|, u) != Prev(|s|, v) && Le(s, Prev(|s|, u), Prev(|s|, v), |s|)
  {
    LeSplit(s, u, v, |s| - 1, 1);
  }

  /** That stable sort by one character sorts them completely. */
  lemma PredecessorsSorted(s: seq<Byte>, p: seq<nat>)
    requires RotationSorted(s, p)
    ensures RotationSorted(s, Predecessors(s, p))
  {
    var b := Predecessors(s, p);
    forall i | 0 <= i < |s| ensures b[i] < |s| { UnrankInverts(LastColumn(s, p), i); }
    forall i, j | 0 <= i < j < |s| ensures b[i] != b[j] && Le(s, b[i], b[j], |s|) {
      PredecessorsDiffer(s, p, i, j);
    }
  }

  /** One step of the inverse walk moves to a row whose rotation starts one character later. */
  lemma StepAdvances(s: seq<Byte>, p: seq<nat>, r: nat)
    requires r < |s| && RotationSorted(s, p)
    ensures var col := LastColumn(s, p);
            Unranks(col)[r] < |s| && Same(s, p[Unranks(col)[r]], Next(|s|, p[r]), |s|)
  {
    hide Le, SortedBy, Distinct, Locate, Rank, Unranks;
    var n, b := |s|, Predecessors(s, p);
    UnrankInverts(LastColumn(s, p), r);
    PredecessorsSorted(s, p);
    SortedUnique(s, b, p, r);
    SameForever(s, b[r], p[r], n + 1);
  }

  lemma {:induction false} WalkAdvances(s: seq<Byte>, p: seq<nat>, r: nat, k: nat)
    requires r < |s| && RotationSorted(s, p)
    ensures var col := LastColumn(s, p);
            Same(s, p[Walk(col, r, k)], Advance(|s|, p[r], k), |s|)
  {
    var n, col := |s|, LastColumn(s, p);
    if k == 0 {
      SameRefl(s, p[r], n);
    } else {
      var w, a := Walk(col, r, k - 1), Advance(n, p[r], k - 1);
      WalkAdvances(s, p, r, k - 1);
      StepAdvances(s, p, w);
      AdvanceSum(n, p[r], k - 1, 1);
      assert Advance(n, a, 1) == Next(n, a);
      SameForever(s, p[w], a, n + 1);
      SameTrans(s, p[Walk(col, r, k)], Next(n, p[w]), Next(n, a), n);
    }
  }

  /** Decoded characters follow the block cyclically, whatever order equal rotations were left in. */
  lemma CharAtCorrect(s: seq<Byte>, p: seq<nat>, origPtr: nat, k: nat)
    requires origPtr < |s| && RotationSorted(s, p) && p[origPtr] == 0
    ensures CharAt(LastColumn(s, p), origPtr, k) == s[Advance(|s|, 0, k)]
  {
    hide Same, Walk, SortedBy, Distinct, Unranks, Rank;
    var n, col := |s|, LastColumn(s, p);
    var x, y := p[Walk(col, origPtr, k + 1)], Advance(n, 0, k + 1);
    WalkAdvances(s, p, origPtr, k + 1);
    SameAt(s, x, y, n, n - 1);
    AdvanceWithin(n, x, n - 1);
    AdvanceWithin(n, y, n - 1);
    AdvanceSum(n, 0, k, 1);
    assert y == Next(n, Advance(n, 0, k));
  }

  /** The transform loses nothing: any rotation-sorted order, ties broken any way, decodes to the block. */
  lemma InvertCorrect(s: seq<Byte>, p: seq<nat>, origPtr: nat)
    requires origPtr < |s| && RotationSorted(s, p) && p[origPtr] == 0
    ensures Invert(LastColumn(s, p), origPtr) == s
  {
    forall k | 0 <= k < |s| ensures Invert(LastColumn(s, p), origPtr)[k] == s[k] {
      CharAtCorrect(s, p, origPtr, k);
      AdvanceWithin(|s|, 0, k);
    }
  }
}
