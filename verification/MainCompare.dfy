/** Comparing rotations for the main sort: the block repeated past its end, and cached orderings in the quadrants. */
module MainCompare {
  import opened Rotations

  const N_RADIX := 2
  const N_QSORT := 12
  const N_SHELL := 18
  const N_OVERSHOOT := N_RADIX + N_QSORT + N_SHELL + 2

  // ----- ranks -----

  /** The rotations strictly before rotation i. */
  ghost function Before(s: seq<Byte>, i: nat): set<nat>
    requires i < |s|
  {
    set x: nat | x < |s| && !Le(s, i, x, |s|)
  }

  /** How many rotations are strictly before each. */
  ghost function Ranks(s: seq<Byte>): (r: seq<nat>)
    ensures |r| == |s|
  {
    seq(|s|, i requires 0 <= i < |s| => |Before(s, i)|)
  }

  /** Ranks order rotations as the rotations themselves. */
  lemma RankOrder(s: seq<Byte>, i: nat, j: nat)
    requires i < |s| && j < |s|
    ensures Ranks(s)[i] <= Ranks(s)[j] <==> Le(s, i, j, |s|)
  {
    if Le(s, i, j, |s|) { RankMono(s, i, j); } else {
      SameSym(s, i, j, |s|);
      RankStrict(s, j, i);
    }
  }

  lemma RankMono(s: seq<Byte>, i: nat, j: nat)
    requires i < |s| && j < |s| && Le(s, i, j, |s|)
    ensures |Before(s, i)| <= |Before(s, j)|
  {
    forall x | x in Before(s, i) ensures x in Before(s, j) {
      if Le(s, j, x, |s|) { LeTrans(s, i, j, x, |s|); }
    }
    SubsetCount(Before(s, i), Before(s, j));
  }

  lemma RankStrict(s: seq<Byte>, i: nat, j: nat)
    requires i < |s| && j < |s| && !Le(s, j, i, |s|) && Le(s, i, j, |s|)
    ensures |Before(s, i)| < |Before(s, j)|
  {
    SameRefl(s, i, |s|);
    forall x | x in Before(s, i) ensures x in Before(s, j) {
      if Le(s, j, x, |s|) { LeTrans(s, i, j, x, |s|); }
    }
    SubsetCount(Before(s, i) + {i}, Before(s, j));
  }

  // ----- the arrays compared -----

  function Mod(n: nat, i: nat): (r: nat)
    requires i < 2 * n
    ensures r < n
  {
    if i < n then i else i - n
  }

  /** The block, and its first bytes again behind its end. */
  predicate Wrapped(block: seq<Byte>, s: seq<Byte>) {
    N_OVERSHOOT < |s| && |block| >= |s| + N_OVERSHOOT &&
    forall i: nat :: i < |s| + N_OVERSHOOT ==> block[i] == s[Mod(|s|, i)]
  }

  /** A smaller quadrant means: precedes or equals, among rotations with the same first byte. */
  ghost predicate Cached(q: seq<nat>, s: seq<Byte>) {
    |q| >= |s| && forall i: nat, j: nat :: i < |s| && j < |s| && s[i] == s[j] && q[i] < q[j] ==> Le(s, i, j, |s|)
  }

  predicate QuadrantsWrapped(q: seq<nat>, n: nat) {
    N_OVERSHOOT < n && |q| >= n + N_OVERSHOOT && forall i: nat :: i < n + N_OVERSHOOT ==> q[i] == q[Mod(n, i)]
  }

  /** The first difference decides. */
  lemma Decides(s: seq<Byte>, a: nat, b: nat, t: nat)
    requires a < |s| && b < |s| && Same(s, a, b, t)
    requires s[Advance(|s|, a, t)] < s[Advance(|s|, b, t)]
    ensures Le(s, a, b, |s|)
  {
    var n := |s|;
    if t >= n {
      SameSplit(s, a, b, n, t - n);
      SameForever(s, a, b, t + 1);
      SameAt(s, a, b, t + 1, t);
    } else {
      LeSplit(s, a, b, t, n - t);
      SameSplit(s, a, b, 0, t);
      LeSplit(s, a, b, t, 0);
      SameSym(s, a, b, t);
    }
  }

  /** So does a difference between quadrants. */
  lemma DecidesCached(s: seq<Byte>, q: seq<nat>, a: nat, b: nat, t: nat)
    requires a < |s| && b < |s| && Same(s, a, b, t) && Cached(q, s)
    requires var x, y := Advance(|s|, a, t), Advance(|s|, b, t);
             s[x] == s[y] && q[x] < q[y]
    ensures Le(s, a, b, |s|)
  {
    var n := |s|;
    LeSplit(s, a, b, t, n);
    SameSym(s, a, b, t);
    assert t + n == n + t;
    LeSplit(s, a, b, n, t);
  }

  lemma SameMore(s: seq<Byte>, a: nat, b: nat, t: nat)
    requires a < |s| && b < |s| && Same(s, a, b, t) && s[Advance(|s|, a, t)] == s[Advance(|s|, b, t)]
    ensures Same(s, a, b, t + 1)
    ensures Advance(|s|, a, t + 1) == Next(|s|, Advance(|s|, a, t))
  {
    SameSplit(s, a, b, t, 1);
    AdvanceSum(|s|, a, t, 1);
    assert Same(s, Advance(|s|, a, t), Advance(|s|, b, t), 1) by { OneSame(s, Advance(|s|, a, t), Advance(|s|, b, t)); }
    OneStep(|s|, Advance(|s|, a, t));
  }

  lemma OneStep(n: nat, i: nat)
    requires i < n
    ensures Advance(n, i, 1) == Next(n, i)
  {
    assert Advance(n, Next(n, i), 0) == Next(n, i);
  }

  lemma OneSame(s: seq<Byte>, i: nat, j: nat)
    requires i < |s| && j < |s| && s[i] == s[j]
    ensures Same(s, i, j, 1)
  {
    assert Same(s, Next(|s|, i), Next(|s|, j), 0);
  }

  /** What has been found to agree so far. */
  ghost predicate Agreed(s: seq<Byte>, a: nat, b: nat, t: nat, i1: nat, i2: nat) {
    a < |s| && b < |s| && i1 < 2 * |s| && i2 < 2 * |s| && Same(s, a, b, t) &&
    Mod(|s|, i1) == Advance(|s|, a, t) && Mod(|s|, i2) == Advance(|s|, b, t)
  }

  /** gt: rotation a comes after b, or equals it; otherwise the other way round. */
  predicate Verdict(s: seq<Byte>, a: nat, b: nat, gt: bool)
    requires a < |s| && b < |s|
  {
    if gt then Le(s, b, a, |s|) else Le(s, a, b, |s|)
  }

  lemma AgreedNext(s: seq<Byte>, a: nat, b: nat, t: nat, i1: nat, i2: nat)
    requires Agreed(s, a, b, t, i1, i2) && s[Mod(|s|, i1)] == s[Mod(|s|, i2)]
    requires i1 + 1 < 2 * |s| && i2 + 1 < 2 * |s|
    ensures Agreed(s, a, b, t + 1, i1 + 1, i2 + 1)
  {
    SameMore(s, a, b, t);
    SameSym(s, a, b, t);
    SameMore(s, b, a, t);
  }

  lemma AgreedDecides(s: seq<Byte>, a: nat, b: nat, t: nat, i1: nat, i2: nat)
    requires Agreed(s, a, b, t, i1, i2) && s[Mod(|s|, i1)] != s[Mod(|s|, i2)]
    ensures Verdict(s, a, b, s[Mod(|s|, i1)] > s[Mod(|s|, i2)])
  {
    SameSym(s, a, b, t);
    if s[Mod(|s|, i1)] < s[Mod(|s|, i2)] { Decides(s, a, b, t); } else { Decides(s, b, a, t); }
  }

  lemma AgreedCached(s: seq<Byte>, q: seq<nat>, a: nat, b: nat, t: nat, i1: nat, i2: nat)
    requires Agreed(s, a, b, t, i1, i2) && Cached(q, s)
    requires var x, y := Mod(|s|, i1), Mod(|s|, i2);
             s[x] == s[y] && q[x] != q[y]
    ensures Verdict(s, a, b, q[Mod(|s|, i1)] > q[Mod(|s|, i2)])
  {
    SameSym(s, a, b, t);
    if q[Mod(|s|, i1)] < q[Mod(|s|, i2)] { DecidesCached(s, q, a, b, t); } else { DecidesCached(s, q, b, a, t); }
  }

  lemma AgreedAll(s: seq<Byte>, a: nat, b: nat, t: nat, i1: nat, i2: nat)
    requires Agreed(s, a, b, t, i1, i2) && t >= |s|
    ensures Verdict(s, a, b, false)
  {
    SameSplit(s, a, b, |s|, t - |s|);
    SameSym(s, a, b, |s|);
  }

  lemma AgreedStart(s: seq<Byte>, i1: nat, i2: nat)
    requires i1 < 2 * |s| && i2 < 2 * |s|
    ensures Agreed(s, Mod(|s|, i1), Mod(|s|, i2), 0, i1, i2)
  {}

  lemma AgreedWrap(s: seq<Byte>, a: nat, b: nat, t: nat, i1: nat, i2: nat, j1: nat, j2: nat)
    requires Agreed(s, a, b, t, i1, i2) && j1 == Mod(|s|, i1) && j2 == Mod(|s|, i2)
    ensures Agreed(s, a, b, t, j1, j2)
  {}

  /** The rotation at i1 compares greater than that at i2.  Positions beyond the block's end stand for those at its
      start; they stay within the overshoot. */
  method MainGtU(i1: nat, i2: nat, block: array<Byte>, quadrant: array<nat>, nblock: nat, budget: int, ghost s: seq<Byte>)
    returns (gt: bool, budget': int)
    requires Wrapped(block[..], s) && nblock == |s| && QuadrantsWrapped(quadrant[..], nblock) && Cached(quadrant[..], s)
    requires i1 < nblock + N_RADIX + N_QSORT + 1 && i2 < nblock + N_RADIX + N_QSORT + 1
    ensures Verdict(s, Mod(nblock, i1), Mod(nblock, i2), gt) && budget' <= budget
  {
    hide Agreed, Cached, Verdict;
    ghost var a, b := Mod(nblock, i1), Mod(nblock, i2);
    var j1: nat, j2: nat := i1, i2;
    budget' := budget;
    AgreedStart(s, i1, i2);
    for t := 0 to 12
      invariant j1 == i1 + t && j2 == i2 + t && Agreed(s, a, b, t, j1, j2)
    {
      var c1, c2 := block[j1], block[j2];
      assert block[..][j1] == c1 && block[..][j2] == c2;
      if c1 != c2 {
        AgreedDecides(s, a, b, t, j1, j2);
        return c1 > c2, budget';
      }
      AgreedNext(s, a, b, t, j1, j2);
      j1, j2 := j1 + 1, j2 + 1;
    }
    var k: int := nblock + 8;
    ghost var t: nat := 12;
    while k >= 0
      invariant Agreed(s, a, b, t, j1, j2) && t + k == nblock + 20 && k <= nblock + 8
      invariant budget' <= budget && j1 < nblock + 27 && j2 < nblock + 27
      decreases k
    {
      for u := 0 to 8
        invariant Agreed(s, a, b, t + u, j1, j2)
        invariant j1 < nblock + 27 + u && j2 < nblock + 27 + u
      {
        var done;
        done, gt := CompareOne(j1, j2, block, quadrant, nblock, s, a, b, t + u);
        if done { return; }
        j1, j2 := j1 + 1, j2 + 1;
      }
      ghost var x1, x2 := j1, j2;
      if j1 >= nblock { j1 := j1 - nblock; }
      if j2 >= nblock { j2 := j2 - nblock; }
      AgreedWrap(s, a, b, t + 8, x1, x2, j1, j2);
      t := t + 8;
      k := k - 8;
      budget' := budget' - 1;
    }
    AgreedAll(s, a, b, t, j1, j2);
    gt := false;
  }

  /** One byte, and then one quadrant. */
  method CompareOne(i1: nat, i2: nat, block: array<Byte>, quadrant: array<nat>, nblock: nat, ghost s: seq<Byte>,
                    ghost a: nat, ghost b: nat, ghost t: nat)
    returns (done: bool, gt: bool)
    requires Wrapped(block[..], s) && nblock == |s| && QuadrantsWrapped(quadrant[..], nblock) && Cached(quadrant[..], s)
    requires i1 < nblock + N_OVERSHOOT && i2 < nblock + N_OVERSHOOT && Agreed(s, a, b, t, i1, i2)
    ensures a < nblock && b < nblock
    ensures if done then Verdict(s, a, b, gt) else Agreed(s, a, b, t + 1, i1 + 1, i2 + 1)
  {
    hide Cached, Verdict;
    var c1, c2 := block[i1], block[i2];
    assert block[..][i1] == c1 && block[..][i2] == c2;
    if c1 != c2 {
      AgreedDecides(s, a, b, t, i1, i2);
      return true, c1 > c2;
    }
    var s1, s2 := quadrant[i1], quadrant[i2];
    assert quadrant[..][i1] == s1 && quadrant[..][i2] == s2;
    if s1 != s2 {
      AgreedCached(s, quadrant[..], a, b, t, i1, i2);
      return true, s1 > s2;
    }
    AgreedNext(s, a, b, t, i1, i2);
    return false, false;
  }
}
