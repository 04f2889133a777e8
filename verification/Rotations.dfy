/** Cyclic rotations of a block and their lexicographic order.

    A block of n bytes is sorted by its n rotations.  Rotations are compared a bounded number of
    characters at a time, stepping both start positions cyclically; comparing n characters compares
    whole rotations.  Rotations of a periodic block can be equal, so the order is a total preorder. */
module Rotations {

  type Byte = x: int | 0 <= x < 256

  function Next(n: nat, i: nat): (r: nat)
    requires i < n
    ensures r < n
  {
    if i + 1 == n then 0 else i + 1
  }

  function Prev(n: nat, i: nat): (r: nat)
    requires i < n
    ensures r < n && Next(n, r) == i
  {
    if i == 0 then n - 1 else i - 1
  }

  /** Position reached from i after k cyclic steps. */
  function Advance(n: nat, i: nat, k: nat): (r: nat)
    requires i < n
    ensures r < n
    decreases k
  {
    if k == 0 then i else Advance(n, Next(n, i), k - 1)
  }

  /** The first k characters of rotations i and j agree. */
  predicate Same(s: seq<Byte>, i: nat, j: nat, k: nat)
    requires i < |s| && j < |s|
    decreases k
  {
    k == 0 || (s[i] == s[j] && Same(s, Next(|s|, i), Next(|s|, j), k - 1))
  }

  /** The first k characters of rotation i do not exceed those of rotation j. */
  predicate Le(s: seq<Byte>, i: nat, j: nat, k: nat)
    requires i < |s| && j < |s|
    decreases k
  {
    k == 0 || s[i] < s[j] || (s[i] == s[j] && Le(s, Next(|s|, i), Next(|s|, j), k - 1))
  }

  lemma {:induction false} AdvanceWithin(n: nat, i: nat, k: nat)
    requires i < n && k <= n
    ensures Advance(n, i, k) == if i + k < n then i + k else i + k - n
    decreases k
  {
    if k > 0 {
      if i + 1 < n {
        AdvanceWithin(n, i + 1, k - 1);
      } else {
        AdvanceWithin(n, 0, k - 1);
      }
    }
  }

  lemma {:induction false} AdvanceSum(n: nat, i: nat, h: nat, k: nat)
    requires i < n
    ensures Advance(n, i, h + k) == Advance(n, Advance(n, i, h), k)
    decreases h
  {
    if h > 0 { AdvanceSum(n, Next(n, i), h - 1, k); }
  }

  lemma {:induction false} SameSplit(s: seq<Byte>, i: nat, j: nat, h: nat, k: nat)
    requires i < |s| && j < |s|
    ensures Same(s, i, j, h + k) <==>
            Same(s, i, j, h) && Same(s, Advance(|s|, i, h), Advance(|s|, j, h), k)
    decreases h
  {
    if h > 0 { SameSplit(s, Next(|s|, i), Next(|s|, j), h - 1, k); }
  }

  /** Comparing h + k characters: decided by the first h unless those agree. */
  lemma {:induction false} LeSplit(s: seq<Byte>, i: nat, j: nat, h: nat, k: nat)
    requires i < |s| && j < |s|
    ensures Le(s, i, j, h + k) <==>
            Le(s, i, j, h) &&
            (Same(s, i, j, h) ==> Le(s, Advance(|s|, i, h), Advance(|s|, j, h), k))
    decreases h
  {
    if h > 0 { LeSplit(s, Next(|s|, i), Next(|s|, j), h - 1, k); }
  }

  lemma {:induction false} SameRefl(s: seq<Byte>, i: nat, k: nat)
    requires i < |s|
    ensures Same(s, i, i, k) && Le(s, i, i, k)
    decreases k
  {
    if k > 0 { SameRefl(s, Next(|s|, i), k - 1); }
  }

  lemma {:induction false} SameSym(s: seq<Byte>, i: nat, j: nat, k: nat)
    requires i < |s| && j < |s|
    ensures Same(s, i, j, k) <==> Same(s, j, i, k)
    ensures Same(s, i, j, k) <==> Le(s, i, j, k) && Le(s, j, i, k)
    ensures Le(s, i, j, k) || Le(s, j, i, k)
    decreases k
  {
    if k > 0 { SameSym(s, Next(|s|, i), Next(|s|, j), k - 1); }
  }

  lemma {:induction false} LeTrans(s: seq<Byte>, i: nat, j: nat, m: nat, k: nat)
    requires i < |s| && j < |s| && m < |s|
    requires Le(s, i, j, k) && Le(s, j, m, k)
    ensures Le(s, i, m, k)
    ensures Same(s, i, m, k) ==> Same(s, i, j, k) && Same(s, j, m, k)
    decreases k
  {
    if k > 0 && s[i] == s[j] == s[m] {
      LeTrans(s, Next(|s|, i), Next(|s|, j), Next(|s|, m), k - 1);
    }
  }

  lemma {:induction false} SameTrans(s: seq<Byte>, i: nat, j: nat, m: nat, k: nat)
    requires i < |s| && j < |s| && m < |s|
    requires Same(s, i, j, k) && Same(s, j, m, k)
    ensures Same(s, i, m, k)
    decreases k
  {
    if k > 0 { SameTrans(s, Next(|s|, i), Next(|s|, j), Next(|s|, m), k - 1); }
  }

  /** Agreement on all n characters is agreement on any number of them. */
  lemma {:induction false} SameForever(s: seq<Byte>, i: nat, j: nat, k: nat)
    requires i < |s| && j < |s|
    requires Same(s, i, j, |s|)
    ensures Same(s, i, j, k)
    decreases k
  {
    if k <= |s| {
      SameSplit(s, i, j, k, |s| - k);
    } else {
      SameForever(s, i, j, k - |s|);
      AdvanceWithin(|s|, i, |s|);
      AdvanceWithin(|s|, j, |s|);
      SameSplit(s, i, j, |s|, k - |s|);
    }
  }

  /** Character t of a rotation, for rotations that agree. */
  lemma {:induction false} SameAt(s: seq<Byte>, i: nat, j: nat, k: nat, t: nat)
    requires i < |s| && j < |s| && t < k
    requires Same(s, i, j, k)
    ensures s[Advance(|s|, i, t)] == s[Advance(|s|, j, t)]
    decreases t
  {
    if t > 0 { SameAt(s, Next(|s|, i), Next(|s|, j), k - 1, t - 1); }
  }

  /** p is a permutation of 0..n-1. */
  predicate Permutes(p: seq<nat>, n: nat) {
    |p| == n && (forall i :: 0 <= i < n ==> p[i] < n) && Distinct(p)
  }

  predicate Distinct(p: seq<nat>) {
    forall i, j :: 0 <= i < j < |p| ==> p[i] != p[j]
  }

  /** p lists its rotations in order of their first k characters. */
  predicate SortedBy(s: seq<Byte>, p: seq<nat>, k: nat)
    requires forall i :: 0 <= i < |p| ==> p[i] < |s|
  {
    forall i, j :: 0 <= i < j < |p| ==> Le(s, p[i], p[j], k)
  }

  /** The result the block sort owes its caller: every rotation once, in order, ties in any order. */
  predicate RotationSorted(s: seq<Byte>, p: seq<nat>) {
    Permutes(p, |s|) && SortedBy(s, p, |s|)
  }

  function Elements(p: seq<nat>): set<nat> {
    set i | 0 <= i < |p| :: p[i]
  }

  lemma {:induction false} ElementsCount(p: seq<nat>)
    requires Distinct(p)
    ensures |Elements(p)| == |p|
  {
    if |p| > 0 {
      var q := p[..|p| - 1];
      ElementsCount(q);
      assert Elements(p) == Elements(q) + {p[|p| - 1]};
      assert p[|p| - 1] !in Elements(q);
    }
  }

  function Below(n: nat): (r: set<nat>)
    ensures |r| == n
    ensures forall i :: i in r <==> 0 <= i < n
  {
    if n == 0 then {} else Below(n - 1) + {n - 1}
  }

  /** Pigeonhole: n distinct positions below n are all positions below n. */
  lemma PermutationHits(p: seq<nat>, n: nat, v: nat) returns (i: nat)
    requires Permutes(p, n) && v < n
    ensures i < n && p[i] == v
  {
    ElementsCount(p);
    assert Elements(p) <= Below(n);
    if v !in Elements(p) {
      SubsetCount(Elements(p), Below(n) - {v});
      assert false;
    }
    i :| 0 <= i < n && p[i] == v;
  }

  lemma {:induction false} SubsetCount(a: set<nat>, b: set<nat>)
    requires a <= b
    ensures |a| <= |b|
  {
    if a != {} {
      var x :| x in a;
      SubsetCount(a - {x}, b - {x});
    }
  }

  /** Two sorted listings of all rotations agree, position by position, up to equality of rotations. */
  lemma SortedUnique(s: seq<Byte>, a: seq<nat>, b: seq<nat>, r: nat)
    requires RotationSorted(s, a) && RotationSorted(s, b) && r < |s|
    ensures Same(s, a[r], b[r], |s|)
  {
    if !Le(s, b[r], a[r], |s|) {
      NotAbove(s, a, b, r);
      assert false;
    }
    if !Le(s, a[r], b[r], |s|) {
      NotAbove(s, b, a, r);
      assert false;
    }
    SameSym(s, a[r], b[r], |s|);
  }

  lemma SortedAround(s: seq<Byte>, a: seq<nat>, b: seq<nat>, i: nat, r: nat, q: nat)
    requires RotationSorted(s, a) && RotationSorted(s, b)
    requires i <= r <= q < |s| && a[i] == b[q]
    ensures Le(s, b[r], a[r], |s|)
  {
    SameRefl(s, a[r], |s|);
    SameRefl(s, b[r], |s|);
    LeTrans(s, b[r], a[i], a[r], |s|);
  }

  lemma NotAbove(s: seq<Byte>, a: seq<nat>, b: seq<nat>, r: nat)
    requires RotationSorted(s, a) && RotationSorted(s, b) && r < |s|
    ensures Le(s, b[r], a[r], |s|)
  {
    var n := |s|;
    if !Le(s, b[r], a[r], n) {
      var lo, hi := a[..r + 1], b[..r];
      forall x | x in Elements(lo) ensures x in Elements(hi) {
        var i :| 0 <= i < |lo| && lo[i] == x;
        var q := PermutationHits(b, n, x);
        if q >= r {
          SortedAround(s, a, b, i, r, q);
          assert false;
        }
        assert hi[q] == x;
      }
      ElementsCount(lo);
      ElementsCount(hi);
      SubsetCount(Elements(lo), Elements(hi));
      assert false;
    }
  }

  lemma MultisetDistinct(g: seq<nat>, f: seq<nat>)
    requires multiset(g) == multiset(f) && Distinct(f)
    ensures |g| == |f| && Distinct(g)
  {
    assert |g| == |multiset(g)| == |multiset(f)| == |f|;
    forall i, j | 0 <= i < j < |g| ensures g[i] != g[j] {
      if g[i] == g[j] {
        TwiceIn(g, i, j);
        OnceIn(f, g[i]);
        assert false;
      }
    }
  }

  lemma TwiceIn(g: seq<nat>, i: nat, j: nat)
    requires i < j < |g| && g[i] == g[j]
    ensures multiset(g)[g[i]] >= 2
  {
    assert g == g[..j] + [g[j]] + g[j + 1..];
    assert g[i] == g[..j][i];
    assert g[i] in multiset(g[..j]);
  }

  lemma {:induction false} OnceIn(f: seq<nat>, v: nat)
    requires Distinct(f)
    ensures multiset(f)[v] <= 1
  {
    if |f| > 0 {
      var t := f[..|f| - 1];
      assert f == t + [f[|f| - 1]];
      OnceIn(t, v);
      if f[|f| - 1] == v { assert v !in t; }
    }
  }
}
