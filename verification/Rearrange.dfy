/** Rearrangements of a stretch of an array: what an in-place sort may do to it. */
module Rearrange {

  /** g is f with the elements at positions lo..hi permuted. */
  ghost predicate Rearranged(g: seq<nat>, f: seq<nat>, lo: int, hi: int) {
    |g| == |f| && 0 <= lo <= hi + 1 <= |f| &&
    (forall i :: 0 <= i < |f| && !(lo <= i <= hi) ==> g[i] == f[i]) &&
    multiset(g[lo..hi + 1]) == multiset(f[lo..hi + 1])
  }

  lemma RearrangedRefl(f: seq<nat>, lo: int, hi: int)
    requires 0 <= lo <= hi + 1 <= |f|
    ensures Rearranged(f, f, lo, hi)
  {}

  lemma RearrangedTrans(h: seq<nat>, g: seq<nat>, f: seq<nat>, lo: int, hi: int)
    requires Rearranged(h, g, lo, hi) && Rearranged(g, f, lo, hi)
    ensures Rearranged(h, f, lo, hi)
  {}

  lemma RearrangedWiden(g: seq<nat>, f: seq<nat>, lo: int, hi: int, lo': int, hi': int)
    requires Rearranged(g, f, lo, hi) && 0 <= lo' <= lo && hi <= hi' < |f|
    ensures Rearranged(g, f, lo', hi')
  {
    assert g[lo'..hi' + 1] == g[lo'..lo] + g[lo..hi + 1] + g[hi + 1..hi' + 1];
    assert f[lo'..hi' + 1] == f[lo'..lo] + f[lo..hi + 1] + f[hi + 1..hi' + 1];
    assert g[lo'..lo] == f[lo'..lo] && g[hi + 1..hi' + 1] == f[hi + 1..hi' + 1];
  }

  function Swap(f: seq<nat>, i: int, j: int): seq<nat>
    requires 0 <= i < |f| && 0 <= j < |f|
  {
    f[i := f[j]][j := f[i]]
  }

  lemma SwapRearranges(f: seq<nat>, i: int, j: int, lo: int, hi: int)
    requires 0 <= lo <= i <= hi < |f| && lo <= j <= hi
    ensures Rearranged(Swap(f, i, j), f, lo, hi)
  {
    var u, v := f[lo..hi + 1], Swap(f, i, j)[lo..hi + 1];
    assert v == u[i - lo := u[j - lo]][j - lo := u[i - lo]];
  }

  /** Every element of a rearranged stretch comes from the stretch. */
  lemma RearrangedFrom(g: seq<nat>, f: seq<nat>, lo: int, hi: int, i: int) returns (k: int)
    requires Rearranged(g, f, lo, hi) && lo <= i <= hi
    ensures lo <= k <= hi && g[i] == f[k]
  {
    assert g[lo..hi + 1][i - lo] == g[i];
    assert g[i] in multiset(g[lo..hi + 1]);
    assert g[i] in f[lo..hi + 1];
    k :| lo <= k <= hi && f[k] == g[i];
  }

  lemma RearrangedSym(g: seq<nat>, f: seq<nat>, lo: int, hi: int)
    requires Rearranged(g, f, lo, hi)
    ensures Rearranged(f, g, lo, hi)
  {}

  ghost predicate Keyed(f: seq<nat>, e: seq<nat>) {
    forall i :: 0 <= i < |f| ==> f[i] < |e|
  }

  lemma RearrangedOutside(g: seq<nat>, f: seq<nat>, lo: int, hi: int)
    requires Rearranged(g, f, lo, hi)
    ensures |g| == |f| && 0 <= lo <= hi + 1 <= |f|
    ensures forall i :: 0 <= i < |f| && !(lo <= i <= hi) ==> g[i] == f[i]
  {}

  lemma RearrangedWhole(g: seq<nat>, f: seq<nat>, lo: int, hi: int)
    requires Rearranged(g, f, lo, hi)
    ensures multiset(g) == multiset(f)
  {
    RearrangedWiden(g, f, lo, hi, 0, |f| - 1);
    assert g[0..|f|] == g && f[0..|f|] == f;
  }

  /** The keys of positions lo..hi do not descend. */
  ghost predicate Ascending(f: seq<nat>, e: seq<nat>, lo: int, hi: int)
    requires Keyed(f, e)
  {
    forall i, j :: 0 <= lo <= i < j <= hi < |f| ==> e[f[i]] <= e[f[j]]
  }

  lemma RearrangedKeyed(g: seq<nat>, f: seq<nat>, e: seq<nat>, lo: int, hi: int)
    requires Rearranged(g, f, lo, hi) && Keyed(f, e)
    ensures Keyed(g, e)
  {
    forall i | 0 <= i < |g| ensures g[i] < |e| {
      if lo <= i <= hi { var k := RearrangedFrom(g, f, lo, hi, i); }
    }
  }
}
