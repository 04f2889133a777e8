/** Three-way partition of a stretch of pointers by their keys: smaller, equal and larger than a pivot. */
module ThreeWay {
  import opened Rearrange

  /** Keys equal to med have been put at both ends, smaller ones left and larger ones right of unLo..unHi. */
  ghost predicate Partitioning(f: seq<nat>, f0: seq<nat>, e: seq<nat>, med: nat, lo: int, hi: int,
                               ltLo: int, unLo: int, unHi: int, gtHi: int) {
    0 <= lo <= ltLo <= unLo <= unHi + 1 <= gtHi + 1 <= hi + 1 <= |f| && Keyed(f, e) &&
    Rearranged(f, f0, lo, hi) &&
    (forall k :: lo <= k < ltLo || gtHi < k <= hi ==> e[f[k]] == med) &&
    (forall k :: ltLo <= k < unLo ==> e[f[k]] < med) &&
    (forall k :: unHi < k <= gtHi ==> e[f[k]] > med)
  }

  /** An equal key joins the left end, or a smaller or larger one stays on its side. */
  lemma PartitionLow(f: seq<nat>, f0: seq<nat>, e: seq<nat>, med: nat, lo: int, hi: int,
                     ltLo: int, unLo: int, unHi: int, gtHi: int)
    requires Partitioning(f, f0, e, med, lo, hi, ltLo, unLo, unHi, gtHi) && unLo <= unHi
    ensures e[f[unLo]] == med ==>
      Partitioning(Swap(f, unLo, ltLo), f0, e, med, lo, hi, ltLo + 1, unLo + 1, unHi, gtHi)
    ensures e[f[unLo]] < med ==> Partitioning(f, f0, e, med, lo, hi, ltLo, unLo + 1, unHi, gtHi)
  {
    hide Rearranged;
    SwapRearranges(f, unLo, ltLo, lo, hi);
    RearrangedTrans(Swap(f, unLo, ltLo), f, f0, lo, hi);
  }

  lemma PartitionHigh(f: seq<nat>, f0: seq<nat>, e: seq<nat>, med: nat, lo: int, hi: int,
                      ltLo: int, unLo: int, unHi: int, gtHi: int)
    requires Partitioning(f, f0, e, med, lo, hi, ltLo, unLo, unHi, gtHi) && unLo <= unHi
    ensures e[f[unHi]] == med ==>
      Partitioning(Swap(f, unHi, gtHi), f0, e, med, lo, hi, ltLo, unLo, unHi - 1, gtHi - 1)
    ensures e[f[unHi]] > med ==> Partitioning(f, f0, e, med, lo, hi, ltLo, unLo, unHi - 1, gtHi)
  {
    hide Rearranged;
    SwapRearranges(f, unHi, gtHi, lo, hi);
    RearrangedTrans(Swap(f, unHi, gtHi), f, f0, lo, hi);
  }

  lemma PartitionExchange(f: seq<nat>, f0: seq<nat>, e: seq<nat>, med: nat, lo: int, hi: int,
                          ltLo: int, unLo: int, unHi: int, gtHi: int)
    requires Partitioning(f, f0, e, med, lo, hi, ltLo, unLo, unHi, gtHi) && unLo < unHi
    requires e[f[unLo]] > med > e[f[unHi]]
    ensures Partitioning(Swap(f, unLo, unHi), f0, e, med, lo, hi, ltLo, unLo + 1, unHi - 1, gtHi)
  {
    hide Rearranged;
    SwapRearranges(f, unLo, unHi, lo, hi);
    RearrangedTrans(Swap(f, unLo, unHi), f, f0, lo, hi);
  }

  lemma PartitionStart(f: seq<nat>, e: seq<nat>, med: nat, lo: int, hi: int)
    requires 0 <= lo <= hi < |f| && Keyed(f, e)
    ensures Partitioning(f, f, e, med, lo, hi, lo, lo, hi, hi)
  {}

  ghost predicate Bounds(f: seq<nat>, e: seq<nat>, lo: int, hi: int, ltLo: int, unLo: int, unHi: int, gtHi: int) {
    0 <= lo <= ltLo <= unLo <= unHi + 1 <= gtHi + 1 <= hi + 1 <= |f| && Keyed(f, e)
  }

  function VSwapped(f: seq<nat>, p1: int, p2: int, n: int, k: int): nat
    requires 0 <= p1 && 0 <= n && p1 + n <= p2 && p2 + n <= |f| && 0 <= k < |f|
  {
    if p1 <= k < p1 + n then f[k - p1 + p2] else if p2 <= k < p2 + n then f[k - p2 + p1] else f[k]
  }

  ghost predicate Exchanged(g: seq<nat>, f: seq<nat>, p1: int, p2: int, n: int) {
    0 <= p1 && 0 <= n && p1 + n <= p2 && p2 + n <= |f| == |g| &&
    forall k :: 0 <= k < |f| ==> g[k] == VSwapped(f, p1, p2, n, k)
  }

  lemma ExchangedStep(f: seq<nat>, f0: seq<nat>, p1: int, p2: int, n: int)
    requires Exchanged(f, f0, p1, p2, n) && p1 + n + 1 <= p2 && p2 + n + 1 <= |f0|
    ensures Exchanged(Swap(f, p1 + n, p2 + n), f0, p1, p2, n + 1)
  {}

  lemma ExchangedNone(f: seq<nat>, p1: int, p2: int)
    requires 0 <= p1 <= p2 <= |f|
    ensures Exchanged(f, f, p1, p2, 0)
  {}

  /** One more pair exchanged. */
  lemma ExchangedOne(f: seq<nat>, f0: seq<nat>, p1: int, p2: int, n: int, lo: int, hi: int)
    requires 0 <= lo <= p1 && 0 <= n && p1 + n + 1 <= p2 && p2 + n + 1 <= hi + 1 <= |f| == |f0|
    requires Rearranged(f, f0, lo, hi) && Exchanged(f, f0, p1, p2, n)
    ensures Rearranged(Swap(f, p1 + n, p2 + n), f0, lo, hi) && Exchanged(Swap(f, p1 + n, p2 + n), f0, p1, p2, n + 1)
  {
    hide Rearranged, Exchanged, Swap;
    SwapRearranges(f, p1 + n, p2 + n, lo, hi);
    RearrangedTrans(Swap(f, p1 + n, p2 + n), f, f0, lo, hi);
    ExchangedStep(f, f0, p1, p2, n);
  }

  method SwapCells(fmap: array<nat>, i: int, j: int)
    requires 0 <= i < fmap.Length && 0 <= j < fmap.Length
    modifies fmap
    ensures fmap[..] == Swap(old(fmap[..]), i, j)
  {
    fmap[i], fmap[j] := fmap[j], fmap[i];
  }

  /** Exchanges two stretches of length n. */
  method VSwap(fmap: array<nat>, p1: int, p2: int, n: int, ghost lo: int, ghost hi: int)
    requires 0 <= lo <= p1 && 0 <= n && p1 + n <= p2 && p2 + n <= hi + 1 <= fmap.Length
    modifies fmap
    ensures Rearranged(fmap[..], old(fmap[..]), lo, hi)
    ensures Exchanged(fmap[..], old(fmap[..]), p1, p2, n)
  {
    hide Rearranged, Exchanged, Swap;
    ghost var f0 := fmap[..];
    RearrangedRefl(f0, lo, hi);
    ExchangedNone(f0, p1, p2);
    var yyp1, yyp2, yyn := p1, p2, n;
    while yyn > 0
      invariant 0 <= yyn <= n && yyp1 == p1 + (n - yyn) && yyp2 == p2 + (n - yyn)
      invariant Rearranged(fmap[..], f0, lo, hi)
      invariant Exchanged(fmap[..], f0, p1, p2, n - yyn)
    {
      ExchangedOne(fmap[..], f0, p1, p2, n - yyn, lo, hi);
      SwapCells(fmap, yyp1, yyp2);
      yyp1, yyp2, yyn := yyp1 + 1, yyp2 + 1, yyn - 1;
    }
  }

  /** Smaller keys up to n, equal ones between n and m, larger ones from m. */
  ghost predicate SplitAt(f: seq<nat>, e: seq<nat>, med: nat, lo: int, hi: int, n: int, m: int) {
    0 <= lo <= n + 1 <= m <= hi + 1 <= |f| && Keyed(f, e) &&
    (forall k :: lo <= k <= n ==> e[f[k]] < med) &&
    (forall k :: n < k < m ==> e[f[k]] == med) &&
    (forall k :: m <= k <= hi ==> e[f[k]] > med)
  }

  lemma GatherLeft(f: seq<nat>, g: seq<nat>, e: seq<nat>, med: nat, lo: int, ltLo: int, unLo: int, n: int)
    requires 0 <= lo <= ltLo <= unLo <= |f| == |g| && Keyed(f, e) && Keyed(g, e)
    requires forall k :: lo <= k < ltLo ==> e[f[k]] == med
    requires forall k :: ltLo <= k < unLo ==> e[f[k]] < med
    requires n == if ltLo - lo < unLo - ltLo then ltLo - lo else unLo - ltLo
    requires Exchanged(g, f, lo, unLo - n, n)
    ensures forall k :: lo <= k < lo + unLo - ltLo ==> e[g[k]] < med
    ensures forall k :: lo + unLo - ltLo <= k < unLo ==> e[g[k]] == med
    ensures forall k :: unLo <= k < |g| ==> g[k] == f[k]
  {}

  lemma GatherRight(f: seq<nat>, g: seq<nat>, e: seq<nat>, med: nat, unLo: int, gtHi: int, hi: int, m: int)
    requires 0 <= unLo <= gtHi + 1 <= hi + 1 <= |f| == |g| && Keyed(f, e) && Keyed(g, e)
    requires forall k :: gtHi < k <= hi ==> e[f[k]] == med
    requires forall k :: unLo <= k <= gtHi ==> e[f[k]] > med
    requires m == if hi - gtHi < gtHi - unLo + 1 then hi - gtHi else gtHi - unLo + 1
    requires Exchanged(g, f, unLo, hi - m + 1, m)
    ensures forall k :: unLo <= k < unLo + hi - gtHi ==> e[g[k]] == med
    ensures forall k :: unLo + hi - gtHi <= k <= hi ==> e[g[k]] > med
    ensures forall k :: 0 <= k < unLo ==> g[k] == f[k]
  {}

  /** Brings the equal keys from both ends to the middle. */
  method Gather(fmap: array<nat>, ghost e: seq<nat>, ghost med: nat, lo: int, hi: int,
                ltLo: int, unLo: int, gtHi: int, ghost f0: seq<nat>)
    returns (n: int, m: int)
    requires Partitioning(fmap[..], f0, e, med, lo, hi, ltLo, unLo, unLo - 1, gtHi)
    modifies fmap
    ensures Rearranged(fmap[..], f0, lo, hi)
    ensures SplitAt(fmap[..], e, med, lo, hi, n, m)
  {
    hide Rearranged, Exchanged;
    ghost var f1 := fmap[..];
    var unHi := unLo - 1;
    n := if ltLo - lo < unLo - ltLo then ltLo - lo else unLo - ltLo;
    VSwap(fmap, lo, unLo - n, n, lo, hi);
    ghost var f2 := fmap[..];
    RearrangedTrans(f2, f1, f0, lo, hi);
    RearrangedKeyed(f2, f1, e, lo, hi);
    GatherLeft(f1, f2, e, med, lo, ltLo, unLo, n);
    m := if hi - gtHi < gtHi - unHi then hi - gtHi else gtHi - unHi;
    VSwap(fmap, unLo, hi - m + 1, m, lo, hi);
    ghost var f3 := fmap[..];
    RearrangedTrans(f3, f2, f0, lo, hi);
    RearrangedKeyed(f3, f2, e, lo, hi);
    GatherRight(f2, f3, e, med, unLo, gtHi, hi, m);
    n := lo + unLo - ltLo - 1;
    m := hi - (gtHi - unHi) + 1;
  }

  /** The pivot is one of the keys, so the middle part is not empty. */
  lemma MiddleNotEmpty(g: seq<nat>, f: seq<nat>, e: seq<nat>, med: nat, lo: int, hi: int, n: int, m: int, p: int)
    requires SplitAt(g, e, med, lo, hi, n, m) && Rearranged(g, f, lo, hi) && Keyed(f, e)
    requires lo <= p <= hi && e[f[p]] == med
    ensures n + 1 < m
  {
    RearrangedSym(g, f, lo, hi);
    var k := RearrangedFrom(f, g, lo, hi, p);
  }
}
