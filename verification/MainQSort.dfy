/** The main sort's bucket sorts: a shell sort, and a three-way quicksort on successive bytes. */
module MainQSort {
  import opened Rotations
  import opened Rearrange
  import opened ThreeWay
  import opened RangeStack
  import opened MainCompare

  const MAX_BLOCK := 900000

  ghost predicate Ready(block: seq<Byte>, quadrant: seq<nat>, s: seq<Byte>) {
    Wrapped(block, s) && QuadrantsWrapped(quadrant, |s|) && Cached(quadrant, s)
  }

  /** The rotations listed at lo..hi agree on their first d bytes. */
  ghost predicate Prefixed(f: seq<nat>, s: seq<Byte>, lo: int, hi: int, d: nat) {
    0 <= lo && hi < |f| && Keyed(f, s) && forall i, j :: lo <= i <= hi && lo <= j <= hi ==> Same(s, f[i], f[j], d)
  }

  lemma PrefixedRearranged(g: seq<nat>, f: seq<nat>, s: seq<Byte>, lo: int, hi: int, d: nat)
    requires Prefixed(f, s, lo, hi, d) && Rearranged(g, f, lo, hi)
    ensures Prefixed(g, s, lo, hi, d)
  {
    hide Same, Rearranged;
    RearrangedKeyed(g, f, s, lo, hi);
    SameLength(g, f, lo, hi);
    forall i, j | lo <= i <= hi && lo <= j <= hi ensures Same(s, g[i], g[j], d) {
      var x := RearrangedFrom(g, f, lo, hi, i);
      var y := RearrangedFrom(g, f, lo, hi, j);
    }
  }

  lemma SameLength(g: seq<nat>, f: seq<nat>, lo: int, hi: int)
    requires Rearranged(g, f, lo, hi)
    ensures |g| == |f|
  {}

  /** After a common prefix, the rest of the rotations decides. */
  lemma VerdictPrefixed(s: seq<Byte>, a: nat, b: nat, d: nat, gt: bool)
    requires a < |s| && b < |s| && d <= |s| && a + d < 2 * |s| && b + d < 2 * |s| && Same(s, a, b, d)
    requires Verdict(s, Mod(|s|, a + d), Mod(|s|, b + d), gt)
    ensures if gt then Ranks(s)[b] <= Ranks(s)[a] else Ranks(s)[a] <= Ranks(s)[b]
  {
    hide Same, Le, Ranks;
    AdvanceWithin(|s|, a, d);
    AdvanceWithin(|s|, b, d);
    RankOrder(s, a, b);
    RankOrder(s, b, a);
    SameSym(s, a, b, d);
    LeLater(s, a, b, d);
    LeLater(s, b, a, d);
  }

  lemma LeLater(s: seq<Byte>, a: nat, b: nat, d: nat)
    requires a < |s| && b < |s| && Same(s, a, b, d)
    ensures Le(s, Advance(|s|, a, d), Advance(|s|, b, d), |s|) ==> Le(s, a, b, |s|)
  {
    hide Same, Le;
    LeSplit(s, a, b, d, |s|);
    assert d + |s| == |s| + d;
    LeSplit(s, a, b, |s|, d);
    SameSym(s, a, b, d);
  }

  // ----- shell sort -----

  const INCS: seq<nat> := [1, 4, 13, 40, 121, 364, 1093, 3280, 9841, 29524, 88573, 265720, 797161, 2391484]

  /** An insertion in progress: f has a hole at position h, which the element from position i would fill. */
  ghost predicate Inserting(f: seq<nat>, f0: seq<nat>, e: seq<nat>, i: int, h: int, gap: nat, lo: int, hi: int) {
    0 <= lo <= h <= i <= hi < |f| && |f| == |f0| && Keyed(f, e) && Keyed(f0, e) &&
    Rearranged(f[h := f0[i]], f0, lo, hi) &&
    (forall k :: lo <= k < h || i < k <= hi ==> f[k] == f0[k]) &&
    (gap == 1 ==> forall k :: h < k <= i ==> f[k] == f0[k - 1] && e[f0[i]] <= e[f[k]])
  }

  lemma InsertStart(f: seq<nat>, e: seq<nat>, i: int, gap: nat, lo: int, hi: int)
    requires 0 <= lo <= i <= hi < |f| && Keyed(f, e)
    ensures Inserting(f, f, e, i, i, gap, lo, hi)
  {
    assert f[i := f[i]] == f;
    RearrangedRefl(f, lo, hi);
  }

  lemma HoleStep(f: seq<nat>, f0: seq<nat>, v: nat, h: int, gap: nat, lo: int, hi: int)
    requires 0 <= lo <= h - gap && h <= hi < |f| == |f0| && gap >= 1
    requires Rearranged(f[h := v], f0, lo, hi)
    ensures Rearranged(f[h := f[h - gap]][h - gap := v], f0, lo, hi)
  {
    hide Rearranged;
    var g := f[h := v];
    SwapRearranges(g, h, h - gap, lo, hi);
    RearrangedTrans(Swap(g, h, h - gap), g, f0, lo, hi);
    assert Swap(g, h, h - gap) == f[h := f[h - gap]][h - gap := v];
  }

  lemma InsertStep(f: seq<nat>, f0: seq<nat>, e: seq<nat>, i: int, h: int, gap: nat, lo: int, hi: int)
    requires Inserting(f, f0, e, i, h, gap, lo, hi) && gap >= 1 && lo <= h - gap
    requires e[f0[i]] <= e[f[h - gap]]
    ensures Inserting(f[h := f[h - gap]], f0, e, i, h - gap, gap, lo, hi)
  {
    hide Rearranged;
    HoleStep(f, f0, f0[i], h, gap, lo, hi);
  }

  lemma InsertDone(f: seq<nat>, f0: seq<nat>, e: seq<nat>, i: int, h: int, gap: nat, lo: int, hi: int)
    requires Inserting(f, f0, e, i, h, gap, lo, hi)
    ensures var g := f[h := f0[i]];
            Rearranged(g, f0, lo, hi) && Keyed(g, e)
            && (gap == 1 && Ascending(f0, e, lo, i - 1) && (h == lo || e[f0[h - 1]] <= e[f0[i]]) ==> Ascending(g, e, lo, i))
  {
    hide Rearranged;
    RearrangedKeyed(f[h := f0[i]], f0, e, lo, hi);
  }

  lemma InsertTouches(f: seq<nat>, f0: seq<nat>, s: seq<Byte>, i: int, h: int, gap: nat, lo: int, hi: int, d: nat)
    requires Inserting(f, f0, Ranks(s), i, h, gap, lo, hi) && Prefixed(f0, s, lo, hi, d) && lo <= h - gap && gap >= 1
    ensures f[h - gap] == f0[h - gap] < |s| && f0[i] < |s| && Same(s, f[h - gap], f0[i], d)
  {
    hide Same, Rearranged;
  }

  lemma RanksKeyed(f: seq<nat>, s: seq<Byte>, lo: int, hi: int, d: nat)
    requires Prefixed(f, s, lo, hi, d)
    ensures Keyed(f, Ranks(s))
  {}

  lemma OvershootLess(block: seq<Byte>, s: seq<Byte>)
    requires Wrapped(block, s)
    ensures |s| > N_OVERSHOOT
  {}

  /** Moves element i down in steps of gap past every greater rotation in its chain. */
  method Insert(ptr: array<nat>, block: array<Byte>, quadrant: array<nat>, nblock: nat, i: int, lo: int, hi: int, gap: nat,
                d: nat, budget: int, ghost s: seq<Byte>) returns (budget': int)
    requires ptr != quadrant && Ready(block[..], quadrant[..], s) && nblock == |s| && gap >= 1
    requires 0 <= lo && lo + gap <= i <= hi < ptr.Length && d <= N_RADIX + N_QSORT + 1
    requires Prefixed(ptr[..], s, lo, hi, d)
    modifies ptr
    ensures Rearranged(ptr[..], old(ptr[..]), lo, hi) && budget' <= budget
    ensures Keyed(ptr[..], Ranks(s))
    ensures gap == 1 && old(Keyed(ptr[..], Ranks(s)) && Ascending(ptr[..], Ranks(s), lo, i - 1)) ==> Ascending(ptr[..], Ranks(s), lo, i)
  {
    hide Rearranged, Same, Ranks, Prefixed, Inserting, Verdict, Wrapped, QuadrantsWrapped, Cached, Ascending;
    OvershootLess(block[..], s);
    ghost var f0, e := ptr[..], Ranks(s);
    RanksKeyed(f0, s, lo, hi, d);
    var v := ptr[i];
    var j := i;
    budget' := budget;
    InsertStart(f0, e, i, gap, lo, hi);
    var more := true;
    while more
      invariant lo <= j <= i && (more ==> lo + gap <= j)
      invariant Inserting(ptr[..], f0, e, i, j, gap, lo, hi) && budget' <= budget
      invariant !more ==> j <= lo + gap - 1 || Settles(f0, e, i, j, gap)
      decreases j - lo, more
    {
      InsertTouches(ptr[..], f0, s, i, j, gap, lo, hi, d);
      more, budget' := MainGtU(ptr[j - gap] + d, v + d, block, quadrant, nblock, budget', s);
      VerdictPrefixed(s, ptr[j - gap], v, d, more);
      if more {
        InsertStep(ptr[..], f0, e, i, j, gap, lo, hi);
        ghost var f := ptr[..];
        ptr[j] := ptr[j - gap];
        assert ptr[..] == f[j := f[j - gap]];
        j := j - gap;
        if j <= lo + gap - 1 { more := false; }
      }
    }
    InsertDone(ptr[..], f0, e, i, j, gap, lo, hi);
    ghost var f := ptr[..];
    ptr[j] := v;
    assert ptr[..] == f[j := f0[i]];
  }

  /** The element a step below the hole is not greater than the one to be inserted. */
  ghost predicate Settles(f0: seq<nat>, e: seq<nat>, i: int, h: int, gap: nat) {
    0 <= h - gap < |f0| && 0 <= i < |f0| && f0[h - gap] < |e| && f0[i] < |e| && e[f0[h - gap]] <= e[f0[i]]
  }

  /** Three insertions in a row, or as many as there are. */
  method InsertThree(ptr: array<nat>, block: array<Byte>, quadrant: array<nat>, nblock: nat, i: int, lo: int, hi: int,
                     gap: nat, d: nat, budget: int, ghost s: seq<Byte>) returns (i': int, budget': int)
    requires ptr != quadrant && Ready(block[..], quadrant[..], s) && nblock == |s| && gap >= 1
    requires 0 <= lo && lo + gap <= i <= hi + 1 <= ptr.Length && d <= N_RADIX + N_QSORT + 1
    requires Prefixed(ptr[..], s, lo, hi, d) && Keyed(ptr[..], Ranks(s))
    requires gap == 1 ==> Ascending(ptr[..], Ranks(s), lo, i - 1)
    modifies ptr
    ensures i <= i' <= hi + 1 && (i <= hi ==> i < i') && budget' <= budget
    ensures Rearranged(ptr[..], old(ptr[..]), lo, hi) && Keyed(ptr[..], Ranks(s)) && Prefixed(ptr[..], s, lo, hi, d)
    ensures gap == 1 ==> Ascending(ptr[..], Ranks(s), lo, i' - 1)
  {
    hide Rearranged, Ranks, Prefixed, Ready, Ascending, Keyed;
    ghost var f0 := ptr[..];
    i', budget' := i, budget;
    RearrangedRefl(f0, lo, hi);
    for copy := 0 to 3
      invariant i <= i' <= hi + 1 && (copy > 0 && i <= hi ==> i < i') && budget' <= budget
      invariant Rearranged(ptr[..], f0, lo, hi) && Keyed(ptr[..], Ranks(s)) && Prefixed(ptr[..], s, lo, hi, d)
      invariant gap == 1 ==> Ascending(ptr[..], Ranks(s), lo, i' - 1)
    {
      if i' > hi { break; }
      ghost var f := ptr[..];
      budget' := Insert(ptr, block, quadrant, nblock, i', lo, hi, gap, d, budget', s);
      RearrangedTrans(ptr[..], f, f0, lo, hi);
      PrefixedRearranged(ptr[..], f, s, lo, hi, d);
      i' := i' + 1;
    }
  }

  /** Sorts positions lo..hi, whose rotations agree on d bytes, unless the budget runs out. */
  method MainSimpleSort(ptr: array<nat>, block: array<Byte>, quadrant: array<nat>, nblock: nat, lo: int, hi: int,
                        d: nat, budget: int, ghost s: seq<Byte>) returns (budget': int)
    requires ptr != quadrant && Ready(block[..], quadrant[..], s) && nblock == |s|
    requires 0 <= lo <= hi + 1 <= ptr.Length && hi - lo < MAX_BLOCK && d <= N_RADIX + N_QSORT + 1
    requires Prefixed(ptr[..], s, lo, hi, d)
    modifies ptr
    ensures Rearranged(ptr[..], old(ptr[..]), lo, hi) && budget' <= budget && Keyed(ptr[..], Ranks(s))
    ensures budget' >= 0 ==> Ascending(ptr[..], Ranks(s), lo, hi)
  {
    hide Rearranged, Ranks, Prefixed, Ready, Ascending, Keyed;
    ghost var f0 := ptr[..];
    RearrangedRefl(f0, lo, hi);
    RanksKeyed(f0, s, lo, hi, d);
    budget' := budget;
    var bigN := hi - lo + 1;
    if bigN < 2 {
      AscendingShort(f0, Ranks(s), lo, hi);
      return;
    }
    var hp: int := 0;
    while INCS[hp] < bigN
      invariant 0 <= hp < 14 && (hp == 0 || INCS[hp - 1] < bigN)
      decreases 14 - hp
    {
      hp := hp + 1;
    }
    hp := hp - 1;
    assert hp >= 0;
    while hp >= 0
      invariant -1 <= hp < 13 && budget' <= budget
      invariant Rearranged(ptr[..], f0, lo, hi) && Keyed(ptr[..], Ranks(s)) && Prefixed(ptr[..], s, lo, hi, d)
      invariant hp >= 0 ==> INCS[hp] < bigN
      invariant hp == -1 ==> Ascending(ptr[..], Ranks(s), lo, hi)
    {
      var h := INCS[hp];
      var i := lo + h;
      StepsOfIncs(hp);
      if h == 1 { AscendingShort(ptr[..], Ranks(s), lo, lo); }
      while true
        invariant lo + h <= i <= hi + 1 && budget' <= budget
        invariant Rearranged(ptr[..], f0, lo, hi) && Keyed(ptr[..], Ranks(s)) && Prefixed(ptr[..], s, lo, hi, d)
        invariant h == 1 ==> Ascending(ptr[..], Ranks(s), lo, i - 1)
        decreases hi + 1 - i
      {
        ghost var f := ptr[..];
        if i > hi { break; }
        var from := i;
        i, budget' := InsertThree(ptr, block, quadrant, nblock, i, lo, hi, h, d, budget', s);
        RearrangedTrans(ptr[..], f, f0, lo, hi);
        if i == from + 3 && budget' < 0 { return; }
      }
      hp := hp - 1;
    }
  }

  lemma StepsOfIncs(hp: nat)
    requires hp < 13
    ensures INCS[hp] >= 1 && (INCS[hp] == 1 <==> hp == 0) && (hp > 0 ==> INCS[hp - 1] < INCS[hp])
  {}

  lemma AscendingShort(f: seq<nat>, e: seq<nat>, lo: int, hi: int)
    requires hi <= lo && Keyed(f, e)
    ensures Ascending(f, e, lo, hi)
  {}

  // ----- three-way quicksort -----

  const SMALL_THRESH := 20
  const DEPTH_THRESH := N_RADIX + N_QSORT
  const STACK_SIZE := 100

  function KeyAt(s: seq<Byte>, d: nat, i: nat): nat
    requires i < |s| && d < |s|
  {
    s[Mod(|s|, i + d)]
  }

  /** The byte d after the start of each rotation. */
  ghost function KeysAt(s: seq<Byte>, d: nat): (k: seq<nat>)
    requires d < |s|
    ensures |k| == |s| && forall i :: 0 <= i < |s| ==> k[i] == s[Mod(|s|, i + d)]
  {
    seq(|s|, i requires 0 <= i < |s| => KeyAt(s, d, i))
  }

  /** The middle one of three. */
  function Med3(a: nat, b: nat, c: nat): (m: nat)
    ensures m == a || m == b || m == c
    ensures (a <= m || b <= m) && (b <= m || c <= m) && (a <= m || c <= m)
    ensures (m <= a || m <= b) && (m <= b || m <= c) && (m <= a || m <= c)
  {
    var lo, hi := if a > b then b else a, if a > b then a else b;
    if hi > c then if lo > c then lo else c else hi
  }

  lemma BlockKey(block: seq<Byte>, s: seq<Byte>, f: seq<nat>, d: nat, i: int)
    requires Wrapped(block, s) && 0 <= i < |f| && Keyed(f, s) && d <= DEPTH_THRESH
    ensures f[i] < |s| && d < |s| && f[i] + d < |block| && block[f[i] + d] == KeysAt(s, d)[f[i]]
  {}

  /** Moves every rotation of lo..hi to the side of med its byte at depth d belongs to. */
  method PartitionBytes(ptr: array<nat>, block: array<Byte>, d: nat, lo: int, hi: int, med: nat, ghost s: seq<Byte>)
    returns (ltLo: int, unLo: int, gtHi: int)
    requires Wrapped(block[..], s) && d <= DEPTH_THRESH && 0 <= lo <= hi < ptr.Length && Keyed(ptr[..], s)
    modifies ptr
    ensures Partitioning(ptr[..], old(ptr[..]), KeysAt(s, d), med, lo, hi, ltLo, unLo, unLo - 1, gtHi)
  {
    hide Rearranged, Partitioning, KeysAt, Wrapped;
    OvershootLess(block[..], s);
    ghost var f0, e := ptr[..], KeysAt(s, d);
    PartitionStart(f0, e, med, lo, hi);
    ltLo, unLo := lo, lo;
    var unHi := hi;
    gtHi := hi;
    while true
      invariant Bounds(ptr[..], e, lo, hi, ltLo, unLo, unHi, gtHi)
      invariant Partitioning(ptr[..], f0, e, med, lo, hi, ltLo, unLo, unHi, gtHi)
      decreases unHi - unLo
    {
      while true
        invariant Bounds(ptr[..], e, lo, hi, ltLo, unLo, unHi, gtHi)
        invariant Partitioning(ptr[..], f0, e, med, lo, hi, ltLo, unLo, unHi, gtHi)
        decreases unHi - unLo
      {
        if unLo > unHi { break; }
        PartitionLow(ptr[..], f0, e, med, lo, hi, ltLo, unLo, unHi, gtHi);
        BlockKey(block[..], s, ptr[..], d, unLo);
        var n := block[ptr[unLo] + d] - med;
        if n == 0 {
          ptr[unLo], ptr[ltLo] := ptr[ltLo], ptr[unLo];
          ltLo, unLo := ltLo + 1, unLo + 1;
          continue;
        }
        if n > 0 { break; }
        unLo := unLo + 1;
      }
      while true
        invariant Bounds(ptr[..], e, lo, hi, ltLo, unLo, unHi, gtHi)
        invariant Partitioning(ptr[..], f0, e, med, lo, hi, ltLo, unLo, unHi, gtHi)
        invariant unLo <= unHi ==> e[ptr[unLo]] > med
        decreases unHi - unLo
      {
        if unLo > unHi { break; }
        PartitionHigh(ptr[..], f0, e, med, lo, hi, ltLo, unLo, unHi, gtHi);
        BlockKey(block[..], s, ptr[..], d, unHi);
        var n := block[ptr[unHi] + d] - med;
        if n == 0 {
          ptr[unHi], ptr[gtHi] := ptr[gtHi], ptr[unHi];
          gtHi, unHi := gtHi - 1, unHi - 1;
          continue;
        }
        if n < 0 { break; }
        unHi := unHi - 1;
      }
      if unLo > unHi { break; }
      PartitionExchange(ptr[..], f0, e, med, lo, hi, ltLo, unLo, unHi, gtHi);
      ptr[unLo], ptr[unHi] := ptr[unHi], ptr[unLo];
      unLo, unHi := unLo + 1, unHi - 1;
    }
  }

  /** Rotations that agree on d bytes and then differ are ordered by the difference. */
  lemma KeyOrders(s: seq<Byte>, a: nat, b: nat, d: nat)
    requires a < |s| && b < |s| && d < |s| && Same(s, a, b, d)
    ensures KeysAt(s, d)[a] < KeysAt(s, d)[b] ==> Ranks(s)[a] <= Ranks(s)[b]
    ensures KeysAt(s, d)[a] == KeysAt(s, d)[b] ==> Same(s, a, b, d + 1)
  {
    hide Same, Le, Ranks;
    AdvanceWithin(|s|, a, d);
    AdvanceWithin(|s|, b, d);
    if KeysAt(s, d)[a] < KeysAt(s, d)[b] {
      Decides(s, a, b, d);
      RankOrder(s, a, b);
    } else if KeysAt(s, d)[a] == KeysAt(s, d)[b] {
      SameMore(s, a, b, d);
    }
  }

  /** Positions in different parts are in order. */
  ghost predicate PartsOrdered(g: seq<nat>, e: seq<nat>, lo: int, hi: int, n: int, m: int) {
    0 <= lo <= n + 1 <= m <= hi + 1 <= |g| && Keyed(g, e) &&
    forall i, j :: lo <= i < j <= hi && !(j <= n || m <= i || (n < i && j < m)) ==> e[g[i]] <= e[g[j]]
  }

  lemma SplitOrders(g: seq<nat>, s: seq<Byte>, med: nat, lo: int, hi: int, n: int, m: int, d: nat)
    requires d < |s| && Prefixed(g, s, lo, hi, d) && SplitAt(g, KeysAt(s, d), med, lo, hi, n, m)
    ensures PartsOrdered(g, Ranks(s), lo, hi, n, m)
    ensures Prefixed(g, s, lo, n, d) && Prefixed(g, s, m, hi, d) && Prefixed(g, s, n + 1, m - 1, d + 1)
  {
    hide Same, KeysAt, Ranks;
    forall i, j | lo <= i < j <= hi && !(j <= n || m <= i || (n < i && j < m)) ensures Ranks(s)[g[i]] <= Ranks(s)[g[j]] {
      KeyOrders(s, g[i], g[j], d);
    }
    forall i, j | n + 1 <= i <= m - 1 && n + 1 <= j <= m - 1 ensures Same(s, g[i], g[j], d + 1) {
      KeyOrders(s, g[i], g[j], d);
    }
  }

  lemma AllSame(g: seq<nat>, f: seq<nat>, s: seq<Byte>, med: nat, lo: int, hi: int, ltLo: int, unLo: int, gtHi: int, d: nat)
    requires d < |s| && Prefixed(g, s, lo, hi, d)
    requires Partitioning(g, f, KeysAt(s, d), med, lo, hi, ltLo, unLo, unLo - 1, gtHi) && gtHi < ltLo
    ensures Prefixed(g, s, lo, hi, d + 1)
  {
    hide Same, KeysAt, Rearranged;
    forall i, j | lo <= i <= hi && lo <= j <= hi ensures Same(s, g[i], g[j], d + 1) {
      KeyOrders(s, g[i], g[j], d);
    }
  }

  datatype Task = Task(r: Range, d: nat)

  datatype Result = Abandoned | Finished | Deeper | Split(n: int, m: int)

  /** Sorts a small or deep range outright; partitions any other by its bytes at depth d. */
  method SortRange(ptr: array<nat>, block: array<Byte>, quadrant: array<nat>, nblock: nat, lo: int, hi: int, d: nat,
                   budget: int, ghost s: seq<Byte>) returns (res: Result, budget': int)
    requires ptr != quadrant && Ready(block[..], quadrant[..], s) && nblock == |s|
    requires 0 <= lo <= hi + 1 <= ptr.Length && hi - lo < MAX_BLOCK && d <= DEPTH_THRESH + 1
    requires Prefixed(ptr[..], s, lo, hi, d)
    modifies ptr
    ensures Rearranged(ptr[..], old(ptr[..]), lo, hi) && budget' <= budget && (res.Abandoned? <==> budget' < 0 && !res.Deeper? && !res.Split?)
    ensures res.Finished? ==> Keyed(ptr[..], Ranks(s)) && Ascending(ptr[..], Ranks(s), lo, hi)
    ensures res.Deeper? ==> lo < hi && d <= DEPTH_THRESH && Prefixed(ptr[..], s, lo, hi, d + 1)
    ensures res.Split? ==> hi - lo >= SMALL_THRESH && d <= DEPTH_THRESH && lo <= res.n + 1 < res.m <= hi + 1
    ensures res.Split? ==> PartsOrdered(ptr[..], Ranks(s), lo, hi, res.n, res.m)
    ensures res.Split? ==> Prefixed(ptr[..], s, lo, res.n, d) && Prefixed(ptr[..], s, res.m, hi, d)
    ensures res.Split? ==> Prefixed(ptr[..], s, res.n + 1, res.m - 1, d + 1)
  {
    hide Rearranged, Ranks, Prefixed, Wrapped, QuadrantsWrapped, Cached, Ascending, Partitioning, SplitAt, PartsOrdered, KeysAt;
    OvershootLess(block[..], s);
    PrefixedKeyed(ptr[..], s, lo, hi, d);
    if hi - lo < SMALL_THRESH || d > DEPTH_THRESH {
      budget' := MainSimpleSort(ptr, block, quadrant, nblock, lo, hi, d, budget, s);
      return if budget' < 0 then Abandoned else Finished, budget';
    }
    budget' := budget;
    ghost var f := ptr[..];
    BlockKey(block[..], s, f, d, lo);
    BlockKey(block[..], s, f, d, hi);
    BlockKey(block[..], s, f, d, (lo + hi) / 2);
    var med := Med3(block[ptr[lo] + d], block[ptr[hi] + d], block[ptr[(lo + hi) / 2] + d]);
    ghost var p := if med == block[ptr[lo] + d] then lo else if med == block[ptr[hi] + d] then hi else (lo + hi) / 2;
    var ltLo, unLo, gtHi := PartitionBytes(ptr, block, d, lo, hi, med, s);
    PartitionedRearranged(ptr[..], f, KeysAt(s, d), med, lo, hi, ltLo, unLo, gtHi);
    if gtHi < ltLo {
      PrefixedRearranged(ptr[..], f, s, lo, hi, d);
      AllSame(ptr[..], f, s, med, lo, hi, ltLo, unLo, gtHi, d);
      return Deeper, budget';
    }
    var n, m := Gather(ptr, KeysAt(s, d), med, lo, hi, ltLo, unLo, gtHi, f);
    PrefixedRearranged(ptr[..], f, s, lo, hi, d);
    SplitOrders(ptr[..], s, med, lo, hi, n, m, d);
    MiddleNotEmpty(ptr[..], f, KeysAt(s, d), med, lo, hi, n, m, p);
    SplitBounds(ptr[..], KeysAt(s, d), med, lo, hi, n, m);
    return Split(n, m), budget';
  }

  lemma PrefixedKeyed(f: seq<nat>, s: seq<Byte>, lo: int, hi: int, d: nat)
    requires Prefixed(f, s, lo, hi, d)
    ensures Keyed(f, s)
  {}

  lemma PartitionedRearranged(g: seq<nat>, f: seq<nat>, e: seq<nat>, med: nat, lo: int, hi: int, ltLo: int, unLo: int, gtHi: int)
    requires Partitioning(g, f, e, med, lo, hi, ltLo, unLo, unLo - 1, gtHi)
    ensures Rearranged(g, f, lo, hi)
  {}

  lemma SplitBounds(g: seq<nat>, e: seq<nat>, med: nat, lo: int, hi: int, n: int, m: int)
    requires SplitAt(g, e, med, lo, hi, n, m)
    ensures lo <= n + 1 <= m <= hi + 1
  {}

  // ----- pending tasks -----

  function Size(r: Range): int {
    r.hi - r.lo + 1
  }

  function Ranges(tasks: seq<Task>): (r: seq<Range>)
    ensures |r| == |tasks| && forall i :: 0 <= i < |tasks| ==> r[i] == tasks[i].r
  {
    seq(|tasks|, i requires 0 <= i < |tasks| => tasks[i].r)
  }

  lemma RangesAdd(a: seq<Task>, b: seq<Task>)
    ensures Ranges(a + b) == Ranges(a) + Ranges(b)
  {}

  function Pow3(k: nat): (r: nat)
    ensures r >= 1
  {
    if k == 0 then 1 else 3 * Pow3(k - 1)
  }

  /** The square of a range three times over for every level fits the square of the whole. */
  predicate Shrunk(m: int, k: nat, whole: int) {
    0 <= m && m * m * Pow3(k) <= whole * whole
  }

  predicate Sized(tasks: seq<Task>, whole: int) {
    forall k: nat :: k < |tasks| ==> Shrunk(Size(tasks[k].r), k, whole)
  }

  lemma ShrunkHalf(m: int, b: int, k: nat, whole: int)
    requires Shrunk(m, k, whole) && 0 <= b && 2 * b <= m
    ensures Shrunk(b, k + 1, whole)
  {
    var p := Pow3(k);
    assert 3 * (b * b) <= m * m by { assert (2 * b) * (2 * b) <= m * m by { Squares(2 * b, m); } }
    Scale(3 * (b * b), m * m, p);
    assert b * b * Pow3(k + 1) == 3 * (b * b) * p;
  }

  lemma ShrunkThird(m: int, c: int, k: nat, whole: int)
    requires Shrunk(m, k, whole) && 0 <= c && 3 * c <= m
    ensures Shrunk(c, k + 2, whole)
  {
    var p := Pow3(k);
    assert 9 * (c * c) <= m * m by { assert (3 * c) * (3 * c) <= m * m by { Squares(3 * c, m); } }
    Scale(9 * (c * c), m * m, p);
    assert Pow3(k + 2) == 9 * p by { assert Pow3(k + 1) == 3 * p; }
    assert c * c * (9 * p) == 9 * (c * c) * p;
  }

  lemma Squares(a: int, b: int)
    requires 0 <= a <= b
    ensures a * a <= b * b
  {
    assert a * a <= a * b <= b * b;
  }

  lemma Scale(a: int, b: int, p: nat)
    requires a <= b
    ensures a * p <= b * p
  {}

  lemma ShrunkPart(m: int, a: int, k: nat, whole: int)
    requires Shrunk(m, k, whole) && 0 <= a <= m
    ensures Shrunk(a, k, whole)
  {
    Squares(a, m);
    Scale(a * a, m * m, Pow3(k));
  }

  lemma TooDeepToSplit(m: int, k: nat, whole: int)
    requires m >= 21 && 0 <= whole <= MAX_BLOCK && k >= 20
    ensures !Shrunk(m, k, whole)
  {
    Pow3Twenty();
    Pow3Mono(20, k);
    Squares(whole, MAX_BLOCK);
    Squares(21, m);
    Scale(441, m * m, Pow3(k));
    Scale(Pow3(20), Pow3(k), 441);
  }

  /** A range still to be split is not deep in the stack. */
  lemma ShrunkDepth(m: int, k: nat, whole: int)
    requires Shrunk(m, k, whole) && m >= 21 && 0 <= whole <= MAX_BLOCK
    ensures k <= 19
  {
    if k >= 20 { TooDeepToSplit(m, k, whole); }
  }

  lemma {:induction false} Pow3Mono(a: nat, b: nat)
    requires a <= b
    ensures Pow3(a) <= Pow3(b)
  {
    if a < b { Pow3Mono(a, b - 1); }
  }

  lemma Pow3Twenty()
    ensures Pow3(20) == 3486784401
  {
    assert Pow3(5) == 243;
    assert Pow3(10) == 59049;
    assert Pow3(15) == 14348907;
  }

  /** Each pending range agrees on the bytes it has been split by. */
  ghost predicate Deep(f: seq<nat>, s: seq<Byte>, tasks: seq<Task>) {
    forall k :: 0 <= k < |tasks| ==> tasks[k].d <= DEPTH_THRESH + 1 && Prefixed(f, s, tasks[k].r.lo, tasks[k].r.hi, tasks[k].d)
  }

  /** What the quicksort loop maintains. */
  ghost predicate Sorting(f: seq<nat>, f0: seq<nat>, s: seq<Byte>, tasks: seq<Task>, lo0: int, hi0: int) {
    && 0 <= lo0 <= hi0 < |f| && Rearranged(f, f0, lo0, hi0) && Stacked(Ranges(tasks), lo0, hi0)
    && Settled(f, Ranks(s), Ranges(tasks), lo0, hi0) && Deep(f, s, tasks) && Sized(tasks, hi0 - lo0 + 1)
  }

  lemma PrefixedKept(f: seq<nat>, g: seq<nat>, s: seq<Byte>, top: Range, r: Range, d: nat)
    requires Rearranged(g, f, top.lo, top.hi) && Apart(r, top) && Prefixed(f, s, r.lo, r.hi, d) && Keyed(g, s)
    ensures Prefixed(g, s, r.lo, r.hi, d)
  {
    hide Same;
  }

  /** Replacing the top task by parts of it. */
  lemma SortingStep(f: seq<nat>, g: seq<nat>, f0: seq<nat>, s: seq<Byte>, tasks: seq<Task>, top: Task, parts: seq<Task>, lo0: int, hi0: int)
    requires Sorting(f, f0, s, tasks + [top], lo0, hi0)
    requires Rearranged(g, f, top.r.lo, top.r.hi) && Settled(g, Ranks(s), Ranges(parts), top.r.lo, top.r.hi)
    requires Stacked(Ranges(tasks) + Ranges(parts), lo0, hi0) && Deep(g, s, parts) && Sized(tasks + parts, hi0 - lo0 + 1)
    ensures Sorting(g, f0, s, tasks + parts, lo0, hi0)
  {
    hide Settled, Covered, Rearranged, Prefixed, Ranks, Sized, Keyed;
    var stack := Ranges(tasks);
    RangesAdd(tasks, [top]);
    assert Ranges([top]) == [top.r];
    RangesAdd(tasks, parts);
    StackedPush(stack, top.r, lo0, hi0);
    SameLength(g, f, top.r.lo, top.r.hi);
    ReplaceTop(f, g, Ranks(s), stack, top.r, Ranges(parts), lo0, hi0);
    RearrangedWiden(g, f, top.r.lo, top.r.hi, lo0, hi0);
    RearrangedTrans(g, f, f0, lo0, hi0);
    SettledKeyed(g, s, stack + Ranges(parts), lo0, hi0);
    forall k | 0 <= k < |tasks + parts|
      ensures (tasks + parts)[k].d <= DEPTH_THRESH + 1
      ensures Prefixed(g, s, (tasks + parts)[k].r.lo, (tasks + parts)[k].r.hi, (tasks + parts)[k].d)
    {
      if k < |tasks| {
        assert (tasks + [top])[k] == tasks[k];
        assert Apart(stack[k], top.r);
        PrefixedKept(f, g, s, top.r, tasks[k].r, tasks[k].d);
      }
    }
  }

  lemma SettledKeyed(g: seq<nat>, s: seq<Byte>, stack: seq<Range>, lo: int, hi: int)
    requires Settled(g, Ranks(s), stack, lo, hi)
    ensures Keyed(g, s)
  {}

  lemma SortingStart(f: seq<nat>, s: seq<Byte>, lo: int, hi: int, d: nat)
    requires 0 <= lo <= hi < |f| && Prefixed(f, s, lo, hi, d) && d <= DEPTH_THRESH + 1
    ensures Sorting(f, f, s, [Task(Range(lo, hi), d)], lo, hi)
  {
    hide Same, Ranks;
    var r := Range(lo, hi);
    var stack := Ranges([Task(r, d)]);
    assert stack == [r] && stack == [] + [r];
    StackedPush([], r, lo, hi);
    RearrangedRefl(f, lo, hi);
    forall i, j | lo <= i < j <= hi ensures Covered(stack, i, j) {
      assert stack[0].lo <= i && j <= stack[0].hi;
    }
    assert Shrunk(hi - lo + 1, 0, hi - lo + 1);
  }

  lemma SortingTop(f: seq<nat>, f0: seq<nat>, s: seq<Byte>, tasks: seq<Task>, top: Task, lo0: int, hi0: int)
    requires Sorting(f, f0, s, tasks + [top], lo0, hi0)
    ensures 0 <= lo0 <= top.r.lo <= top.r.hi + 1 <= hi0 + 1 <= |f|
    ensures top.d <= DEPTH_THRESH + 1 && Prefixed(f, s, top.r.lo, top.r.hi, top.d)
    ensures Shrunk(Size(top.r), |tasks|, hi0 - lo0 + 1) && Sized(tasks, hi0 - lo0 + 1)
    ensures Stacked(Ranges(tasks), lo0, hi0) && forall t :: 0 <= t < |tasks| ==> Apart(tasks[t].r, top.r)
  {
    hide Settled, Rearranged, Prefixed, Ranks, Keyed, Pow3;
    RangesAdd(tasks, [top]);
    assert Ranges([top]) == [top.r];
    StackedPush(Ranges(tasks), top.r, lo0, hi0);
    assert (tasks + [top])[|tasks|] == top;
    forall k: nat | k < |tasks| ensures Shrunk(Size(tasks[k].r), k, hi0 - lo0 + 1) { assert (tasks + [top])[k] == tasks[k]; }
    forall t | 0 <= t < |tasks| ensures Apart(tasks[t].r, top.r) { assert Ranges(tasks)[t] == tasks[t].r; }
  }

  lemma SizedPush(tasks: seq<Task>, t: Task, whole: int)
    requires Sized(tasks, whole) && Shrunk(Size(t.r), |tasks|, whole)
    ensures Sized(tasks + [t], whole)
  {
    hide Shrunk;
    forall k: nat | k < |tasks + [t]| ensures Shrunk(Size((tasks + [t])[k].r), k, whole) {
      if k < |tasks| { assert (tasks + [t])[k] == tasks[k]; }
    }
  }

  lemma StackedTask(tasks: seq<Task>, t: Task, lo0: int, hi0: int)
    requires lo0 <= hi0 + 1 && Stacked(Ranges(tasks), lo0, hi0) && lo0 <= t.r.lo <= t.r.hi + 1 <= hi0 + 1
    requires forall k :: 0 <= k < |tasks| ==> Apart(tasks[k].r, t.r)
    ensures Stacked(Ranges(tasks + [t]), lo0, hi0)
  {
    RangesAdd(tasks, [t]);
    assert Ranges([t]) == [t.r];
    StackedPush(Ranges(tasks), t.r, lo0, hi0);
  }

  lemma SortingDone(f: seq<nat>, g: seq<nat>, f0: seq<nat>, s: seq<Byte>, tasks: seq<Task>, top: Task, lo0: int, hi0: int)
    requires Sorting(f, f0, s, tasks + [top], lo0, hi0)
    requires Rearranged(g, f, top.r.lo, top.r.hi) && Keyed(g, Ranks(s)) && Ascending(g, Ranks(s), top.r.lo, top.r.hi)
    ensures Sorting(g, f0, s, tasks, lo0, hi0)
  {
    hide Ranks, Sorting, Rearranged, Prefixed;
    SortingTop(f, f0, s, tasks, top, lo0, hi0);
    SameLength(g, f, top.r.lo, top.r.hi);
    assert tasks + [] == tasks && Ranges([]) == [] && Ranges(tasks) + [] == Ranges(tasks);
    SortingStep(f, g, f0, s, tasks, top, [], lo0, hi0);
  }

  lemma SortingDeeper(f: seq<nat>, g: seq<nat>, f0: seq<nat>, s: seq<Byte>, tasks: seq<Task>, top: Task, lo0: int, hi0: int)
    requires Sorting(f, f0, s, tasks + [top], lo0, hi0) && top.d <= DEPTH_THRESH
    requires Rearranged(g, f, top.r.lo, top.r.hi) && Prefixed(g, s, top.r.lo, top.r.hi, top.d + 1)
    ensures Sorting(g, f0, s, tasks + [Task(top.r, top.d + 1)], lo0, hi0)
  {
    hide Ranks, Sorting, Rearranged, Prefixed, Shrunk, Sized, Stacked;
    SortingTop(f, f0, s, tasks, top, lo0, hi0);
    var t := Task(top.r, top.d + 1);
    SizedPush(tasks, t, hi0 - lo0 + 1);
    StackedTask(tasks, t, lo0, hi0);
    RangesAdd(tasks, [t]);
    OneRange(g, s, t);
    SortingStep(f, g, f0, s, tasks, top, [t], lo0, hi0);
  }

  lemma OneRange(g: seq<nat>, s: seq<Byte>, t: Task)
    requires Prefixed(g, s, t.r.lo, t.r.hi, t.d) && t.d <= DEPTH_THRESH + 1
    ensures Settled(g, Ranks(s), Ranges([t]), t.r.lo, t.r.hi) && Deep(g, s, [t])
  {
    hide Same, Ranks;
    var stack := Ranges([t]);
    forall i, j | t.r.lo <= i < j <= t.r.hi ensures Covered(stack, i, j) {
      assert stack[0].lo <= i && j <= stack[0].hi;
    }
  }

  /** The three parts of a range, in the order they are pushed. */
  predicate PartsOf(parts: seq<Task>, top: Task, n: int, m: int) {
    |parts| == 3 && top.r.lo <= n + 1 < m <= top.r.hi + 1 &&
    Task(Range(top.r.lo, n), top.d) in parts && Task(Range(m, top.r.hi), top.d) in parts &&
    Task(Range(n + 1, m - 1), top.d + 1) in parts &&
    Apart(parts[0].r, parts[1].r) && Apart(parts[0].r, parts[2].r) && Apart(parts[1].r, parts[2].r) &&
    Size(parts[0].r) >= Size(parts[1].r) >= Size(parts[2].r) >= 0 &&
    Size(parts[0].r) + Size(parts[1].r) + Size(parts[2].r) == Size(top.r) &&
    forall k :: 0 <= k < 3 ==> PartOf(parts[k], top, n, m)
  }

  predicate PartOf(t: Task, top: Task, n: int, m: int) {
    t == Task(Range(top.r.lo, n), top.d) || t == Task(Range(m, top.r.hi), top.d) || t == Task(Range(n + 1, m - 1), top.d + 1)
  }

  lemma PartsSettle(g: seq<nat>, s: seq<Byte>, top: Task, n: int, m: int, parts: seq<Task>)
    requires PartsOf(parts, top, n, m) && PartsOrdered(g, Ranks(s), top.r.lo, top.r.hi, n, m)
    ensures Settled(g, Ranks(s), Ranges(parts), top.r.lo, top.r.hi)
  {
    hide Ranks;
    var stack := Ranges(parts);
    forall i, j | top.r.lo <= i < j <= top.r.hi ensures Ranks(s)[g[i]] <= Ranks(s)[g[j]] || Covered(stack, i, j) {
      if j <= n || m <= i || (n < i && j < m) {
        var t := if j <= n then Task(Range(top.r.lo, n), top.d)
                 else if m <= i then Task(Range(m, top.r.hi), top.d)
                 else Task(Range(n + 1, m - 1), top.d + 1);
        var k :| 0 <= k < 3 && parts[k] == t;
        assert stack[k].lo <= i && j <= stack[k].hi;
      }
    }
  }

  lemma SortingSplit(f: seq<nat>, g: seq<nat>, f0: seq<nat>, s: seq<Byte>, tasks: seq<Task>, top: Task, n: int, m: int,
                     parts: seq<Task>, lo0: int, hi0: int)
    requires Sorting(f, f0, s, tasks + [top], lo0, hi0) && top.d <= DEPTH_THRESH
    requires Rearranged(g, f, top.r.lo, top.r.hi) && PartsOrdered(g, Ranks(s), top.r.lo, top.r.hi, n, m)
    requires Prefixed(g, s, top.r.lo, n, top.d) && Prefixed(g, s, m, top.r.hi, top.d) && Prefixed(g, s, n + 1, m - 1, top.d + 1)
    requires PartsOf(parts, top, n, m)
    ensures Sorting(g, f0, s, tasks + parts, lo0, hi0)
  {
    hide Ranks, Sorting, Rearranged, Prefixed, Shrunk, Sized, Stacked, PartsOrdered, Settled;
    SortingTop(f, f0, s, tasks, top, lo0, hi0);
    PartsSettle(g, s, top, n, m, parts);
    PartsPush(tasks, top, n, m, parts, lo0, hi0);
    RangesAdd(tasks, parts);
    SortingStep(f, g, f0, s, tasks, top, parts, lo0, hi0);
  }

  /** One part more. */
  lemma PartPush(tasks: seq<Task>, t: Task, m: int, lo0: int, hi0: int)
    requires lo0 <= t.r.lo <= t.r.hi + 1 <= hi0 + 1 && Size(t.r) == m && Shrunk(m, |tasks|, hi0 - lo0 + 1)
    requires Sized(tasks, hi0 - lo0 + 1) && Stacked(Ranges(tasks), lo0, hi0)
    requires forall k :: 0 <= k < |tasks| ==> Apart(tasks[k].r, t.r)
    ensures Stacked(Ranges(tasks + [t]), lo0, hi0) && Sized(tasks + [t], hi0 - lo0 + 1)
  {
    hide Shrunk, Sized, Stacked, Ranges;
    SizedPush(tasks, t, hi0 - lo0 + 1);
    StackedTask(tasks, t, lo0, hi0);
  }

  lemma PartApart(r: Range, top: Task, t: Task, n: int, m: int)
    requires Apart(r, top.r) && PartOf(t, top, n, m) && top.r.lo <= n + 1 < m <= top.r.hi + 1
    ensures Apart(r, t.r) && top.r.lo <= t.r.lo <= t.r.hi + 1 <= top.r.hi + 1
  {}

  lemma PartsSizes(parts: seq<Task>, top: Task, n: int, m: int)
    requires PartsOf(parts, top, n, m)
    ensures |parts| == 3 && top.r.lo <= n + 1 < m <= top.r.hi + 1
    ensures PartOf(parts[0], top, n, m) && PartOf(parts[1], top, n, m) && PartOf(parts[2], top, n, m)
    ensures Apart(parts[0].r, parts[1].r) && Apart(parts[0].r, parts[2].r) && Apart(parts[1].r, parts[2].r)
    ensures Size(parts[0].r) >= Size(parts[1].r) >= Size(parts[2].r) >= 0
    ensures Size(parts[0].r) + Size(parts[1].r) + Size(parts[2].r) == Size(top.r)
  {}

  lemma ApartPush(tasks: seq<Task>, t: Task, r: Range)
    requires Apart(t.r, r) && forall k :: 0 <= k < |tasks| ==> Apart(tasks[k].r, r)
    ensures forall k :: 0 <= k <= |tasks| ==> Apart((tasks + [t])[k].r, r)
  {}

  lemma PartsPush(tasks: seq<Task>, top: Task, n: int, m: int, parts: seq<Task>, lo0: int, hi0: int)
    requires PartsOf(parts, top, n, m) && lo0 <= top.r.lo <= top.r.hi + 1 <= hi0 + 1
    requires Shrunk(Size(top.r), |tasks|, hi0 - lo0 + 1) && Sized(tasks, hi0 - lo0 + 1)
    requires Stacked(Ranges(tasks), lo0, hi0) && forall t :: 0 <= t < |tasks| ==> Apart(tasks[t].r, top.r)
    ensures Stacked(Ranges(tasks + parts), lo0, hi0) && Sized(tasks + parts, hi0 - lo0 + 1)
  {
    hide Shrunk, Sized, Stacked, Ranges, Pow3, Apart, PartOf, PartsOf, Size;
    PartsSizes(parts, top, n, m);
    var size, whole, a, b, c := Size(top.r), hi0 - lo0 + 1, parts[0], parts[1], parts[2];
    EmptyApart(top.r);
    PartApart(Range(0, -1), top, a, n, m);
    PartApart(Range(0, -1), top, b, n, m);
    PartApart(Range(0, -1), top, c, n, m);
    forall t | 0 <= t < |tasks| ensures Apart(tasks[t].r, a.r) && Apart(tasks[t].r, b.r) && Apart(tasks[t].r, c.r) {
      PartApart(tasks[t].r, top, a, n, m);
      PartApart(tasks[t].r, top, b, n, m);
      PartApart(tasks[t].r, top, c, n, m);
    }
    ApartPush(tasks, a, b.r);
    ApartPush(tasks, a, c.r);
    ApartPush(tasks + [a], b, c.r);
    ShrunkPart(size, Size(a.r), |tasks|, whole);
    ShrunkHalf(size, Size(b.r), |tasks|, whole);
    ShrunkThird(size, Size(c.r), |tasks|, whole);
    PartPush(tasks, a, Size(a.r), lo0, hi0);
    PartPush(tasks + [a], b, Size(b.r), lo0, hi0);
    PartPush(tasks + [a] + [b], c, Size(c.r), lo0, hi0);
    assert tasks + [a] + [b] + [c] == tasks + parts;
  }

  lemma EmptyApart(r: Range)
    ensures Apart(Range(0, -1), r)
  {}

  /** Termination: a deeper look at a range, or splitting off a pivot, costs less than the range itself. */
  function Cost(tasks: seq<Task>): nat {
    if |tasks| == 0 then 0 else Cost(tasks[..|tasks| - 1]) + TaskCost(tasks[|tasks| - 1])
  }

  function TaskCost(t: Task): nat {
    if Size(t.r) <= 0 || t.d > 16 then 1 else 1 + 3 * Size(t.r) * (17 - t.d)
  }

  lemma CostPush(tasks: seq<Task>, t: Task)
    ensures Cost(tasks + [t]) == Cost(tasks) + TaskCost(t)
  {
    assert (tasks + [t])[..|tasks|] == tasks;
  }

  lemma CostDeeper(t: Task)
    requires Size(t.r) >= 1 && t.d <= DEPTH_THRESH
    ensures TaskCost(Task(t.r, t.d + 1)) < TaskCost(t)
  {
    assert Size(t.r) * (17 - t.d) == Size(t.r) * (16 - t.d) + Size(t.r);
  }

  lemma CostSplit(tasks: seq<Task>, top: Task, n: int, m: int, parts: seq<Task>)
    requires PartsOf(parts, top, n, m) && top.d <= DEPTH_THRESH
    ensures Cost(tasks + parts) < Cost(tasks + [top])
  {
    hide TaskCost, Cost;
    var a, b, c := parts[0], parts[1], parts[2];
    CostPush(tasks, top);
    CostPush(tasks, a);
    CostPush(tasks + [a], b);
    CostPush(tasks + [a] + [b], c);
    assert tasks + [a] + [b] + [c] == tasks + parts;
    var x, y, z, k := n - top.r.lo + 1, top.r.hi - m + 1, m - n - 1, 17 - top.d;
    PartCosts(top, n, m, x, y, z, k);
    Three(parts, top, n, m);
    PivotPays(x, y, z, k);
  }

  lemma PivotPays(x: int, y: int, z: int, k: int)
    requires z >= 1
    ensures (1 + 3 * x * k) + (1 + 3 * y * k) + (1 + 3 * z * (k - 1)) < 1 + 3 * (x + y + z) * k
  {
    assert (x + y + z) * k == x * k + y * k + z * k;
    assert z * (k - 1) == z * k - z;
  }

  lemma PartCosts(top: Task, n: int, m: int, x: int, y: int, z: int, k: int)
    requires x == n - top.r.lo + 1 && y == top.r.hi - m + 1 && z == m - n - 1 && k == 17 - top.d
    requires x >= 0 && y >= 0 && z >= 1 && top.d <= DEPTH_THRESH
    ensures TaskCost(Task(Range(top.r.lo, n), top.d)) == 1 + 3 * x * k
    ensures TaskCost(Task(Range(m, top.r.hi), top.d)) == 1 + 3 * y * k
    ensures TaskCost(Task(Range(n + 1, m - 1), top.d + 1)) == 1 + 3 * z * (k - 1)
    ensures TaskCost(top) == 1 + 3 * (x + y + z) * k
  {}

  /** The parts are the three, each once. */
  lemma Three(parts: seq<Task>, top: Task, n: int, m: int)
    requires PartsOf(parts, top, n, m)
    ensures TaskCost(parts[0]) + TaskCost(parts[1]) + TaskCost(parts[2]) ==
            TaskCost(Task(Range(top.r.lo, n), top.d)) + TaskCost(Task(Range(m, top.r.hi), top.d)) +
            TaskCost(Task(Range(n + 1, m - 1), top.d + 1))
  {
    hide TaskCost;
    var x, y, z := Task(Range(top.r.lo, n), top.d), Task(Range(m, top.r.hi), top.d), Task(Range(n + 1, m - 1), top.d + 1);
    assert x in parts && y in parts && z in parts;
    assert z.d != x.d && z.d != y.d && x != y;
    var i :| 0 <= i < 3 && parts[i] == x;
    var j :| 0 <= j < 3 && parts[j] == y;
    var k :| 0 <= k < 3 && parts[k] == z;
    assert i != j && i != k && j != k;
  }

  /** The parts, larger ones first. */
  method OrderParts(lo: int, n: int, m: int, hi: int, d: nat) returns (a: Task, b: Task, c: Task)
    requires lo <= n + 1 < m <= hi + 1
    ensures PartsOf([a, b, c], Task(Range(lo, hi), d), n, m)
  {
    a, b, c := Task(Range(lo, n), d), Task(Range(m, hi), d), Task(Range(n + 1, m - 1), d + 1);
    ghost var x, y, z := a, b, c;
    if a.r.hi - a.r.lo < b.r.hi - b.r.lo { a, b := b, a; }
    if b.r.hi - b.r.lo < c.r.hi - c.r.lo { b, c := c, b; }
    if a.r.hi - a.r.lo < b.r.hi - b.r.lo { a, b := b, a; }
    ghost var parts := [a, b, c];
    assert parts[0] == a && parts[1] == b && parts[2] == c;
    assert x in parts && y in parts && z in parts;
  }

  /** Deals with one range: nothing is left of it, or a deeper look, or three parts. */
  method SortTask(ptr: array<nat>, block: array<Byte>, quadrant: array<nat>, nblock: nat, top: Task, budget: int,
                  ghost s: seq<Byte>, ghost f0: seq<nat>, ghost tasks: seq<Task>, ghost lo0: int, ghost hi0: int)
    returns (abandoned: bool, parts: seq<Task>, budget': int)
    requires ptr != quadrant && Ready(block[..], quadrant[..], s) && nblock == |s| && ptr.Length <= MAX_BLOCK
    requires Sorting(ptr[..], f0, s, tasks + [top], lo0, hi0)
    modifies ptr
    ensures budget' <= budget && (abandoned ==> budget' < 0)
    ensures abandoned ==> Rearranged(ptr[..], f0, lo0, hi0) && Keyed(ptr[..], Ranks(s))
    ensures !abandoned ==> Sorting(ptr[..], f0, s, tasks + parts, lo0, hi0) && Cost(tasks + parts) < Cost(tasks + [top])
    ensures |parts| <= 1 || (|parts| == 3 && |tasks| <= 19)
  {
    hide Rearranged, Ranks, Prefixed, Wrapped, QuadrantsWrapped, Cached, Ascending, Sorting, PartsOrdered, PartsOf, Cost, TaskCost, Keyed;
    ghost var f := ptr[..];
    SortingTop(f, f0, s, tasks, top, lo0, hi0);
    CostPush(tasks, top);
    var res;
    res, budget' := SortRange(ptr, block, quadrant, nblock, top.r.lo, top.r.hi, top.d, budget, s);
    match res
    case Abandoned =>
      Whole(f, ptr[..], f0, s, tasks, top, lo0, hi0);
      return true, [], budget';
    case Finished =>
      CostPositive(top);
      SortingDone(f, ptr[..], f0, s, tasks, top, lo0, hi0);
      assert tasks + [] == tasks;
      return false, [], budget';
    case Deeper =>
      SortingDeeper(f, ptr[..], f0, s, tasks, top, lo0, hi0);
      CostDeeper(top);
      CostPush(tasks, Task(top.r, top.d + 1));
      return false, [Task(top.r, top.d + 1)], budget';
    case Split(n, m) =>
      ShrunkDepth(Size(top.r), |tasks|, hi0 - lo0 + 1);
      var a, b, c := OrderParts(top.r.lo, n, m, top.r.hi, top.d);
      SortingSplit(f, ptr[..], f0, s, tasks, top, n, m, [a, b, c], lo0, hi0);
      CostSplit(tasks, top, n, m, [a, b, c]);
      return false, [a, b, c], budget';
  }

  /** Sorts positions loSt..hiSt, whose rotations agree on dSt bytes, unless the budget runs out.  For legal block
      sizes at most twenty-two of the hundred stack entries are ever in use, so assertion 1001 cannot fail. */
  method MainQSort3(ptr: array<nat>, block: array<Byte>, quadrant: array<nat>, nblock: nat, loSt: int, hiSt: int,
                    dSt: nat, budget: int, ghost s: seq<Byte>) returns (budget': int)
    requires ptr != quadrant && Ready(block[..], quadrant[..], s) && nblock == |s|
    requires 0 <= loSt <= hiSt < ptr.Length <= MAX_BLOCK && dSt <= DEPTH_THRESH
    requires Prefixed(ptr[..], s, loSt, hiSt, dSt)
    modifies ptr
    ensures Rearranged(ptr[..], old(ptr[..]), loSt, hiSt) && budget' <= budget && Keyed(ptr[..], Ranks(s))
    ensures budget' >= 0 ==> Ascending(ptr[..], Ranks(s), loSt, hiSt)
  {
    hide Rearranged, Ranks, Prefixed, Ready, Ascending, Sorting, Cost, Keyed;
    ghost var f0 := ptr[..];
    var stack := new Task[STACK_SIZE];
    var sp := 0;
    stack[sp] := Task(Range(loSt, hiSt), dSt);
    sp := sp + 1;
    ghost var tasks := [Task(Range(loSt, hiSt), dSt)];
    SortingStart(f0, s, loSt, hiSt, dSt);
    budget' := budget;
    while sp > 0
      invariant 0 <= sp <= 22 && stack[..sp] == tasks
      invariant Sorting(ptr[..], f0, s, tasks, loSt, hiSt) && budget' <= budget
      decreases Cost(tasks)
    {
      assert sp < STACK_SIZE - 2;
      sp := sp - 1;
      var top := stack[sp];
      assert tasks == stack[..sp] + [top];
      tasks := stack[..sp];
      var abandoned, parts;
      abandoned, parts, budget' := SortTask(ptr, block, quadrant, nblock, top, budget', s, f0, tasks, loSt, hiSt);
      if abandoned { return; }
      ghost var p := ptr[..];
      for k := 0 to |parts|
        modifies stack
        invariant stack[..sp + k] == tasks + parts[..k]
      {
        stack[sp + k] := parts[k];
        assert stack[..sp + (k + 1)] == stack[..sp + k] + [parts[k]];
        assert tasks + parts[..k + 1] == tasks + parts[..k] + [parts[k]];
      }
      assert parts[..|parts|] == parts;
      assert ptr[..] == p;
      sp := sp + |parts|;
      tasks := tasks + parts;
    }
    SettledAll(ptr[..], f0, s, tasks, loSt, hiSt);
  }

  lemma CostPositive(t: Task)
    ensures TaskCost(t) >= 1
  {}

  lemma Whole(f: seq<nat>, g: seq<nat>, f0: seq<nat>, s: seq<Byte>, tasks: seq<Task>, top: Task, lo0: int, hi0: int)
    requires Sorting(f, f0, s, tasks + [top], lo0, hi0) && Rearranged(g, f, top.r.lo, top.r.hi)
    ensures Rearranged(g, f0, lo0, hi0) && Keyed(g, Ranks(s))
  {
    hide Rearranged, Ranks, Prefixed, Stacked, Sized, Covered;
    SortingTop(f, f0, s, tasks, top, lo0, hi0);
    RearrangedWiden(g, f, top.r.lo, top.r.hi, lo0, hi0);
    RearrangedTrans(g, f, f0, lo0, hi0);
    RearrangedKeyed(g, f, Ranks(s), top.r.lo, top.r.hi);
  }

  lemma SettledAll(f: seq<nat>, f0: seq<nat>, s: seq<Byte>, tasks: seq<Task>, lo0: int, hi0: int)
    requires Sorting(f, f0, s, tasks, lo0, hi0) && |tasks| == 0
    ensures Rearranged(f, f0, lo0, hi0) && Keyed(f, Ranks(s)) && Ascending(f, Ranks(s), lo0, hi0)
  {
    hide Ranks, Rearranged;
  }
}
