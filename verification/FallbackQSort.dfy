/** Sorting one bucket of the fallback algorithm by equivalence class: an insertion sort for small
    ranges and a three-way quicksort with an explicit stack. */
module FallbackQSort {
  import opened RangeStack
  import opened Rearrange
  import opened ThreeWay

  const SMALL_THRESH := 10
  const STACK_SIZE := 100
  const MAX_BLOCK := 900000

  /** An insertion in progress: f has a hole at position h, which tmp would fill. */
  ghost predicate Inserting(f: seq<nat>, f0: seq<nat>, e: seq<nat>, i: int, h: int, gap: nat, lo: int, hi: int) {
    0 <= lo <= i <= h <= hi < |f| && |f| == |f0| && Keyed(f, e) && Keyed(f0, e) &&
    Rearranged(f[h := f0[i]], f0, lo, hi) &&
    (forall k :: lo <= k < i || h < k <= hi ==> f[k] == f0[k]) &&
    (gap == 1 ==> forall k :: i <= k < h ==> f[k] == f0[k + 1] && e[f[k]] < e[f0[i]])
  }

  lemma InsertStep(f: seq<nat>, f0: seq<nat>, e: seq<nat>, i: int, h: int, gap: nat, lo: int, hi: int)
    requires Inserting(f, f0, e, i, h, gap, lo, hi) && gap >= 1 && h + gap <= hi
    requires e[f0[i]] > e[f[h + gap]]
    ensures Inserting(f[h := f[h + gap]], f0, e, i, h + gap, gap, lo, hi)
  {
    hide Rearranged;
    HoleStep(f, f0, i, h, gap, lo, hi);
  }

  lemma HoleStep(f: seq<nat>, f0: seq<nat>, i: int, h: int, gap: nat, lo: int, hi: int)
    requires 0 <= lo <= i <= h <= h + gap <= hi < |f| == |f0| && gap >= 1
    requires Rearranged(f[h := f0[i]], f0, lo, hi)
    ensures Rearranged(f[h := f[h + gap]][h + gap := f0[i]], f0, lo, hi)
  {
    hide Rearranged;
    var g := f[h := f0[i]];
    SwapRearranges(g, h, h + gap, lo, hi);
    RearrangedTrans(Swap(g, h, h + gap), g, f0, lo, hi);
    assert Swap(g, h, h + gap) == f[h := f[h + gap]][h + gap := f0[i]];
  }

  /** Moves element i up in steps of gap past every smaller key in its chain. */
  method Insert(fmap: array<nat>, eclass: array<nat>, i: int, lo: int, hi: int, gap: nat)
    requires fmap != eclass && gap >= 1 && 0 <= lo <= i <= hi < fmap.Length
    requires Keyed(fmap[..], eclass[..])
    modifies fmap
    ensures Rearranged(fmap[..], old(fmap[..]), lo, hi) && Keyed(fmap[..], eclass[..])
    ensures gap == 1 && old(Ascending(fmap[..], eclass[..], i + 1, hi)) ==>
      Ascending(fmap[..], eclass[..], i, hi)
  {
    hide Rearranged;
    ghost var e, f0 := eclass[..], fmap[..];
    var tmp := fmap[i];
    var ecTmp := eclass[tmp];
    var j := i + gap;
    assert fmap[..][i := tmp] == f0;
    RearrangedRefl(f0, lo, hi);
    while j <= hi && ecTmp > eclass[fmap[j]]
      invariant Inserting(fmap[..], f0, e, i, j - gap, gap, lo, hi)
      decreases hi - j
    {
      InsertStep(fmap[..], f0, e, i, j - gap, gap, lo, hi);
      fmap[j - gap] := fmap[j];
      j := j + gap;
    }
    fmap[j - gap] := tmp;
    RearrangedKeyed(fmap[..], f0, e, lo, hi);
  }

  method SimpleSort(fmap: array<nat>, eclass: array<nat>, lo: int, hi: int)
    requires fmap != eclass && 0 <= lo <= hi + 1 <= fmap.Length
    requires Keyed(fmap[..], eclass[..])
    modifies fmap
    ensures Rearranged(fmap[..], old(fmap[..]), lo, hi) && Keyed(fmap[..], eclass[..])
    ensures Ascending(fmap[..], eclass[..], lo, hi)
  {
    ghost var f0 := fmap[..];
    RearrangedRefl(f0, lo, hi);
    if lo == hi { return; }
    if hi - lo > 3 {
      var i := hi - 4;
      while i >= lo
        invariant lo - 1 <= i <= hi - 4
        invariant Rearranged(fmap[..], f0, lo, hi) && Keyed(fmap[..], eclass[..])
      {
        ghost var f := fmap[..];
        Insert(fmap, eclass, i, lo, hi, 4);
        RearrangedTrans(fmap[..], f, f0, lo, hi);
        i := i - 1;
      }
    }
    var i := hi - 1;
    while i >= lo
      invariant lo - 2 <= i <= hi - 1 && (i == lo - 2 ==> hi < lo)
      invariant Rearranged(fmap[..], f0, lo, hi) && Keyed(fmap[..], eclass[..])
      invariant Ascending(fmap[..], eclass[..], i + 1, hi)
    {
      ghost var f := fmap[..];
      Insert(fmap, eclass, i, lo, hi, 1);
      RearrangedTrans(fmap[..], f, f0, lo, hi);
      i := i - 1;
    }
  }

  // ----- three-way partition -----

  /** Moves every key of lo..hi to the side of med it belongs to. */
  method Partition(fmap: array<nat>, eclass: array<nat>, lo: int, hi: int, med: nat)
    returns (ltLo: int, unLo: int, gtHi: int)
    requires fmap != eclass && 0 <= lo <= hi < fmap.Length && Keyed(fmap[..], eclass[..])
    modifies fmap
    ensures Partitioning(fmap[..], old(fmap[..]), eclass[..], med, lo, hi, ltLo, unLo, unLo - 1, gtHi)
  {
    hide Rearranged, Partitioning;
    ghost var f0, e := fmap[..], eclass[..];
    PartitionStart(f0, e, med, lo, hi);
    ltLo, unLo := lo, lo;
    var unHi := hi;
    gtHi := hi;
    while true
      invariant Bounds(fmap[..], e, lo, hi, ltLo, unLo, unHi, gtHi)
      invariant Partitioning(fmap[..], f0, e, med, lo, hi, ltLo, unLo, unHi, gtHi)
      decreases unHi - unLo
    {
      while true
        invariant Bounds(fmap[..], e, lo, hi, ltLo, unLo, unHi, gtHi)
        invariant Partitioning(fmap[..], f0, e, med, lo, hi, ltLo, unLo, unHi, gtHi)
        decreases unHi - unLo
      {
        if unLo > unHi { break; }
        PartitionLow(fmap[..], f0, e, med, lo, hi, ltLo, unLo, unHi, gtHi);
        var n := eclass[fmap[unLo]] - med;
        if n == 0 {
          fmap[unLo], fmap[ltLo] := fmap[ltLo], fmap[unLo];
          ltLo, unLo := ltLo + 1, unLo + 1;
          continue;
        }
        if n > 0 { break; }
        unLo := unLo + 1;
      }
      while true
        invariant Bounds(fmap[..], e, lo, hi, ltLo, unLo, unHi, gtHi)
        invariant Partitioning(fmap[..], f0, e, med, lo, hi, ltLo, unLo, unHi, gtHi)
        invariant unLo <= unHi ==> e[fmap[unLo]] > med
        decreases unHi - unLo
      {
        if unLo > unHi { break; }
        PartitionHigh(fmap[..], f0, e, med, lo, hi, ltLo, unLo, unHi, gtHi);
        var n := eclass[fmap[unHi]] - med;
        if n == 0 {
          fmap[unHi], fmap[gtHi] := fmap[gtHi], fmap[unHi];
          gtHi, unHi := gtHi - 1, unHi - 1;
          continue;
        }
        if n < 0 { break; }
        unHi := unHi - 1;
      }
      if unLo > unHi { break; }
      PartitionExchange(fmap[..], f0, e, med, lo, hi, ltLo, unLo, unHi, gtHi);
      fmap[unLo], fmap[unHi] := fmap[unHi], fmap[unLo];
      unLo, unHi := unLo + 1, unHi - 1;
    }
  }

  // ----- explicit stack -----

  function Halved(n: nat, t: nat): nat {
    if t == 0 then n else Halved(n, t - 1) / 2
  }

  /** Pending ranges lie inside lo0..hi0, do not meet, and halve from one stack level to the next. */
  ghost predicate StackOk(stack: seq<Range>, lo0: int, hi0: int)
    requires lo0 <= hi0 + 1
  {
    |stack| == 0 ||
    (var k := |stack| - 1;
     var r := stack[k];
     StackOk(stack[..k], lo0, hi0) && lo0 <= r.lo <= r.hi + 1 <= hi0 + 1 &&
     r.hi - r.lo + 1 <= Halved(hi0 - lo0 + 1, k) &&
     forall t :: 0 <= t < k ==> Apart(stack[t], r))
  }

  lemma StackPush(stack: seq<Range>, r: Range, lo0: int, hi0: int)
    requires lo0 <= hi0 + 1
    ensures StackOk(stack + [r], lo0, hi0) <==>
            StackOk(stack, lo0, hi0) && lo0 <= r.lo <= r.hi + 1 <= hi0 + 1 &&
            r.hi - r.lo + 1 <= Halved(hi0 - lo0 + 1, |stack|) &&
            forall t :: 0 <= t < |stack| ==> Apart(stack[t], r)
  {
    assert (stack + [r])[..|stack|] == stack;
  }

  /** Replacing a range by two disjoint parts of it, larger part first, keeps the levels halving. */
  lemma StackSplit(stack: seq<Range>, top: Range, a: Range, b: Range, lo0: int, hi0: int)
    requires lo0 <= hi0 + 1 && StackOk(stack + [top], lo0, hi0)
    requires top.lo <= a.lo <= a.hi + 1 <= top.hi + 1 && top.lo <= b.lo <= b.hi + 1 <= top.hi + 1
    requires Apart(a, b) && b.hi - b.lo <= a.hi - a.lo
    requires (a.hi - a.lo + 1) + (b.hi - b.lo + 1) <= top.hi - top.lo + 1
    ensures StackOk(stack + [a] + [b], lo0, hi0)
  {
    StackPush(stack, top, lo0, hi0);
    StackPush(stack, a, lo0, hi0);
    StackPush(stack + [a], b, lo0, hi0);
  }

  lemma {:induction false} HalvedMono(n: nat, m: nat, t: nat)
    requires n <= m
    ensures Halved(n, t) <= Halved(m, t)
  {
    if t > 0 { HalvedMono(n, m, t - 1); }
  }

  lemma HalvedSteps(n: nat, t: nat)
    ensures Halved(n, t + 4) == Halved(n, t) / 16
  {
    assert Halved(n, t + 2) == Halved(n, t) / 4;
  }

  lemma {:induction false} HalvedSmall(n: nat, t: nat)
    requires n <= MAX_BLOCK && t >= 17
    ensures Halved(n, t) <= 6
  {
    if t > 17 {
      HalvedSmall(n, t - 1);
    } else {
      HalvedMono(n, MAX_BLOCK, 17);
      HalvedSteps(MAX_BLOCK, 0);
      HalvedSteps(MAX_BLOCK, 4);
      HalvedSteps(MAX_BLOCK, 8);
      HalvedSteps(MAX_BLOCK, 12);
      assert Halved(MAX_BLOCK, 4) == 56250;
      assert Halved(MAX_BLOCK, 8) == 3515;
      assert Halved(MAX_BLOCK, 12) == 219;
      assert Halved(MAX_BLOCK, 16) == 13;
    }
  }

  lemma {:induction false} StackOkStacked(stack: seq<Range>, lo0: int, hi0: int)
    requires lo0 <= hi0 + 1 && StackOk(stack, lo0, hi0)
    ensures Stacked(stack, lo0, hi0)
  {
    if |stack| > 0 { StackOkStacked(stack[..|stack| - 1], lo0, hi0); }
  }

  /** Splitting a range around med leaves only the two outer parts to sort. */
  lemma SplitSettles(g: seq<nat>, e: seq<nat>, med: nat, lo: int, hi: int, n: int, m: int)
    requires SplitAt(g, e, med, lo, hi, n, m)
    ensures Settled(g, e, [Range(lo, n), Range(m, hi)], lo, hi)
    ensures Settled(g, e, [Range(m, hi), Range(lo, n)], lo, hi)
    ensures lo <= n + 1 <= m <= hi + 1
  {
    var p, q := [Range(lo, n), Range(m, hi)], [Range(m, hi), Range(lo, n)];
    forall i, j | lo <= i < j <= hi
      ensures e[g[i]] <= e[g[j]] || (Covered(p, i, j) && Covered(q, i, j))
    {
      if j <= n {
        assert p[0].lo <= i && j <= p[0].hi && q[1].lo <= i && j <= q[1].hi;
      } else if m <= i {
        assert p[1].lo <= i && j <= p[1].hi && q[0].lo <= i && j <= q[0].hi;
      }
    }
  }

  /** What the quicksort loop maintains. */
  ghost predicate Sorting(f: seq<nat>, f0: seq<nat>, e: seq<nat>, stack: seq<Range>, lo0: int, hi0: int) {
    0 <= lo0 <= hi0 < |f| && Keyed(f, e) && Rearranged(f, f0, lo0, hi0) &&
    StackOk(stack, lo0, hi0) && Settled(f, e, stack, lo0, hi0)
  }

  lemma SortingStart(f: seq<nat>, e: seq<nat>, lo: int, hi: int)
    requires 0 <= lo <= hi < |f| && Keyed(f, e)
    ensures Sorting(f, f, e, [Range(lo, hi)], lo, hi)
  {
    var stack := [Range(lo, hi)];
    forall i, j | lo <= i < j <= hi ensures Covered(stack, i, j) {
      assert stack[0].lo <= i && j <= stack[0].hi;
    }
    StackPush([], Range(lo, hi), lo, hi);
    assert [] + stack == stack;
  }

  lemma SortingTop(f: seq<nat>, f0: seq<nat>, e: seq<nat>, stack: seq<Range>, top: Range, lo0: int, hi0: int)
    requires Sorting(f, f0, e, stack + [top], lo0, hi0) && hi0 - lo0 < MAX_BLOCK
    ensures 0 <= lo0 <= top.lo <= top.hi + 1 <= hi0 + 1 <= |f| && Keyed(f, e)
    ensures top.hi - top.lo >= SMALL_THRESH ==> |stack| <= 16
  {
    StackPush(stack, top, lo0, hi0);
    if |stack| > 16 { HalvedSmall(hi0 - lo0 + 1, |stack|); }
  }

  /** Finishing a range, or replacing it by its two outer parts. */
  lemma SortingStep(f: seq<nat>, g: seq<nat>, f0: seq<nat>, e: seq<nat>, stack: seq<Range>, top: Range,
                    parts: seq<Range>, lo0: int, hi0: int)
    requires Sorting(f, f0, e, stack + [top], lo0, hi0)
    requires Rearranged(g, f, top.lo, top.hi) && Settled(g, e, parts, top.lo, top.hi)
    requires StackOk(stack + parts, lo0, hi0)
    ensures Sorting(g, f0, e, stack + parts, lo0, hi0)
  {
    hide Settled, Covered;
    StackPush(stack, top, lo0, hi0);
    SameLength(g, f, top.lo, top.hi);
    StackOkStacked(stack + [top], lo0, hi0);
    ReplaceTop(f, g, e, stack, top, parts, lo0, hi0);
    RearrangedKeyed(g, f, e, top.lo, top.hi);
    RearrangedWiden(g, f, top.lo, top.hi, lo0, hi0);
    RearrangedTrans(g, f, f0, lo0, hi0);
  }

  lemma SameLength(g: seq<nat>, f: seq<nat>, lo: int, hi: int)
    requires Rearranged(g, f, lo, hi)
    ensures |g| == |f|
  {}

  lemma SortingDone(f: seq<nat>, f0: seq<nat>, e: seq<nat>, g: seq<nat>, stack: seq<Range>, top: Range, lo0: int, hi0: int)
    requires Sorting(f, f0, e, stack + [top], lo0, hi0)
    requires Rearranged(g, f, top.lo, top.hi) && Settled(g, e, [], top.lo, top.hi)
    ensures Sorting(g, f0, e, stack, lo0, hi0)
  {
    StackPush(stack, top, lo0, hi0);
    assert stack + [] == stack;
    SortingStep(f, g, f0, e, stack, top, [], lo0, hi0);
  }

  lemma SortingSplit(f: seq<nat>, f0: seq<nat>, e: seq<nat>, g: seq<nat>, stack: seq<Range>, top: Range,
                     a: Range, b: Range, lo0: int, hi0: int)
    requires Sorting(f, f0, e, stack + [top], lo0, hi0)
    requires Rearranged(g, f, top.lo, top.hi) && Settled(g, e, [a, b], top.lo, top.hi)
    requires top.lo <= a.lo <= a.hi + 1 <= top.hi + 1 && top.lo <= b.lo <= b.hi + 1 <= top.hi + 1
    requires Apart(a, b) && b.hi - b.lo <= a.hi - a.lo
    requires (a.hi - a.lo + 1) + (b.hi - b.lo + 1) <= top.hi - top.lo + 1
    ensures Sorting(g, f0, e, stack + [a] + [b], lo0, hi0)
  {
    StackSplit(stack, top, a, b, lo0, hi0);
    assert stack + [a] + [b] == stack + [a, b];
    SortingStep(f, g, f0, e, stack, top, [a, b], lo0, hi0);
  }

  /** Termination: every range costs twice its length plus one, so splitting off a pivot pays for the
      extra stack entry. */
  function Pending(stack: seq<Range>): nat {
    if |stack| == 0 then 0
    else
      var k := |stack| - 1;
      Pending(stack[..k]) + 1 + (if stack[k].hi < stack[k].lo then 0 else 2 * (stack[k].hi - stack[k].lo + 1))
  }

  lemma PendingPush(stack: seq<Range>, r: Range)
    requires r.lo <= r.hi + 1
    ensures Pending(stack + [r]) == Pending(stack) + 1 + 2 * (r.hi - r.lo + 1)
  {
    assert (stack + [r])[..|stack|] == stack;
  }

  /** Sorts a small range outright; partitions any other, leaving two disjoint parts to sort, or none
      when all keys are equal. */
  method SortRange(fmap: array<nat>, eclass: array<nat>, lo: int, hi: int, r: nat)
    returns (r': nat, n: int, m: int, done: bool)
    requires fmap != eclass && 0 <= lo <= hi + 1 <= fmap.Length && Keyed(fmap[..], eclass[..])
    modifies fmap
    ensures Rearranged(fmap[..], old(fmap[..]), lo, hi)
    ensures done ==> Settled(fmap[..], eclass[..], [], lo, hi)
    ensures !done ==> hi - lo >= SMALL_THRESH && lo <= n + 1 < m <= hi + 1
    ensures !done ==> Settled(fmap[..], eclass[..], [Range(lo, n), Range(m, hi)], lo, hi)
    ensures !done ==> Settled(fmap[..], eclass[..], [Range(m, hi), Range(lo, n)], lo, hi)
  {
    hide Rearranged, Settled, SplitAt, Covered, Partitioning;
    ghost var f, e := fmap[..], eclass[..];
    r', n, m, done := r, lo, hi, true;
    if hi - lo < SMALL_THRESH {
      SimpleSort(fmap, eclass, lo, hi);
      AscendingSettles(fmap[..], e, lo, hi);
      return;
    }
    r' := (r * 7621 + 1) % 32768;
    var r3 := r' % 3;
    var p := if r3 == 0 then lo else if r3 == 1 then (lo + hi) / 2 else hi;
    var med := eclass[fmap[p]];
    var ltLo, unLo, gtHi := Partition(fmap, eclass, lo, hi, med);
    if gtHi < ltLo {
      AllEqual(fmap[..], f, e, med, lo, hi, ltLo, unLo, gtHi);
      return;
    }
    done := false;
    n, m := Gather(fmap, e, med, lo, hi, ltLo, unLo, gtHi, f);
    SplitSettles(fmap[..], e, med, lo, hi, n, m);
    MiddleNotEmpty(fmap[..], f, e, med, lo, hi, n, m, p);
  }

  /** Sorts positions loSt..hiSt by key.  For legal block sizes at most eighteen of the hundred stack
      entries are ever in use, so assertion 1004 cannot fail. */
  method QSort3(fmap: array<nat>, eclass: array<nat>, loSt: int, hiSt: int)
    requires fmap != eclass && 0 <= loSt <= hiSt < fmap.Length && hiSt - loSt < MAX_BLOCK
    requires Keyed(fmap[..], eclass[..])
    modifies fmap
    ensures Rearranged(fmap[..], old(fmap[..]), loSt, hiSt) && Keyed(fmap[..], eclass[..])
    ensures Ascending(fmap[..], eclass[..], loSt, hiSt)
  {
    hide Rearranged, Settled, StackOk, Covered, Sorting, Pending;
    ghost var f0, e := fmap[..], eclass[..];
    var stackLo, stackHi := new int[STACK_SIZE], new int[STACK_SIZE];
    var r, sp := 0, 0;
    stackLo[sp], stackHi[sp] := loSt, hiSt;
    sp := sp + 1;
    ghost var stack := [Range(loSt, hiSt)];
    SortingStart(f0, e, loSt, hiSt);
    while sp > 0
      invariant 0 <= sp <= 18 && sp == |stack|
      invariant forall t :: 0 <= t < sp ==> stack[t] == Range(stackLo[t], stackHi[t])
      invariant Sorting(fmap[..], f0, e, stack, loSt, hiSt)
      decreases Pending(stack)
    {
      assert sp < STACK_SIZE - 1;
      ghost var f := fmap[..];
      sp := sp - 1;
      var lo, hi := stackLo[sp], stackHi[sp];
      ghost var top := Range(lo, hi);
      assert stack == stack[..sp] + [top];
      stack := stack[..sp];
      SortingTop(f, f0, e, stack, top, loSt, hiSt);
      PendingPush(stack, top);
      var n, m, done;
      r, n, m, done := SortRange(fmap, eclass, lo, hi, r);
      if done {
        SortingDone(f, f0, e, fmap[..], stack, top, loSt, hiSt);
        continue;
      }
      ghost var a, b := Range(lo, n), Range(m, hi);
      if n - lo > hi - m {
        stackLo[sp], stackHi[sp] := lo, n;
        sp := sp + 1;
        stackLo[sp], stackHi[sp] := m, hi;
        sp := sp + 1;
      } else {
        stackLo[sp], stackHi[sp] := m, hi;
        sp := sp + 1;
        stackLo[sp], stackHi[sp] := lo, n;
        sp := sp + 1;
        a, b := b, a;
      }
      SortingSplit(f, f0, e, fmap[..], stack, top, a, b, loSt, hiSt);
      PendingPush(stack, a);
      PendingPush(stack + [a], b);
      stack := stack + [a] + [b];
    }
    SettledDone(fmap[..], f0, e, stack, loSt, hiSt);
  }

  lemma AscendingSettles(g: seq<nat>, e: seq<nat>, lo: int, hi: int)
    requires 0 <= lo && hi < |g| && Keyed(g, e) && Ascending(g, e, lo, hi)
    ensures Settled(g, e, [], lo, hi)
  {}

  lemma SettledDone(f: seq<nat>, f0: seq<nat>, e: seq<nat>, stack: seq<Range>, lo0: int, hi0: int)
    requires Sorting(f, f0, e, stack, lo0, hi0) && |stack| == 0
    ensures Keyed(f, e) && Ascending(f, e, lo0, hi0) && Rearranged(f, f0, lo0, hi0)
  {}
}
