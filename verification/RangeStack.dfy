/** The pending ranges of a quicksort: what is left to sort, and what is already in order. */
module RangeStack {
  import opened Rearrange
  import opened ThreeWay

  datatype Range = Range(lo: int, hi: int)

  predicate Apart(r: Range, q: Range) {
    r.hi < q.lo || q.hi < r.lo || r.hi < r.lo || q.hi < q.lo
  }

  /** Some pending range holds both positions. */
  ghost predicate Covered(stack: seq<Range>, i: int, j: int) {
    exists t :: 0 <= t < |stack| && stack[t].lo <= i && j <= stack[t].hi
  }

  /** Positions are in order unless a pending range still holds both. */
  ghost predicate Settled(f: seq<nat>, e: seq<nat>, stack: seq<Range>, lo0: int, hi0: int) {
    0 <= lo0 && hi0 < |f| && Keyed(f, e) &&
    forall i, j :: lo0 <= i < j <= hi0 ==> e[f[i]] <= e[f[j]] || Covered(stack, i, j)
  }

  /** Pending ranges lie inside lo0..hi0 and do not meet. */
  ghost predicate Stacked(stack: seq<Range>, lo0: int, hi0: int)
    requires lo0 <= hi0 + 1
  {
    |stack| == 0 ||
    (var k := |stack| - 1;
     var r := stack[k];
     Stacked(stack[..k], lo0, hi0) && lo0 <= r.lo <= r.hi + 1 <= hi0 + 1 &&
     forall t :: 0 <= t < k ==> Apart(stack[t], r))
  }

  lemma StackedPush(stack: seq<Range>, r: Range, lo0: int, hi0: int)
    requires lo0 <= hi0 + 1
    ensures Stacked(stack + [r], lo0, hi0) <==>
            Stacked(stack, lo0, hi0) && lo0 <= r.lo <= r.hi + 1 <= hi0 + 1 &&
            forall t :: 0 <= t < |stack| ==> Apart(stack[t], r)
  {
    assert (stack + [r])[..|stack|] == stack;
  }

  /** Where the element now at i came from. */
  ghost function Source(f: seq<nat>, g: seq<nat>, lo: int, hi: int, i: int): (k: int)
    requires Rearranged(g, f, lo, hi) && 0 <= i < |g|
    ensures 0 <= k < |f| && f[k] == g[i] && (if lo <= i <= hi then lo <= k <= hi else k == i)
  {
    if lo <= i <= hi then RearrangedHas(g, f, lo, hi, i); var k :| lo <= k <= hi && g[i] == f[k]; k
    else i
  }

  lemma RearrangedHas(g: seq<nat>, f: seq<nat>, lo: int, hi: int, i: int)
    requires Rearranged(g, f, lo, hi) && lo <= i <= hi
    ensures exists k :: lo <= k <= hi && g[i] == f[k]
  {
    var k := RearrangedFrom(g, f, lo, hi, i);
  }

  /** Work confined to the top range leaves everything else in order. */
  lemma ReplaceTop(f: seq<nat>, g: seq<nat>, e: seq<nat>, stack: seq<Range>, top: Range, parts: seq<Range>,
                   lo0: int, hi0: int)
    requires lo0 <= hi0 + 1 && |f| == |g|
    requires Settled(f, e, stack + [top], lo0, hi0) && Stacked(stack + [top], lo0, hi0)
    requires Rearranged(g, f, top.lo, top.hi)
    requires Settled(g, e, parts, top.lo, top.hi)
    ensures Settled(g, e, stack + parts, lo0, hi0)
  {
    hide Rearranged, Stacked;
    StackedPush(stack, top, lo0, hi0);
    forall i, j | lo0 <= i < j <= hi0 ensures e[g[i]] <= e[g[j]] || Covered(stack + parts, i, j) {
      if top.lo <= i && j <= top.hi {
        if Covered(parts, i, j) {
          var t :| 0 <= t < |parts| && parts[t].lo <= i && j <= parts[t].hi;
          assert (stack + parts)[|stack| + t] == parts[t];
        }
      } else {
        var x, y := Source(f, g, top.lo, top.hi, i), Source(f, g, top.lo, top.hi, j);
        if Covered(stack + [top], x, y) {
          var t := OtherRange(stack, top, lo0, hi0, i, j, x, y);
          assert (stack + parts)[t] == stack[t];
        }
      }
    }
  }

  lemma OtherRange(stack: seq<Range>, top: Range, lo0: int, hi0: int, i: int, j: int, x: int, y: int)
    returns (t: int)
    requires lo0 <= hi0 + 1 && Stacked(stack + [top], lo0, hi0)
    requires !(top.lo <= i && j <= top.hi) && i < j
    requires if top.lo <= i <= top.hi then top.lo <= x <= top.hi else x == i
    requires if top.lo <= j <= top.hi then top.lo <= y <= top.hi else y == j
    requires Covered(stack + [top], x, y)
    ensures 0 <= t < |stack| && stack[t].lo <= i && j <= stack[t].hi
  {
    StackedPush(stack, top, lo0, hi0);
    t :| 0 <= t < |stack| + 1 && (stack + [top])[t].lo <= x && y <= (stack + [top])[t].hi;
  }

  lemma AllEqual(g: seq<nat>, f: seq<nat>, e: seq<nat>, med: nat, lo: int, hi: int, ltLo: int, unLo: int, gtHi: int)
    requires Partitioning(g, f, e, med, lo, hi, ltLo, unLo, unLo - 1, gtHi) && gtHi < ltLo
    ensures Settled(g, e, [], lo, hi) && Rearranged(g, f, lo, hi)
  {}
}
