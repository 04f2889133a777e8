/** The theory of the fallback sort: radix placement by first character, buckets of rotations that
    agree so far, and refinement of the buckets to twice the depth. */
module Doubling {
  import opened Rotations
  import opened Bwt

  /** hd marks bucket starts: position i opens a bucket unless it agrees with its predecessor to depth h.
      One set and one clear sentinel follow. */
  ghost predicate Headed(s: seq<Byte>, f: seq<nat>, hd: seq<bool>, h: nat)
    requires Permutes(f, |s|)
  {
    |hd| == |s| + 2 && hd[0] && hd[|s|] && !hd[|s| + 1] &&
    forall i :: 0 < i < |s| ==> (hd[i] <==> !Same(s, f[i - 1], f[i], h))
  }

  /** The state between passes. */
  ghost predicate Bucketed(s: seq<Byte>, f: seq<nat>, hd: seq<bool>, h: nat) {
    Permutes(f, |s|) && SortedBy(s, f, h) && Headed(s, f, hd, h)
  }

  /** Start of the bucket holding position i. */
  function HeadOf(hd: seq<bool>, i: nat): (r: nat)
    requires i < |hd|
    ensures r <= i
  {
    if i == 0 || hd[i] then i else HeadOf(hd, i - 1)
  }

  lemma {:induction false} HeadOfMono(hd: seq<bool>, i: nat, j: nat)
    requires i <= j < |hd|
    ensures HeadOf(hd, i) <= HeadOf(hd, j)
    ensures HeadOf(hd, i) < HeadOf(hd, j) <==> exists k :: i < k <= j && hd[k]
  {
    if i < j { HeadOfMono(hd, i, j - 1); }
  }

  /** Bucket starts compare as the rotations do at the bucket depth. */
  lemma {:induction false} HeadOrder(s: seq<Byte>, f: seq<nat>, hd: seq<bool>, h: nat, i: nat, j: nat)
    requires Bucketed(s, f, hd, h) && i <= j < |s|
    ensures HeadOf(hd, i) <= HeadOf(hd, j)
    ensures HeadOf(hd, i) == HeadOf(hd, j) <==> Same(s, f[i], f[j], h)
  {
    hide Same, Le;
    HeadOfMono(hd, i, j);
    if i == j {
      SameRefl(s, f[i], h);
    } else {
      HeadOrder(s, f, hd, h, i, j - 1);
      HeadOfMono(hd, i, j - 1);
      if i == j - 1 { SameRefl(s, f[i], h); }
      SameSym(s, f[i], f[j - 1], h);
      LeTrans(s, f[i], f[j - 1], f[j], h);
      if Same(s, f[i], f[j - 1], h) && Same(s, f[j - 1], f[j], h) {
        SameTrans(s, f[i], f[j - 1], f[j], h);
      }
    }
  }

  /** cls names, for every rotation, the bucket it is in. */
  ghost predicate Classified(f: seq<nat>, hd: seq<bool>, cls: seq<nat>) {
    |f| == |cls| && |f| <= |hd| && Permutes(f, |f|) &&
    forall i :: 0 <= i < |f| ==> cls[f[i]] == HeadOf(hd, i)
  }

  /** cls orders rotations exactly as their first h characters do. */
  ghost predicate Orders(s: seq<Byte>, cls: seq<nat>, h: nat) {
    |cls| == |s| &&
    forall a, b :: 0 <= a < |s| && 0 <= b < |s| ==>
      (Le(s, a, b, h) <==> cls[a] <= cls[b]) && (Same(s, a, b, h) <==> cls[a] == cls[b])
  }

  lemma ClassesOrder(s: seq<Byte>, f: seq<nat>, hd: seq<bool>, h: nat, cls: seq<nat>)
    requires Bucketed(s, f, hd, h) && Classified(f, hd, cls)
    ensures Orders(s, cls, h)
  {
    hide Same, Le, HeadOf;
    forall a, b | 0 <= a < |s| && 0 <= b < |s|
      ensures (Le(s, a, b, h) <==> cls[a] <= cls[b]) && (Same(s, a, b, h) <==> cls[a] == cls[b])
    {
      var i := PermutationHits(f, |s|, a);
      var j := PermutationHits(f, |s|, b);
      if i <= j { HeadOrder(s, f, hd, h, i, j); } else { HeadOrder(s, f, hd, h, j, i); }
      SameSym(s, a, b, h);
    }
  }

  function BackUp(n: nat, v: nat, h: nat): (r: int)
    requires v < n
  {
    if v < h then v - h + n else v - h
  }

  /** e gives every rotation the bucket of the rotation h characters further on. */
  ghost predicate Shifted(e: seq<nat>, f: seq<nat>, hd: seq<bool>, h: nat) {
    h <= |f| <= |e| && |f| <= |hd| && Permutes(f, |f|) &&
    forall i :: 0 <= i < |f| ==> e[BackUp(|f|, f[i], h)] == HeadOf(hd, i)
  }

  lemma ShiftedClass(e: seq<nat>, f: seq<nat>, hd: seq<bool>, h: nat, cls: seq<nat>, a: nat)
    requires Shifted(e, f, hd, h) && Classified(f, hd, cls) && a < |f|
    ensures e[a] == cls[Advance(|f|, a, h)]
  {
    hide HeadOf;
    AdvanceWithin(|f|, a, h);
    var b := Advance(|f|, a, h);
    var i := PermutationHits(f, |f|, b);
  }

  /** Sorting the buckets by the class h characters further on sorts by 2h characters. */
  lemma DoubleDepth(s: seq<Byte>, e: seq<nat>, f: seq<nat>, hd: seq<bool>, cls: seq<nat>, h: nat, a: nat, b: nat)
    requires |f| == |s| && a < |s| && b < |s|
    requires Shifted(e, f, hd, h) && Classified(f, hd, cls) && Orders(s, cls, h)
    ensures Le(s, a, b, h + h) <==> cls[a] < cls[b] || (cls[a] == cls[b] && e[a] <= e[b])
    ensures Same(s, a, b, h + h) <==> cls[a] == cls[b] && e[a] == e[b]
  {
    hide Same, Le, HeadOf, Shifted, Classified;
    ShiftedClass(e, f, hd, h, cls, a);
    ShiftedClass(e, f, hd, h, cls, b);
    LeSplit(s, a, b, h, h);
    SameSplit(s, a, b, h, h);
    var x, y := Advance(|s|, a, h), Advance(|s|, b, h);
    assert Le(s, x, y, h) <==> cls[x] <= cls[y];
    assert Le(s, a, b, h) <==> cls[a] <= cls[b];
  }

  /** Positions i-1 and i hold rotations of different classes. */
  ghost predicate Differs(e: seq<nat>, g: seq<nat>, i: nat)
    requires 0 < i < |g| && g[i - 1] < |e| && g[i] < |e|
  {
    e[g[i - 1]] != e[g[i]]
  }

  /** The result of one pass over all buckets. */
  ghost predicate Refined(g: seq<nat>, hd': seq<bool>, e: seq<nat>, hd: seq<bool>, cls: seq<nat>) {
    Classified(g, hd, cls) && |g| + 2 == |hd| == |hd'| && |g| <= |e| &&
    hd'[0] && hd'[|g|] && !hd'[|g| + 1] &&
    (forall i, j :: 0 <= i < j < |g| && HeadOf(hd, i) == HeadOf(hd, j) ==> e[g[i]] <= e[g[j]]) &&
    (forall i :: 0 < i < |g| ==> (hd'[i] <==> hd[i] || Differs(e, g, i)))
  }

  lemma RefinedBucketed(s: seq<Byte>, f: seq<nat>, hd: seq<bool>, h: nat, e: seq<nat>, cls: seq<nat>,
                        g: seq<nat>, hd': seq<bool>)
    requires Bucketed(s, f, hd, h) && Classified(f, hd, cls) && Shifted(e, f, hd, h)
    requires Refined(g, hd', e, hd, cls)
    ensures Bucketed(s, g, hd', h + h)
  {
    hide Same, Le, HeadOf, Shifted, SortedBy;
    ClassesOrder(s, f, hd, h, cls);
    assert SortedBy(s, g, h + h) by {
      forall i, j | 0 <= i < j < |s| ensures Le(s, g[i], g[j], h + h) {
        HeadOfMono(hd, i, j);
        DoubleDepth(s, e, f, hd, cls, h, g[i], g[j]);
      }
      SortedByAll(s, g, h + h);
    }
    forall i | 0 < i < |s| ensures hd'[i] <==> !Same(s, g[i - 1], g[i], h + h) {
      HeadOfStep(hd, i);
      DoubleDepth(s, e, f, hd, cls, h, g[i - 1], g[i]);
    }
  }

  lemma SortedByAll(s: seq<Byte>, p: seq<nat>, k: nat)
    requires forall i :: 0 <= i < |p| ==> p[i] < |s|
    ensures (forall i, j :: 0 <= i < j < |p| ==> Le(s, p[i], p[j], k)) ==> SortedBy(s, p, k)
  {}

  lemma HeadOfStep(hd: seq<bool>, i: nat)
    requires 0 < i < |hd|
    ensures hd[i] <==> HeadOf(hd, i - 1) != HeadOf(hd, i)
  {}

  /** Once no bucket holds two rotations, or the depth reaches the block length, the sort is complete. */
  lemma BucketedDone(s: seq<Byte>, f: seq<nat>, hd: seq<bool>, h: nat)
    requires Bucketed(s, f, hd, h)
    requires h >= |s| || forall i :: 0 <= i < |s| ==> hd[i]
    ensures RotationSorted(s, f)
  {
    hide Same, Le, HeadOf;
    forall i, j | 0 <= i < j < |s| ensures Le(s, f[i], f[j], |s|) {
      if h >= |s| {
        LeSplit(s, f[i], f[j], |s|, h - |s|);
      } else {
        HeadOrder(s, f, hd, h, i, j);
        assert hd[j];
        HeadOfMono(hd, i, j);
        LeSplit(s, f[i], f[j], h, |s| - h);
      }
    }
  }

  // ----- radix placement -----

  /** Where the radix sort puts rotation i: its bucket is filled from the end. */
  function Slot(s: seq<Byte>, i: nat): nat
    requires i < |s|
  {
    CountOfMono(s, s[i], i, |s|);
    assert s[..|s|] == s;
    CountBelow(s, s[i]) + CountOf(s, s[i]) - 1 - CountOf(s[..i], s[i])
  }

  lemma SlotBounds(s: seq<Byte>, i: nat)
    requires i < |s|
    ensures var c: int := s[i];
            CountBelow(s, c) <= Slot(s, i) < CountBelow(s, c + 1) <= |s|
  {
    hide CountBelow, CountOf;
    CountOfMono(s, s[i], i, |s|);
    assert s[..|s|] == s;
    CountNext(s, s[i]);
  }

  lemma SlotOrder(s: seq<Byte>, i: nat, j: nat)
    requires i < |s| && j < |s| && i != j
    ensures Slot(s, i) != Slot(s, j)
    ensures Slot(s, i) < Slot(s, j) ==> s[i] <= s[j]
  {
    SlotBounds(s, i);
    SlotBounds(s, j);
    var c, d: int := s[i], s[j];
    if c < d { CountBelowMono(s, c + 1, d); }
    else if d < c { CountBelowMono(s, d + 1, c); }
    else if i < j { CountOfMono(s, c, i, j); }
    else { CountOfMono(s, c, j, i); }
  }

  function Slots(s: seq<Byte>): (r: seq<nat>)
    ensures |r| == |s|
  {
    seq(|s|, i requires 0 <= i < |s| => Slot(s, i))
  }

  lemma SlotsPermute(s: seq<Byte>)
    ensures Permutes(Slots(s), |s|)
  {
    forall i | 0 <= i < |s| ensures Slots(s)[i] < |s| { SlotBounds(s, i); }
    forall i, j | 0 <= i < j < |s| ensures Slots(s)[i] != Slots(s)[j] { SlotOrder(s, i, j); }
  }

  /** f lists the rotations by first character. */
  ghost predicate Placed(s: seq<Byte>, f: seq<nat>) {
    |f| == |s| && forall i :: 0 <= i < |s| ==> Slot(s, i) < |s| && f[Slot(s, i)] == i
  }

  lemma PlacedAt(s: seq<Byte>, f: seq<nat>, k: nat)
    requires Placed(s, f) && k < |s|
    ensures f[k] < |s| && Slot(s, f[k]) == k
  {
    hide Slot;
    SlotsPermute(s);
    var i := PermutationHits(Slots(s), |s|, k);
    assert Slots(s)[i] == Slot(s, i);
  }

  lemma PlacedSorted(s: seq<Byte>, f: seq<nat>)
    requires Placed(s, f)
    ensures Permutes(f, |s|) && SortedBy(s, f, 1)
  {
    hide Slot;
    forall i | 0 <= i < |f| ensures f[i] < |s| { PlacedAt(s, f, i); }
    forall i, j | 0 <= i < j < |f| ensures f[i] != f[j] && s[f[i]] <= s[f[j]] {
      PlacedAt(s, f, i);
      PlacedAt(s, f, j);
      SlotOrder(s, f[i], f[j]);
    }
  }

  /** k is where the rotations starting with some byte begin. */
  ghost predicate Boundary(s: seq<Byte>, k: nat) {
    exists c :: 0 <= c < 256 && CountBelow(s, c) == k
  }

  /** The radix bucket boundaries are the bucket starts at depth one. */
  lemma PlacedHeaded(s: seq<Byte>, f: seq<nat>, hd: seq<bool>)
    requires |s| > 0 && Placed(s, f) && |hd| == |s| + 2 && hd[|s|] && !hd[|s| + 1]
    requires forall k :: 0 <= k < |s| ==> (hd[k] <==> Boundary(s, k))
    ensures Bucketed(s, f, hd, 1)
  {
    hide Placed, SortedBy;
    PlacedSorted(s, f);
    CountBelowEnds(s);
    assert hd[0] by { assert CountBelow(s, 0) == 0; }
    forall i | 0 < i < |s| ensures hd[i] <==> !Same(s, f[i - 1], f[i], 1) {
      BoundaryHead(s, f, i);
    }
  }

  lemma BoundaryHead(s: seq<Byte>, f: seq<nat>, i: nat)
    requires Placed(s, f) && Permutes(f, |s|) && 0 < i < |s|
    ensures !Same(s, f[i - 1], f[i], 1) <==> Boundary(s, i)
  {
    hide CountBelow, Slot;
    PlacedAt(s, f, i - 1);
    PlacedAt(s, f, i);
    SlotBounds(s, f[i - 1]);
    SlotBounds(s, f[i]);
    var c, d: int := s[f[i - 1]], s[f[i]];
    BoundaryAt(s, c, d, i);
    assert Same(s, Next(|s|, f[i - 1]), Next(|s|, f[i]), 0);
  }

  lemma BoundaryAt(s: seq<Byte>, c: int, d: int, i: nat)
    requires 0 < i && 0 <= c && 0 <= d < 256
    requires CountBelow(s, c) <= i - 1 < CountBelow(s, c + 1)
    requires CountBelow(s, d) <= i < CountBelow(s, d + 1)
    ensures c != d <==> Boundary(s, i)
  {
    if c == d {
      forall x | 0 <= x < 256 ensures CountBelow(s, x) != i {
        if x <= c { CountBelowMono(s, x, c); } else { CountBelowMono(s, c + 1, x); }
      }
    } else {
      if c < d { CountBelowMono(s, c + 1, d); } else { CountBelowMono(s, d + 1, c); }
      assert CountBelow(s, d) == i;
    }
  }

  // ----- recovering the first column -----

  ghost function Under(s: seq<Byte>, c: int): set<nat> {
    set x: nat | 0 <= x < |s| && s[x] < c
  }

  lemma UnderStep(s: seq<Byte>, c: int)
    requires |s| > 0
    ensures Under(s, c) == Under(s[..|s| - 1], c) + if s[|s| - 1] < c then {|s| - 1} else {}
    ensures |s| - 1 !in Under(s[..|s| - 1], c)
  {}

  lemma {:induction false} UnderCount(s: seq<Byte>, c: int)
    ensures |Under(s, c)| == CountBelow(s, c)
  {
    if |s| > 0 {
      hide Under;
      UnderCount(s[..|s| - 1], c);
      UnderStep(s, c);
    } else {
      assert Under(s, c) == {};
    }
  }

  /** In sorted order, row i starts with byte c exactly for the rows the byte counts give to c. */
  lemma SortedRows(s: seq<Byte>, f: seq<nat>, i: nat)
    requires RotationSorted(s, f) && i < |s|
    ensures var c: int := s[f[i]];
            CountBelow(s, c) <= i < CountBelow(s, c + 1)
  {
    hide CountBelow;
    var c: int := s[f[i]];
    UnderCount(s, c);
    UnderCount(s, c + 1);
    ElementsCount(f[..i]);
    ElementsCount(f[..i + 1]);
    RowsSplit(s, f, i);
    SubsetCount(Under(s, c), Elements(f[..i]));
    SubsetCount(Elements(f[..i + 1]), Under(s, c + 1));
  }

  lemma RowsSplit(s: seq<Byte>, f: seq<nat>, i: nat)
    requires RotationSorted(s, f) && i < |s|
    ensures var c: int := s[f[i]];
            Under(s, c) <= Elements(f[..i]) && Elements(f[..i + 1]) <= Under(s, c + 1)
  {
    var c: int := s[f[i]];
    FirstAscends(s, f);
    forall x | x in Under(s, c) ensures x in Elements(f[..i]) {
      var k := PermutationHits(f, |s|, x);
      assert f[..i][k] == x;
    }
    var q := f[..i + 1];
    forall k | 0 <= k < |q| ensures q[k] in Under(s, c + 1) {}
  }

  lemma FirstAscends(s: seq<Byte>, f: seq<nat>)
    requires RotationSorted(s, f)
    ensures forall a, b :: 0 <= a <= b < |s| ==> s[f[a]] <= s[f[b]]
  {
    forall a, b | 0 <= a <= b < |s| ensures s[f[a]] <= s[f[b]] {
      if a < b { assert Le(s, f[a], f[b], |s|); }
    }
  }
}
