/** The fallback block sort: exponential radix sort over bucket headers kept in a bitmap. */
module FallbackSort {
  import opened Rotations
  import opened Rearrange
  import opened Bwt
  import opened Doubling
  import opened ByteArea
  import H = HeaderBits
  import Q = FallbackQSort
  import W = Words

  const MAX_BLOCK := 900000

  /** The header bits of a block of n rotations and the two sentinels behind them. */
  ghost function Heads(bh: seq<nat>, n: nat): (hd: seq<bool>)
    requires (n + 1) / 32 < |bh|
    ensures |hd| == n + 2
  {
    seq(n + 2, k requires 0 <= k < n + 2 => H.Bit(bh, k))
  }

  // ----- initial radix sort -----

  /** ftab while slots are being handed out from the ends of the buckets. */
  ghost predicate Remaining(ftab: seq<nat>, s: seq<Byte>, i: nat)
    requires i <= |s|
  {
    |ftab| == 257 && ftab[256] == |s| &&
    forall c :: 0 <= c < 256 ==> ftab[c] == CountBelow(s, c) + CountOf(s, c) - CountOf(s[..i], c)
  }

  lemma RemainingStep(ftab: seq<nat>, s: seq<Byte>, i: nat)
    requires i < |s| && Remaining(ftab, s, i)
    ensures ftab[s[i]] == Slot(s, i) + 1 && Slot(s, i) < |s|
    ensures Remaining(ftab[s[i] := Slot(s, i)], s, i + 1)
  {
    SlotBounds(s, i);
    assert s[..i + 1][..i] == s[..i];
  }

  lemma RemainingEnds(ftab: seq<nat>, s: seq<Byte>)
    requires |ftab| == 257
    ensures (forall c :: 0 <= c <= 256 ==> ftab[c] == CountBelow(s, c + 1)) && ftab[256] == |s| ==> Remaining(ftab, s, 0)
    ensures Remaining(ftab, s, |s|) ==> forall c :: 0 <= c < 256 ==> ftab[c] == CountBelow(s, c)
  {
    assert s[..|s|] == s;
    forall c | 0 <= c < 256
      ensures CountBelow(s, c + 1) == CountBelow(s, c) + CountOf(s, c) && CountOf(s[..0], c) == 0
    {
      CountNext(s, c);
    }
  }

  /** Byte counts of the block: ftab cumulated, ftabCopy as they are. */
  method CountBytes(eclass: array<nat>, nblock: nat) returns (ftab: array<nat>, ftabCopy: array<nat>)
    requires nblock <= eclass.Length
    ensures fresh(ftab) && fresh(ftabCopy) && ftab != ftabCopy && ftab.Length == 257 && ftabCopy.Length == 256
    ensures var s := Bytes(eclass[..], nblock);
            Remaining(ftab[..], s, 0) && forall c :: 0 <= c < 256 ==> ftabCopy[c] == CountOf(s, c)
  {
    hide GetByte, CountOf;
    ghost var s := Bytes(eclass[..], nblock);
    ftab := new nat[257](_ => 0);
    ftabCopy := new nat[256];
    assert forall c :: 0 <= c < 257 ==> CountOf(s[..0], c) == 0 by { NoneYet(s); }
    for i := 0 to nblock
      invariant forall c :: 0 <= c < 257 ==> ftab[c] == CountOf(s[..i], c)
    {
      CountOneMore(s, i);
      var b := GetByte(eclass[i / 4], i % 4);
      ftab[b] := ftab[b] + 1;
    }
    assert s[..nblock] == s;
    for i := 0 to 256
      modifies ftabCopy
      invariant forall c :: 0 <= c < i ==> ftabCopy[c] == CountOf(s, c)
    {
      ftabCopy[i] := ftab[i];
    }
    SumCounts(ftab, s);
  }

  lemma NoneYet(s: seq<Byte>)
    ensures forall c :: 0 <= c < 257 ==> CountOf(s[..0], c) == 0
  {}

  lemma CountOneMore(s: seq<Byte>, i: nat)
    requires i < |s|
    ensures forall c :: 0 <= c < 257 ==> CountOf(s[..i + 1], c) == CountOf(s[..i], c) + if s[i] == c then 1 else 0
  {
    assert s[..i + 1][..i] == s[..i];
  }

  /** Counts become the ends of the buckets. */
  method SumCounts(ftab: array<nat>, ghost s: seq<Byte>)
    requires ftab.Length == 257 && forall c :: 0 <= c < 257 ==> ftab[c] == CountOf(s, c)
    modifies ftab
    ensures Remaining(ftab[..], s, 0)
  {
    hide CountOf, CountBelow;
    CountBelowEnds(s);
    CountNext(s, 0);
    for i := 1 to 257
      invariant forall c :: 0 <= c < i ==> ftab[c] == CountBelow(s, c + 1)
      invariant forall c :: i <= c < 257 ==> ftab[c] == CountOf(s, c)
    {
      CountNext(s, i);
      ftab[i] := ftab[i] + ftab[i - 1];
    }
    CountNext(s, 256);
    NoneAbove(s);
    RemainingEnds(ftab[..], s);
  }

  lemma {:induction false} NoneAbove(s: seq<Byte>)
    ensures CountBelow(s, 256) == |s| && CountOf(s, 256) == 0
  {
    if |s| > 0 { NoneAbove(s[..|s| - 1]); }
  }

  /** Drops every rotation into its slot; afterwards ftab holds the bucket starts. */
  method Place(fmap: array<nat>, eclass: array<nat>, ftab: array<nat>, nblock: nat, ghost s: seq<Byte>)
    requires fmap != eclass && fmap != ftab && eclass != ftab
    requires nblock == fmap.Length <= eclass.Length && s == Bytes(eclass[..], nblock)
    requires ftab.Length == 257 && Remaining(ftab[..], s, 0)
    modifies fmap, ftab
    ensures Placed(s, fmap[..])
    ensures forall c :: 0 <= c < 256 ==> ftab[c] == CountBelow(s, c)
  {
    hide GetByte, Slot, Remaining;
    for i := 0 to nblock
      invariant Remaining(ftab[..], s, i)
      invariant forall x :: 0 <= x < i ==> Slot(s, x) < nblock && fmap[Slot(s, x)] == x
    {
      RemainingStep(ftab[..], s, i);
      var j := GetByte(eclass[i / 4], i % 4);
      assert j == s[i];
      var k := ftab[j] - 1;
      ftab[j] := k;
      forall x | 0 <= x < i ensures Slot(s, x) != k { SlotOrder(s, x, i); }
      fmap[k] := i;
    }
    RemainingEnds(ftab[..], s);
  }

  /** Header bits for the radix buckets, and sentinels behind the last position. */
  method SetHeads(bhtab: array<nat>, ftab: array<nat>, nblock: nat, ghost s: seq<Byte>)
    requires bhtab != ftab && ftab.Length == 257 && 3 + nblock / 32 <= bhtab.Length && |s| == nblock
    requires forall c :: 0 <= c < 256 ==> ftab[c] == CountBelow(s, c)
    modifies bhtab
    ensures var hd := Heads(bhtab[..], nblock);
            hd[nblock] && !hd[nblock + 1] && forall k :: 0 <= k < nblock ==> (hd[k] <==> Boundary(s, k))
  {
    hide H.Bit, CountBelow;
    var nBhtab := 2 + nblock / 32;
    for i := 0 to nBhtab
      invariant forall w :: 0 <= w < i ==> bhtab[w] == 0
    {
      bhtab[i] := 0;
    }
    forall k | 0 <= k < nblock ensures !H.Bit(bhtab[..], k) { ZeroBit(bhtab[..], k); }
    for i := 0 to 256
      invariant forall k :: 0 <= k < nblock ==>
        (H.Bit(bhtab[..], k) <==> exists c :: 0 <= c < i && ftab[c] == k)
    {
      ghost var was := bhtab[..];
      H.Set(bhtab, ftab[i]);
      forall k | 0 <= k < nblock
        ensures H.Bit(bhtab[..], k) <==> exists c :: 0 <= c < i + 1 && ftab[c] == k
      {
        if exists c :: 0 <= c < i && ftab[c] == k {
          var c :| 0 <= c < i && ftab[c] == k;
          assert 0 <= c < i + 1 && ftab[c] == k;
        }
      }
    }
    forall k | 0 <= k < nblock ensures H.Bit(bhtab[..], k) <==> Boundary(s, k) {
      if exists c :: 0 <= c < 256 && ftab[c] == k {
        var c :| 0 <= c < 256 && ftab[c] == k;
        assert CountBelow(s, c) == k;
      }
    }
    for i := 0 to 32
      invariant forall k :: 0 <= k < nblock ==> (H.Bit(bhtab[..], k) <==> Boundary(s, k))
      invariant i > 0 ==> H.Bit(bhtab[..], nblock) && !H.Bit(bhtab[..], nblock + 1)
    {
      H.Set(bhtab, nblock + 2 * i);
      H.Clear(bhtab, nblock + 2 * i + 1);
    }
  }

  lemma ZeroBit(bh: seq<nat>, k: nat)
    requires k / 32 < |bh| && bh[k / 32] == 0
    ensures !H.Bit(bh, k)
  {
    W.NoBits(k % 32);
  }

  // ----- one pass -----

  /** Gives every rotation the bucket of the rotation h characters later, wrapping around the block. */
  method SetClasses(fmap: array<nat>, eclass: array<nat>, bhtab: array<nat>, nblock: nat, h: nat)
    requires fmap != eclass && eclass != bhtab
    requires h <= nblock == fmap.Length <= eclass.Length && 3 + nblock / 32 <= bhtab.Length
    requires Permutes(fmap[..], nblock)
    modifies eclass
    ensures Shifted(eclass[..], fmap[..], Heads(bhtab[..], nblock), h)
    ensures forall a :: 0 <= a < nblock ==> eclass[a] < nblock
  {
    hide H.Bit, HeadOf;
    ghost var bh := bhtab[..];
    ghost var hd := Heads(bh, nblock);
    var j := 0;
    for i := 0 to nblock
      invariant bhtab[..] == bh
      invariant if i == 0 then j == 0 else j == HeadOf(hd, i - 1)
      invariant forall x :: 0 <= x < i ==> eclass[BackUp(nblock, fmap[x], h)] == HeadOf(hd, x)
    {
      var isHead := H.IsSet(bhtab, i);
      if isHead { j := i; }
      HeadOfNext(hd, i);
      var k := fmap[i] - h;
      if k < 0 { k := k + nblock; }
      eclass[k] := j;
    }
    forall a | 0 <= a < nblock ensures eclass[a] < nblock {
      AdvanceWithin(nblock, a, h);
      var x := PermutationHits(fmap[..], nblock, Advance(nblock, a, h));
    }
  }

  lemma HeadOfNext(hd: seq<bool>, i: nat)
    requires i < |hd|
    ensures HeadOf(hd, i) == if i == 0 || hd[i] then i else HeadOf(hd, i - 1)
  {}

  /** A pass that has dealt with the buckets before position q. */
  ghost predicate Passing(g: seq<nat>, hd': seq<bool>, f: seq<nat>, e: seq<nat>, hd: seq<bool>, cls: seq<nat>, q: nat)
    requires |g| == |f| == |cls| <= |e| && |hd| == |hd'| == |g| + 2
  {
    q <= |g| && hd[0] && hd[q] && hd[|g|] && !hd[|g| + 1] && Keyed(g, e) && Keyed(f, e) &&
    Classified(f, hd, cls) && Classified(g, hd, cls) && hd'[|g|] && !hd'[|g| + 1] &&
    (forall i, j :: 0 <= i < j < q && HeadOf(hd, i) == HeadOf(hd, j) ==> e[g[i]] <= e[g[j]]) &&
    (forall i :: 0 < i < q ==> (hd'[i] <==> hd[i] || Differs(e, g, i))) &&
    (0 < q ==> hd'[0]) &&
    (forall i :: q <= i < |g| ==> g[i] == f[i] && hd'[i] == hd[i])
  }

  /** Positions q..l-1 hold single-rotation buckets and l..r the next larger one. */
  ghost predicate NextBucket(hd: seq<bool>, q: nat, l: nat, r: nat) {
    q <= l < r && r + 1 < |hd| && (forall k :: q <= k <= l ==> hd[k]) &&
    (forall k :: l < k <= r ==> !hd[k]) && hd[r + 1]
  }

  lemma BucketHead(hd: seq<bool>, q: nat, l: nat, r: nat)
    requires NextBucket(hd, q, l, r)
    ensures forall k :: q <= k <= l ==> HeadOf(hd, k) == k
    ensures forall k :: l <= k <= r ==> HeadOf(hd, k) == l
  {
    forall k | l <= k <= r ensures HeadOf(hd, k) == l {
      HeadOfMono(hd, l, k);
    }
  }

  /** Sorting within one bucket keeps every position in its bucket. */
  lemma BucketClassified(g: seq<nat>, g0: seq<nat>, hd: seq<bool>, cls: seq<nat>, q: nat, l: nat, r: nat)
    requires Classified(g0, hd, cls) && NextBucket(hd, q, l, r) && r < |g0|
    requires Rearranged(g, g0, l, r)
    ensures Classified(g, hd, cls)
  {
    hide HeadOf;
    BucketHead(hd, q, l, r);
    RearrangedPermutes(g, g0, l, r);
    forall i | 0 <= i < |g| ensures g[i] < |cls| && cls[g[i]] == HeadOf(hd, i) {
      if l <= i <= r {
        var k := RearrangedFrom(g, g0, l, r, i);
      }
    }
  }

  lemma RearrangedPermutes(g: seq<nat>, f: seq<nat>, lo: int, hi: int)
    requires Rearranged(g, f, lo, hi) && Permutes(f, |f|)
    ensures Permutes(g, |f|)
  {
    RearrangedWhole(g, f, lo, hi);
    MultisetPermutes(g, f);
  }

  lemma MultisetPermutes(g: seq<nat>, f: seq<nat>)
    requires multiset(g) == multiset(f) && Permutes(f, |f|)
    ensures |g| == |f| && Permutes(g, |f|)
  {
    MultisetDistinct(g, f);
    forall i | 0 <= i < |g| ensures g[i] < |f| {
      assert g[i] in multiset(f);
    }
  }

  lemma SameHead(hd: seq<bool>, i: nat, j: nat)
    requires i < j < |hd| && HeadOf(hd, i) == HeadOf(hd, j)
    ensures forall k :: i < k <= j ==> !hd[k]
  {
    HeadOfMono(hd, i, j);
  }

  /** Sorting the next bucket and marking its new boundaries carries the pass past it. */
  lemma PassBucket(g: seq<nat>, hd': seq<bool>, g0: seq<nat>, hd0: seq<bool>, f: seq<nat>, e: seq<nat>,
                   hd: seq<bool>, cls: seq<nat>, q: nat, l: nat, r: nat)
    requires |g| == |g0| == |f| == |cls| <= |e| && |hd| == |hd'| == |hd0| == |g| + 2
    requires Passing(g0, hd0, f, e, hd, cls, q) && NextBucket(hd, q, l, r) && r < |g|
    requires Rearranged(g, g0, l, r) && Keyed(g, e) && Ascending(g, e, l, r)
    requires Marked(hd', hd0, g, e, l, r + 1)
    ensures Passing(g, hd', f, e, hd, cls, r + 1)
  {
    hide HeadOf, Classified, Rearranged;
    BucketClassified(g, g0, hd, cls, q, l, r);
    BucketHead(hd, q, l, r);
    RearrangedOutside(g, g0, l, r);
    forall i, j | 0 <= i < j < r + 1 && HeadOf(hd, i) == HeadOf(hd, j) ensures e[g[i]] <= e[g[j]] {
      SameHead(hd, i, j);
    }
  }

  lemma PassStart(f: seq<nat>, e: seq<nat>, hd: seq<bool>, cls: seq<nat>)
    requires |f| == |cls| <= |e| && |hd| == |f| + 2 && Keyed(f, e) && Classified(f, hd, cls)
    requires hd[0] && hd[|f|] && !hd[|f| + 1]
    ensures Passing(f, hd, f, e, hd, cls, 0)
  {}

  /** The rest of the buckets hold one rotation each. */
  lemma PassEnd(g: seq<nat>, hd': seq<bool>, f: seq<nat>, e: seq<nat>, hd: seq<bool>, cls: seq<nat>, q: nat)
    requires |g| == |f| == |cls| <= |e| && |hd| == |hd'| == |g| + 2
    requires Passing(g, hd', f, e, hd, cls, q) && forall k :: q <= k < |g| ==> hd[k]
    ensures Refined(g, hd', e, hd, cls)
  {
    hide HeadOf, Classified;
    forall i, j | 0 <= i < j < |g| && HeadOf(hd, i) == HeadOf(hd, j) ensures e[g[i]] <= e[g[j]] {
      SameHead(hd, i, j);
    }
  }

  /** Refines every bucket of more than one rotation; nNotDone counts the rotations in those. */
  method RefineBuckets(fmap: array<nat>, eclass: array<nat>, bhtab: array<nat>, nblock: nat, ghost cls: seq<nat>)
    returns (nNotDone: nat)
    requires fmap != eclass && fmap != bhtab && eclass != bhtab
    requires nblock == fmap.Length <= eclass.Length && 3 + nblock / 32 <= bhtab.Length
    requires 0 < nblock <= MAX_BLOCK && Keyed(fmap[..], eclass[..])
    requires var hd := Heads(bhtab[..], nblock);
             hd[0] && hd[nblock] && !hd[nblock + 1] && Classified(fmap[..], hd, cls)
    modifies fmap, bhtab
    ensures Refined(fmap[..], Heads(bhtab[..], nblock), eclass[..], old(Heads(bhtab[..], nblock)), cls)
    ensures nNotDone == 0 ==> forall k :: 0 <= k < nblock ==> old(Heads(bhtab[..], nblock))[k]
  {
    hide H.Bit, Passing, Classified, Rearranged, Ascending, Keyed, Refined;
    ghost var f, e, hd := fmap[..], eclass[..], Heads(bhtab[..], nblock);
    assert |cls| == nblock by { ClassifiedLength(f, hd, cls); }
    PassStart(f, e, hd, cls);
    nNotDone := 0;
    var r := -1;
    while true
      invariant -1 <= r < nblock
      invariant Passing(fmap[..], Heads(bhtab[..], nblock), f, e, hd, cls, r + 1)
      invariant nNotDone == 0 ==> forall k :: 0 <= k < r + 1 ==> hd[k]
      decreases nblock - r
    {
      PassingFacts(fmap[..], Heads(bhtab[..], nblock), f, e, hd, cls, r + 1);
      ghost var g0, hd0 := fmap[..], Heads(bhtab[..], nblock);
      assert !hd0[nblock + 1];
      var k := H.FindClear(bhtab, r + 1, nblock + 1);
      forall j | r + 1 <= j < k ensures hd0[j] { assert H.Bit(bhtab[..], j); }
      var l := k - 1;
      if l >= nblock {
        PassEnd(fmap[..], hd0, f, e, hd, cls, r + 1);
        break;
      }
      assert !hd0[k] && k < nblock && hd0[nblock];
      k := H.FindSet(bhtab, k, nblock);
      ghost var q := r + 1;
      r := k - 1;
      assert hd0[k];
      forall j | l < j <= r ensures !hd0[j] { assert !H.Bit(bhtab[..], j); }
      assert NextBucket(hd, q, l, r);
      nNotDone := nNotDone + (r - l + 1);
      ghost var bh0 := bhtab[..];
      Q.QSort3(fmap, eclass, l, r);
      assert bhtab[..] == bh0 && eclass[..] == e;
      ghost var g := fmap[..];
      MarkBoundaries(fmap, eclass, bhtab, l, r, nblock);
      assert fmap[..] == g && eclass[..] == e;
      RearrangedLength(g, g0, l, r);
      PassBucket(g, Heads(bhtab[..], nblock), g0, hd0, f, e, hd, cls, q, l, r);
    }
  }

  lemma ClassifiedLength(f: seq<nat>, hd: seq<bool>, cls: seq<nat>)
    requires Classified(f, hd, cls)
    ensures |cls| == |f|
  {}

  lemma RearrangedLength(g: seq<nat>, f: seq<nat>, lo: int, hi: int)
    requires Rearranged(g, f, lo, hi)
    ensures |g| == |f|
  {}

  lemma PassingFacts(g: seq<nat>, hd': seq<bool>, f: seq<nat>, e: seq<nat>, hd: seq<bool>, cls: seq<nat>, q: nat)
    requires |g| == |f| == |cls| <= |e| && |hd| == |hd'| == |g| + 2 && Passing(g, hd', f, e, hd, cls, q)
    ensures Keyed(g, e) && hd[q] && hd'[|g|] && !hd'[|g| + 1] && hd[|g|] && !hd[|g| + 1]
    ensures forall i :: q <= i < |g| ==> hd'[i] == hd[i]
  {}

  /** hd' adds to hd a header wherever the class changes at positions l..m-1. */
  ghost predicate Marked(hd': seq<bool>, hd: seq<bool>, f: seq<nat>, e: seq<nat>, l: nat, m: nat) {
    Keyed(f, e) && |hd'| == |hd| && m <= |f| <= |hd| &&
    forall k :: 0 <= k < |hd| ==> hd'[k] == (hd[k] || (l <= k < m && Changes(f, e, l, k)))
  }

  ghost predicate Changes(f: seq<nat>, e: seq<nat>, l: nat, k: nat)
    requires Keyed(f, e) && l <= k < |f|
  {
    k == l || e[f[k - 1]] != e[f[k]]
  }

  lemma HeadsSet(bh: seq<nat>, bh': seq<nat>, n: nat, i: nat)
    requires |bh| == |bh'| && (n + 1) / 32 < |bh| && i <= n + 1
    requires forall j: nat :: j / 32 < |bh| ==> H.Bit(bh', j) == (j == i || H.Bit(bh, j))
    ensures Heads(bh', n) == Heads(bh, n)[i := true]
  {
    hide H.Bit;
  }

  /** Sets a header wherever the class changes inside l..r. */
  method MarkBoundaries(fmap: array<nat>, eclass: array<nat>, bhtab: array<nat>, l: nat, r: nat, nblock: nat)
    requires fmap != bhtab && eclass != bhtab && l <= r < nblock == fmap.Length && 3 + nblock / 32 <= bhtab.Length
    requires Keyed(fmap[..], eclass[..])
    modifies bhtab
    ensures Marked(Heads(bhtab[..], nblock), old(Heads(bhtab[..], nblock)), fmap[..], eclass[..], l, r + 1)
  {
    hide H.Bit, Heads;
    ghost var f, e, hd0 := fmap[..], eclass[..], Heads(bhtab[..], nblock);
    var cc: int := -1;
    for i := l to r + 1
      invariant fmap[..] == f && eclass[..] == e
      invariant cc == if i == l then -1 else e[f[i - 1]]
      invariant Marked(Heads(bhtab[..], nblock), hd0, f, e, l, i)
    {
      var cc1 := eclass[fmap[i]];
      if cc != cc1 {
        ghost var bh := bhtab[..];
        H.Set(bhtab, i);
        HeadsSet(bh, bhtab[..], nblock, i);
        cc := cc1;
      }
    }
  }

  // ----- restoring the block -----

  /** Occurrences of byte c among rows i and later of the sorted first column. */
  function Left(s: seq<Byte>, c: int, i: nat): nat {
    if CountBelow(s, c + 1) <= i then 0
    else if i <= CountBelow(s, c) then CountOf(s, c)
    else CountBelow(s, c + 1) - i
  }

  lemma LeftStep(s: seq<Byte>, c: int, i: nat, d: int)
    requires CountBelow(s, c) <= i < CountBelow(s, c + 1)
    ensures d == c ==> Left(s, d, i) == Left(s, d, i + 1) + 1
    ensures d != c ==> Left(s, d, i) == Left(s, d, i + 1)
    ensures d < c ==> Left(s, d, i) == 0
  {
    hide CountBelow, CountOf;
    CountNext(s, c);
    CountNext(s, d);
    if d < c { CountBelowMono(s, d + 1, c); }
    if c < d { CountBelowMono(s, c + 1, d); }
  }

  /** The first column is recomputed from the byte counts and scattered back through the order. */
  method RestoreBlock(fmap: array<nat>, eclass: array<nat>, ftabCopy: array<nat>, nblock: nat, ghost s: seq<Byte>)
    requires fmap != eclass && eclass != ftabCopy && fmap != ftabCopy
    requires nblock == fmap.Length == |s| <= eclass.Length && ftabCopy.Length == 256
    requires RotationSorted(s, fmap[..]) && forall c :: 0 <= c < 256 ==> ftabCopy[c] == CountOf(s, c)
    modifies eclass, ftabCopy
    ensures Bytes(eclass[..], nblock) == s
  {
    hide RotationSorted, CountOf, CountBelow, GetByte, Left;
    ghost var f := fmap[..];
    LeftStart(s);
    SortedPermutes(s, f);
    var j := 0;
    for i := 0 to nblock
      invariant fmap[..] == f
      invariant forall c :: 0 <= c < 256 ==> ftabCopy[c] == Left(s, c, i)
      invariant j < 256 && (i < nblock ==> j <= s[f[i]])
      invariant forall x :: 0 <= x < i ==> Bytes(eclass[..], nblock)[f[x]] == s[f[x]]
    {
      ghost var c := s[f[i]];
      RowLeft(s, f, i);
      while ftabCopy[j] == 0
        invariant j <= c
        decreases c - j
      {
        j := j + 1;
      }
      assert j == c;
      ftabCopy[j] := ftabCopy[j] - 1;
      StoreByte(eclass, fmap[i], j);
      if i + 1 < nblock { FirstStep(s, f, i); }
    }
    ghost var back := Bytes(eclass[..], nblock);
    forall v | 0 <= v < nblock ensures back[v] == s[v] {
      var x := PermutationHits(f, nblock, v);
    }
  }

  lemma LeftStart(s: seq<Byte>)
    ensures forall c :: 0 <= c < 256 ==> Left(s, c, 0) == CountOf(s, c)
  {
    forall c | 0 <= c < 256 ensures Left(s, c, 0) == CountOf(s, c) { CountNext(s, c); }
  }

  lemma SortedPermutes(s: seq<Byte>, f: seq<nat>)
    requires RotationSorted(s, f)
    ensures Permutes(f, |s|)
  {}

  lemma RowLeft(s: seq<Byte>, f: seq<nat>, i: nat)
    requires RotationSorted(s, f) && i < |s|
    ensures f[i] < |s| && Left(s, s[f[i]], i) == Left(s, s[f[i]], i + 1) + 1
    ensures forall d :: d != s[f[i]] ==> Left(s, d, i) == Left(s, d, i + 1)
    ensures forall d :: d < s[f[i]] ==> Left(s, d, i) == 0
  {
    hide Left, CountBelow;
    var c: int := s[f[i]];
    SortedRows(s, f, i);
    forall d ensures (d != c ==> Left(s, d, i) == Left(s, d, i + 1)) && (d < c ==> Left(s, d, i) == 0) {
      LeftStep(s, c, i, d);
    }
    LeftStep(s, c, i, c);
  }

  lemma FirstStep(s: seq<Byte>, f: seq<nat>, i: nat)
    requires RotationSorted(s, f) && i + 1 < |s|
    ensures f[i] < |s| && f[i + 1] < |s| && s[f[i]] <= s[f[i + 1]]
  {
    FirstAscends(s, f);
  }

  // ----- the sort -----

  lemma ShiftedClasses(e: seq<nat>, f: seq<nat>, hd: seq<bool>, h: nat) returns (cls: seq<nat>)
    requires Shifted(e, f, hd, h)
    ensures Classified(f, hd, cls)
  {
    hide HeadOf;
    cls := seq(|f|, v requires 0 <= v < |f| => e[BackUp(|f|, v, h)]);
  }

  /** Sorts all rotations of the block held in the first bytes of eclass.  The classes overwrite the
      block; it is restored at the end. */
  method FallbackSort(fmap: array<nat>, eclass: array<nat>, bhtab: array<nat>, nblock: nat)
    requires fmap != eclass && fmap != bhtab && eclass != bhtab
    requires 0 < nblock <= MAX_BLOCK && nblock == fmap.Length <= eclass.Length && 3 + nblock / 32 <= bhtab.Length
    modifies fmap, eclass, bhtab
    ensures RotationSorted(Bytes(eclass[..], nblock), fmap[..])
    ensures Bytes(eclass[..], nblock) == old(Bytes(eclass[..], nblock))
  {
    hide H.Bit, GetByte, Bucketed, Shifted, Refined, Classified, Placed, RotationSorted, Remaining, CountBelow, CountOf;
    ghost var s := Bytes(eclass[..], nblock);
    var ftab, ftabCopy := CountBytes(eclass, nblock);
    Place(fmap, eclass, ftab, nblock, s);
    SetHeads(bhtab, ftab, nblock, s);
    PlacedHeaded(s, fmap[..], Heads(bhtab[..], nblock));
    var h := 1;
    while true
      invariant 1 <= h <= nblock
      invariant forall c :: 0 <= c < 256 ==> ftabCopy[c] == CountOf(s, c)
      invariant Bucketed(s, fmap[..], Heads(bhtab[..], nblock), h)
      decreases nblock - h
    {
      ghost var f, hd := fmap[..], Heads(bhtab[..], nblock);
      BucketedFacts(s, f, hd, h);
      SetClasses(fmap, eclass, bhtab, nblock, h);
      ghost var e := eclass[..];
      ghost var cls := ShiftedClasses(e, f, hd, h);
      var nNotDone := RefineBuckets(fmap, eclass, bhtab, nblock, cls);
      RefinedBucketed(s, f, hd, h, e, cls, fmap[..], Heads(bhtab[..], nblock));
      if nNotDone == 0 { RefinedHeads(fmap[..], Heads(bhtab[..], nblock), e, hd, cls); }
      h := h * 2;
      if h > nblock || nNotDone == 0 {
        BucketedDone(s, fmap[..], Heads(bhtab[..], nblock), h);
        break;
      }
    }
    RestoreBlock(fmap, eclass, ftabCopy, nblock, s);
  }

  lemma BucketedFacts(s: seq<Byte>, f: seq<nat>, hd: seq<bool>, h: nat)
    requires Bucketed(s, f, hd, h) && 0 < |s|
    ensures Permutes(f, |s|) && |hd| == |s| + 2 && hd[0] && hd[|s|] && !hd[|s| + 1]
  {}

  lemma RefinedHeads(g: seq<nat>, hd': seq<bool>, e: seq<nat>, hd: seq<bool>, cls: seq<nat>)
    requires Refined(g, hd', e, hd, cls) && forall k :: 0 <= k < |g| ==> hd[k]
    ensures forall k :: 0 <= k < |g| ==> hd'[k]
  {
    forall k | 0 <= k < |g| ensures hd'[k] { assert hd[k]; }
  }
}
