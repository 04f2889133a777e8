/** Small buckets: the rotations by their first two bytes. */
module MainBuckets {
  import opened Rotations
  import opened Rearrange
  import opened Codes
  import opened MainCompare

  /** The first two bytes of a rotation. */
  function Key(s: seq<Byte>, i: nat): (k: nat)
    requires i < |s|
    ensures k < 65536
  {
    (s[i] as int) * 256 + s[Next(|s|, i)]
  }

  function Keys(s: seq<Byte>): (k: seq<nat>)
    ensures |k| == |s| && forall i :: 0 <= i < |s| ==> k[i] == Key(s, i)
  {
    seq(|s|, i requires 0 <= i < |s| => Key(s, i))
  }

  /** Where the small bucket k starts. */
  function Start(s: seq<Byte>, k: nat): (r: nat)
    ensures r <= |s|
  {
    Shorter(Keys(s), k)
  }

  lemma StartMono(s: seq<Byte>, j: nat, k: nat)
    requires j <= k
    ensures Start(s, j) <= Start(s, k)
  {
    ShorterMono(Keys(s), j, k);
  }

  lemma StartNext(s: seq<Byte>, k: nat)
    ensures Start(s, k + 1) == Start(s, k) + Count(Keys(s), k)
  {
    ShorterNext(Keys(s), k);
  }

  lemma StartEnds(s: seq<Byte>)
    ensures Start(s, 0) == 0 && Start(s, 65536) == |s|
  {
    NoneBelow(Keys(s));
    AllBelow(Keys(s), 65536);
  }

  lemma {:induction false} NoneBelow(keys: seq<nat>)
    ensures Shorter(keys, 0) == 0
  {
    if keys != [] { NoneBelow(keys[..|keys| - 1]); }
  }

  lemma {:induction false} AllBelow(keys: seq<nat>, k: nat)
    requires forall i :: 0 <= i < |keys| ==> keys[i] < k
    ensures Shorter(keys, k) == |keys|
  {
    if keys != [] { AllBelow(keys[..|keys| - 1], k); }
  }

  /** The rotations with key k. */
  ghost function KeySet(s: seq<Byte>, k: nat): set<nat> {
    set i: nat | i < |s| && Key(s, i) == k
  }

  ghost function Where(keys: seq<nat>, k: nat): set<nat> {
    set i: nat | i < |keys| && keys[i] == k
  }

  lemma {:induction false} WhereCount(keys: seq<nat>, k: nat)
    ensures |Where(keys, k)| == Count(keys, k)
  {
    if keys != [] {
      var m := |keys| - 1;
      WhereCount(keys[..m], k);
      assert Where(keys, k) == Where(keys[..m], k) + (if keys[m] == k then {m} else {});
      assert m !in Where(keys[..m], k);
    }
  }

  lemma KeySetCount(s: seq<Byte>, k: nat)
    ensures |KeySet(s, k)| == Start(s, k + 1) - Start(s, k)
  {
    assert KeySet(s, k) == Where(Keys(s), k);
    WhereCount(Keys(s), k);
    StartNext(s, k);
  }

  /** Position x lies in the small bucket k. */
  predicate Within(s: seq<Byte>, k: nat, x: int) {
    Start(s, k) <= x < Start(s, k + 1)
  }

  /** Every rotation is listed once, in its small bucket. */
  ghost predicate InBuckets(p: seq<nat>, s: seq<Byte>) {
    |p| == |s| && Distinct(p) && forall x :: 0 <= x < |p| ==> p[x] < |s| && Within(s, Key(s, p[x]), x)
  }

  lemma BucketsApart(s: seq<Byte>, j: nat, k: nat, x: int)
    requires Within(s, j, x) && Within(s, k, x)
    ensures j == k
  {
    if j < k { StartMono(s, j + 1, k); }
    if k < j { StartMono(s, k + 1, j); }
  }

  /** What lies in a bucket has its key. */
  lemma BucketKey(p: seq<nat>, s: seq<Byte>, k: nat, x: nat)
    requires InBuckets(p, s) && Within(s, k, x)
    ensures x < |p| && p[x] < |s| && Key(s, p[x]) == k
  {
    hide Key, Start;
    BucketsApart(s, Key(s, p[x]), k, x);
  }

  /** A rotation is somewhere in its bucket. */
  lemma Whereabouts(p: seq<nat>, s: seq<Byte>, i: nat) returns (x: nat)
    requires InBuckets(p, s) && i < |s|
    ensures x < |p| && p[x] == i && Within(s, Key(s, i), x)
  {
    x := PermutationHits(p, |s|, i);
  }

  /** Sorting within a bucket keeps every rotation in its bucket. */
  lemma BucketRearranged(g: seq<nat>, f: seq<nat>, s: seq<Byte>, k: nat)
    requires InBuckets(f, s) && Rearranged(g, f, Start(s, k), Start(s, k + 1) - 1)
    ensures InBuckets(g, s)
  {
    hide Key, Start;
    RearrangedWhole(g, f, Start(s, k), Start(s, k + 1) - 1);
    MultisetDistinct(g, f);
    forall x | 0 <= x < |g| ensures g[x] < |s| && Within(s, Key(s, g[x]), x) {
      if Start(s, k) <= x <= Start(s, k + 1) - 1 {
        var y := RearrangedFrom(g, f, Start(s, k), Start(s, k + 1) - 1, x);
        BucketKey(f, s, k, y);
      } else {
        assert g[x] == f[x];
      }
    }
  }

  // ----- the radix sort -----

  /** ftab while slots are being handed out from the ends of the buckets, to the rotations from i on. */
  ghost predicate Remaining(ftab: seq<nat>, s: seq<Byte>, i: nat)
    requires i <= |s|
  {
    |ftab| == 65537 && ftab[65536] == |s| &&
    forall k :: 0 <= k < 65536 ==> ftab[k] == Start(s, k) + Count(Keys(s)[..i], k)
  }

  lemma RemainingStep(ftab: seq<nat>, s: seq<Byte>, i: nat)
    requires 0 < i <= |s| && Remaining(ftab, s, i)
    ensures var k := Key(s, i - 1);
            && ftab[k] == Place(Keys(s), i - 1) + 1 && Place(Keys(s), i - 1) < |s|
            && Remaining(ftab[k := Place(Keys(s), i - 1)], s, i - 1)
  {
    hide Shorter;
    var keys := Keys(s);
    assert keys[..i][..i - 1] == keys[..i - 1];
    PlaceBound(keys, i - 1);
  }

  lemma PlaceBound(keys: seq<nat>, i: nat)
    requires i < |keys|
    ensures Place(keys, i) < |keys|
  {
    CodeBelowEnd(keys, i);
    ShorterNext(keys, keys[i]);
    ShorterMost(keys, keys[i] + 1);
  }

  lemma {:induction false} ShorterMost(keys: seq<nat>, k: nat)
    ensures Shorter(keys, k) <= |keys|
  {}

  /** The rolling key: the byte before comes in at the top. */
  function Rolled(j: nat, c: Byte): nat {
    j / 256 + (c as int) * 256
  }

  lemma RolledKey(s: seq<Byte>, i: nat, j: nat)
    requires i < |s| && j / 256 == s[Next(|s|, i)]
    ensures Rolled(j, s[i]) == Key(s, i) && Rolled(j, s[i]) / 256 == s[i]
  {}

  /** Counts of the two-byte keys.  The quadrants start at zero. */
  method CountKeys(block: array<Byte>, quadrant: array<nat>, ftab: array<nat>, nblock: nat, ghost s: seq<Byte>)
    requires 0 < nblock == |s| <= block.Length && nblock <= quadrant.Length && block[..nblock] == s
    requires ftab.Length == 65537 && quadrant != ftab
    modifies quadrant, ftab
    ensures forall k :: 0 <= k < 65537 ==> ftab[k] == Count(Keys(s), k)
    ensures forall x :: 0 <= x < nblock ==> quadrant[x] == 0
  {
    hide Count, Key, Rolled;
    ghost var keys := Keys(s);
    for i := 0 to 65537
      modifies ftab
      invariant forall k :: 0 <= k < i ==> ftab[k] == 0
    {
      ftab[i] := 0;
    }
    assert keys[nblock..] == [];
    CountNone();
    var j: nat := (block[0] as int) * 256;
    assert block[..nblock][0] == s[0];
    var i := nblock;
    while i > 0
      invariant 0 <= i <= nblock && block[..nblock] == s
      invariant j / 256 == s[if i == nblock then 0 else i]
      invariant forall k :: 0 <= k < 65537 ==> ftab[k] == Count(keys[i..], k)
      invariant forall x :: i <= x < nblock ==> quadrant[x] == 0
    {
      i := i - 1;
      quadrant[i] := 0;
      assert block[..nblock][i] == s[i];
      RolledKey(s, i, j);
      j := Rolled(j, block[i]);
      assert keys[i..] == [keys[i]] + keys[i + 1..];
      forall k ensures Count(keys[i..], k) == Count(keys[i + 1..], k) + if keys[i] == k then 1 else 0 {
        CountFront(keys[i], keys[i + 1..], k);
      }
      ftab[j] := ftab[j] + 1;
    }
    assert keys[0..] == keys;
  }

  /** The first bytes again, behind the block's end. */
  method Overshoot(block: array<Byte>, quadrant: array<nat>, nblock: nat, ghost s: seq<Byte>)
    requires N_OVERSHOOT < nblock == |s| && nblock + N_OVERSHOOT <= block.Length && nblock + N_OVERSHOOT <= quadrant.Length
    requires block[..nblock] == s && forall x :: 0 <= x < nblock ==> quadrant[x] == 0
    modifies block, quadrant
    ensures Wrapped(block[..], s) && QuadrantsWrapped(quadrant[..], nblock) && Cached(quadrant[..], s)
    ensures block[..nblock] == s
  {
    assert forall x :: 0 <= x < nblock ==> block[x] == s[x] by {
      forall x | 0 <= x < nblock ensures block[x] == s[x] { assert block[..nblock][x] == s[x]; }
    }
    for i := 0 to N_OVERSHOOT
      invariant forall x :: 0 <= x < nblock ==> block[x] == s[x]
      invariant forall x :: nblock <= x < nblock + i ==> block[x] == s[x - nblock]
      invariant forall x :: 0 <= x < nblock + i ==> quadrant[x] == 0
    {
      block[nblock + i] := block[i];
      quadrant[nblock + i] := 0;
    }
  }

  method SumCounts(ftab: array<nat>, ghost s: seq<Byte>)
    requires ftab.Length == 65537 && forall k :: 0 <= k < 65537 ==> ftab[k] == Count(Keys(s), k)
    modifies ftab
    ensures Remaining(ftab[..], s, |s|)
  {
    hide Count, Start, Key;
    StartEnds(s);
    StartNext(s, 0);
    for i := 1 to 65537
      invariant forall k :: 0 <= k < i ==> ftab[k] == Start(s, k + 1)
      invariant forall k :: i <= k < 65537 ==> ftab[k] == Count(Keys(s), k)
    {
      StartNext(s, i);
      ftab[i] := ftab[i] + ftab[i - 1];
    }
    NoKeyAbove(s);
    StartNext(s, 65536);
    assert Keys(s)[..|s|] == Keys(s);
    forall k | 0 <= k < 65536 ensures Start(s, k + 1) == Start(s, k) + Count(Keys(s), k) { StartNext(s, k); }
  }

  lemma NoKeyAbove(s: seq<Byte>)
    ensures Count(Keys(s), 65536) == 0
  {
    WhereCount(Keys(s), 65536);
    assert Where(Keys(s), 65536) == {};
  }

  /** Drops every rotation into its slot, the last one first; afterwards ftab holds the bucket starts. */
  method PlaceAll(ptr: array<nat>, block: array<Byte>, ftab: array<nat>, nblock: nat, ghost s: seq<Byte>)
    requires 0 < nblock == |s| == ptr.Length && nblock <= block.Length && block[..nblock] == s
    requires ptr != ftab && ftab.Length == 65537 && Remaining(ftab[..], s, nblock)
    modifies ptr, ftab
    ensures InBuckets(ptr[..], s) && forall k :: 0 <= k <= 65536 ==> ftab[k] == Start(s, k)
  {
    hide Count, Key, Rolled, Start, Place, Remaining;
    ghost var keys := Keys(s);
    var j: nat := (block[0] as int) * 256;
    assert block[..nblock][0] == s[0];
    var i := nblock;
    while i > 0
      invariant 0 <= i <= nblock && block[..nblock] == s
      invariant j / 256 == s[if i == nblock then 0 else i]
      invariant ftab.Length == 65537 && Remaining(ftab[..], s, i)
      invariant forall x :: i <= x < nblock ==> Place(keys, x) < nblock && ptr[Place(keys, x)] == x
    {
      RemainingStep(ftab[..], s, i);
      i := i - 1;
      assert block[..nblock][i] == s[i];
      RolledKey(s, i, j);
      j := Rolled(j, block[i]);
      ghost var f := ftab[..];
      var slot := ftab[j] - 1;
      ftab[j] := slot;
      assert ftab[..] == f[j := slot];
      forall x | i < x < nblock ensures Place(keys, x) != slot {
        if Place(keys, x) == slot { PlacesDiffer(keys, x, i); }
      }
      ptr[slot] := i;
    }
    RemainingStarts(ftab[..], s);
    AllPlaced(ptr[..], s);
  }

  lemma RemainingStarts(ftab: seq<nat>, s: seq<Byte>)
    requires Remaining(ftab, s, 0)
    ensures forall k :: 0 <= k <= 65536 ==> ftab[k] == Start(s, k)
  {
    hide Start;
    StartEnds(s);
    CountNone();
    assert Keys(s)[..0] == [];
  }

  lemma AllPlaced(p: seq<nat>, s: seq<Byte>)
    requires |p| == |s| && forall x :: 0 <= x < |s| ==> Place(Keys(s), x) < |s| && p[Place(Keys(s), x)] == x
    ensures InBuckets(p, s)
  {
    hide Key, Place, Count, Shorter;
    var keys := Keys(s);
    var places := seq(|s|, i requires 0 <= i < |s| => Place(keys, i));
    forall i, j | 0 <= i < j < |s| ensures places[i] != places[j] {
      assert p[places[i]] == i && p[places[j]] == j;
    }
    forall x | 0 <= x < |p| ensures p[x] < |s| && Within(s, Key(s, p[x]), x) && Place(keys, p[x]) == x {
      var i := PermutationHits(places, |s|, x);
      PlaceWithin(s, i);
    }
  }

  lemma PlaceWithin(s: seq<Byte>, i: nat)
    requires i < |s|
    ensures Within(s, Key(s, i), Place(Keys(s), i))
  {
    hide Key;
    CodeBelowEnd(Keys(s), i);
    StartNext(s, Key(s, i));
  }

  lemma CountNone()
    ensures forall k :: Count([], k) == 0
  {}

  lemma {:induction false} CountFront(x: nat, keys: seq<nat>, k: int)
    ensures Count([x] + keys, k) == Count(keys, k) + if x == k then 1 else 0
  {
    if keys == [] {
      assert [x] + keys == [x] && [x][..0] == [];
    } else {
      CountFront(x, keys[..|keys| - 1], k);
      assert ([x] + keys)[..|keys|] == [x] + keys[..|keys| - 1];
    }
  }
}
