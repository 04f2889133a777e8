/** The main sort: radix sort by two bytes, then the big buckets from the least full on, each completed by quicksort
    and scanned to sort the buckets of the others. */
module MainSort {
  import opened Rotations
  import opened Words
  import opened Rearrange
  import opened MainCompare
  import opened MainBuckets
  import opened MainScan
  import Q = MainQSort
  import C = Codes

  const SETMASK: nat := 0x20_0000

  /** ftab[sb] & SETMASK, ftab[sb] & CLEARMASK and ftab[sb] | SETMASK for entries of at most 22 bits. */
  predicate IsSet(v: nat) { v / SETMASK % 2 == 1 }

  function Clear(v: nat): nat { v % SETMASK }

  function Marked(v: nat): nat { if IsSet(v) then v else v + SETMASK }

  lemma MarkedIs(v: nat)
    ensures IsSet(Marked(v)) && Clear(Marked(v)) == Clear(v)
  {
    AddedMask(v);
  }

  lemma AddedMask(v: nat)
    ensures (v + 0x20_0000) / 0x20_0000 == v / 0x20_0000 + 1 && (v + 0x20_0000) % 0x20_0000 == v % 0x20_0000
  {}

  /** ftab holds the starts of the small buckets. */
  predicate Starts(ftab: seq<nat>, s: seq<Byte>) {
    |ftab| == 65537 && forall k: nat :: k <= 65536 ==> Clear(ftab[k]) == Start(s, k)
  }

  /** The small buckets of, and into, the big buckets done. */
  predicate Finished(done: seq<bool>, k: nat)
    requires |done| == 256 && k < 65536
  {
    done[k / 256] || done[k % 256]
  }

  ghost predicate Tracked(p: seq<nat>, ftab: seq<nat>, s: seq<Byte>, k: nat)
    requires |ftab| == 65537 && k < 65536
  {
    IsSet(ftab[k]) ==> BucketSorted(p, s, k)
  }

  /** Marked buckets are sorted. */
  ghost predicate Tracking(p: seq<nat>, ftab: seq<nat>, s: seq<Byte>) {
    InBuckets(p, s) && Starts(ftab, s) && forall k: nat :: k < 65536 ==> Tracked(p, ftab, s, k)
  }

  /** Exactly the buckets of, and into, the big buckets done are marked. */
  predicate Flagged(ftab: seq<nat>, done: seq<bool>) {
    |ftab| == 65537 && |done| == 256 && forall k: nat :: k < 65536 ==> (IsSet(ftab[k]) <==> Finished(done, k))
  }

  // ----- running order -----

  function BigFreq(ftab: seq<nat>, b: nat): nat
    requires |ftab| == 65537 && b < 256
  {
    if ftab[(b + 1) * 256] < ftab[b * 256] then 0 else ftab[(b + 1) * 256] - ftab[b * 256]
  }

  function BigFreqs(ftab: seq<nat>): (e: seq<nat>)
    requires |ftab| == 65537
    ensures |e| == 256 && forall b :: 0 <= b < 256 ==> e[b] == BigFreq(ftab, b)
  {
    seq(256, b requires 0 <= b < 256 => BigFreq(ftab, b))
  }

  /** Moves one big bucket down in steps of h past every fuller one. */
  method InsertBig(order: array<nat>, i: nat, h: nat, e: seq<nat>)
    requires order.Length == 256 && 1 <= h <= i < 256 && |e| == 256 && Keyed(order[..], e)
    modifies order
    ensures Rearranged(order[..], old(order[..]), 0, 255) && Keyed(order[..], e)
    ensures h == 1 && old(Ascending(order[..], e, 0, i - 1)) ==> Ascending(order[..], e, 0, i)
  {
    hide Rearranged, Q.Inserting, Ascending;
    ghost var f0 := order[..];
    var vv := order[i];
    var j: int := i;
    Q.InsertStart(f0, e, i, h, 0, 255);
    var more := true;
    while more
      invariant 0 <= j <= i && (more ==> h <= j) && Q.Inserting(order[..], f0, e, i, j, h, 0, 255)
      invariant order[..][j := vv] == order[..][j := f0[i]] && |f0| == 256 && Keyed(order[..], e) && Keyed(f0, e)
      invariant !more ==> j <= h - 1 || Q.Settles(f0, e, i, j, h)
      decreases j, more
    {
      Touched(order[..], f0, e, i, j, h);
      more := e[order[j - h]] > e[vv];
      if more {
        Q.InsertStep(order[..], f0, e, i, j, h, 0, 255);
        ghost var f := order[..];
        order[j] := order[j - h];
        assert order[..] == f[j := f[j - h]];
        j := j - h;
        if j <= h - 1 { more := false; }
      }
    }
    Q.InsertDone(order[..], f0, e, i, j, h, 0, 255);
    ghost var f := order[..];
    order[j] := vv;
    assert order[..] == f[j := f0[i]];
  }

  lemma Touched(f: seq<nat>, f0: seq<nat>, e: seq<nat>, i: int, h: int, gap: nat)
    requires Q.Inserting(f, f0, e, i, h, gap, 0, 255) && 0 <= h - gap && gap >= 1
    ensures |f| == |f0| && f[h - gap] == f0[h - gap] && f[h - gap] < |e| && f0[i] < |e|
  {
    hide Rearranged;
  }

  /** The big buckets, the least full first. */
  method RunningOrder(ftab: array<nat>) returns (order: array<nat>)
    requires ftab.Length == 65537
    ensures fresh(order) && order.Length == 256 && Permutes(order[..], 256)
    ensures Ascending(order[..], BigFreqs(ftab[..]), 0, 255)
  {
    hide Rearranged, Ascending, BigFreqs;
    var e := BigFreqs(ftab[..]);
    order := new nat[256](i => i);
    ghost var f0 := order[..];
    Rearrange.RearrangedRefl(f0, 0, 255);
    var h := 1;
    h := 3 * h + 1;
    while h <= 256
      invariant h in {4, 13, 40, 121, 364}
    {
      h := 3 * h + 1;
    }
    while h != 1
      invariant h in {364, 121, 40, 13, 4, 1} && Rearranged(order[..], f0, 0, 255) && Keyed(order[..], e)
      invariant h == 1 ==> Ascending(order[..], e, 0, 255)
    {
      h := h / 3;
      if h == 1 { Q.AscendingShort(order[..], e, 0, 0); }
      for i := h to 256
        invariant Rearranged(order[..], f0, 0, 255) && Keyed(order[..], e)
        invariant h == 1 ==> Ascending(order[..], e, 0, i - 1)
      {
        ghost var f := order[..];
        InsertBig(order, i, h, e);
        RearrangedTrans(order[..], f, f0, 0, 255);
      }
    }
    OrderPermutes(order[..], f0);
  }

  lemma OrderPermutes(g: seq<nat>, f: seq<nat>)
    requires Rearranged(g, f, 0, 255) && |f| == 256 && forall i :: 0 <= i < 256 ==> f[i] == i
    ensures Permutes(g, 256)
  {
    RearrangedWhole(g, f, 0, 255);
    MultisetDistinct(g, f);
    forall i | 0 <= i < 256 ensures g[i] < 256 { var k := RearrangedFrom(g, f, 0, 255, i); }
  }

  // ----- step 1 -----

  lemma BucketPrefixed(p: seq<nat>, s: seq<Byte>, k: nat)
    requires InBuckets(p, s) && Start(s, k) < Start(s, k + 1)
    ensures Q.Prefixed(p, s, Start(s, k), Start(s, k + 1) - 1, N_RADIX)
  {
    hide Start, Key;
    forall i, j | Start(s, k) <= i <= Start(s, k + 1) - 1 && Start(s, k) <= j <= Start(s, k + 1) - 1
      ensures Same(s, p[i], p[j], N_RADIX)
    {
      BucketKey(p, s, k, i);
      BucketKey(p, s, k, j);
      KeySame(s, p[i], p[j]);
    }
  }

  lemma KeySame(s: seq<Byte>, a: nat, b: nat)
    requires a < |s| && b < |s| && Key(s, a) == Key(s, b)
    ensures Same(s, a, b, N_RADIX)
  {
    KeyParts(s, a);
    KeyParts(s, b);
    var n := |s|;
    assert Same(s, Next(n, Next(n, a)), Next(n, Next(n, b)), 0);
    assert Same(s, Next(n, a), Next(n, b), 1);
  }

  /** Sorting one small bucket leaves the others sorted. */
  lemma OthersSorted(g: seq<nat>, f: seq<nat>, s: seq<Byte>, k: nat, j: nat)
    requires Rearranged(g, f, Start(s, k), Start(s, k + 1) - 1) && InBuckets(g, s) && j != k && BucketSorted(f, s, j)
    ensures BucketSorted(g, s, j)
  {
    hide Start, Key, Ranks;
    forall x, y | Start(s, j) <= x < y <= Start(s, j + 1) - 1 && y < |g| ensures Ranks(s)[g[x]] <= Ranks(s)[g[y]] {
      if Within(s, k, x) { BucketsApart(s, j, k, x); }
      if Within(s, k, y) { BucketsApart(s, j, k, y); }
    }
  }

  lemma SmallBucket(p: seq<nat>, s: seq<Byte>, k: nat)
    requires InBuckets(p, s) && Start(s, k + 1) <= Start(s, k) + 1
    ensures BucketSorted(p, s, k)
  {
    hide Start, Key, Ranks;
  }

  /** Sorts one small bucket and marks it. */
  method SortSmall(ptr: array<nat>, block: array<Byte>, quadrant: array<nat>, ftab: array<nat>, nblock: nat, sb: nat,
                   budget: int, ghost s: seq<Byte>) returns (budget': int)
    requires ptr != quadrant && ptr != ftab && quadrant != ftab && Q.Ready(block[..], quadrant[..], s)
    requires nblock == |s| == ptr.Length <= Q.MAX_BLOCK && ftab.Length == 65537 && sb < 65536
    requires Tracking(ptr[..], ftab[..], s)
    modifies ptr, ftab
    ensures budget' <= budget
    ensures budget' >= 0 ==> Tracking(ptr[..], ftab[..], s) && ftab[..] == old(ftab[..])[sb := Marked(old(ftab[sb]))]
  {
    hide Start, Key, Ranks, Q.Ready, Q.Prefixed, Rearranged, Clear, IsSet, Marked, InBuckets, BucketSorted, Ascending;
    ghost var p, f := ptr[..], ftab[..];
    budget' := budget;
    assert Tracked(p, f, s, sb);
    assert Clear(f[sb]) == Start(s, sb) && Clear(f[sb + 1]) == Start(s, sb + 1);
    if !IsSet(ftab[sb]) {
      var lo, hi := Clear(ftab[sb]), Clear(ftab[sb + 1]) - 1;
      if hi > lo {
        BucketPrefixed(p, s, sb);
        BucketInside(p, s, sb);
        budget' := Q.MainQSort3(ptr, block, quadrant, nblock, lo, hi, N_RADIX, budget, s);
        if budget' < 0 { return; }
        BucketRearranged(ptr[..], p, s, sb);
        SortedNow(ptr[..], s, sb);
        forall k: nat | k < 65536 && k != sb && IsSet(f[k]) ensures BucketSorted(ptr[..], s, k) {
          assert Tracked(p, f, s, k);
          OthersSorted(ptr[..], p, s, sb, k);
        }
      } else {
        SmallBucket(p, s, sb);
      }
    }
    ftab[sb] := Marked(ftab[sb]);
    MarkedIs(f[sb]);
    assert ftab[..] == f[sb := Marked(f[sb])];
    forall k: nat | k < 65536 ensures Tracked(ptr[..], ftab[..], s, k) { assert Tracked(p, f, s, k); }
  }

  lemma BucketInside(p: seq<nat>, s: seq<Byte>, k: nat)
    requires InBuckets(p, s)
    ensures Start(s, k + 1) <= |p| == |s|
  {}

  lemma SortedNow(p: seq<nat>, s: seq<Byte>, k: nat)
    requires InBuckets(p, s) && Keyed(p, Ranks(s)) && Ascending(p, Ranks(s), Start(s, k), Start(s, k + 1) - 1)
    ensures BucketSorted(p, s, k)
  {}

  /** The marks while step 1 completes the big bucket ss. */
  predicate Marking(ftab: seq<nat>, done: seq<bool>, ss: nat, j: nat) {
    |ftab| == 65537 && |done| == 256 && forall k: nat :: k < 65536 ==> MarkAt(ftab, done, ss, j, k)
  }

  predicate MarkAt(ftab: seq<nat>, done: seq<bool>, ss: nat, j: nat, k: nat)
    requires |ftab| == 65537 && |done| == 256 && k < 65536
  {
    IsSet(ftab[k]) <==> Finished(done, k) || (k / 256 == ss && k % 256 < j && k % 256 != ss)
  }

  lemma MarkingNext(f: seq<nat>, f': seq<nat>, done: seq<bool>, ss: nat, j: nat)
    requires Marking(f, done, ss, j) && ss < 256 && j < 256
    requires j != ss ==> f' == f[ss * 256 + j := Marked(f[ss * 256 + j])]
    requires j == ss ==> f' == f
    ensures Marking(f', done, ss, j + 1)
  {
    hide IsSet, Marked, Finished;
    MarkedIs(f[ss * 256 + j]);
    var i := j + 1;
    forall k: nat | k < 65536 ensures MarkAt(f', done, ss, i, k) { assert MarkAt(f, done, ss, j, k); }
  }

  /** Step 1: completes the big bucket ss but for [ss, ss]. */
  method SortBig(ptr: array<nat>, block: array<Byte>, quadrant: array<nat>, ftab: array<nat>, nblock: nat, ss: nat,
                 budget: int, ghost s: seq<Byte>, ghost done: seq<bool>) returns (budget': int)
    requires ptr != quadrant && ptr != ftab && quadrant != ftab && Q.Ready(block[..], quadrant[..], s)
    requires 0 < nblock == |s| == ptr.Length <= Q.MAX_BLOCK && ftab.Length == 65537 && ss < 256
    requires Tracking(ptr[..], ftab[..], s) && Flagged(ftab[..], done) && !done[ss]
    modifies ptr, ftab
    ensures budget' <= budget
    ensures budget' >= 0 ==> Tracking(ptr[..], ftab[..], s) && Marking(ftab[..], done, ss, 256)
    ensures budget' >= 0 ==> Opened(Ctx(s, ptr[..], ss, done))
  {
    hide Tracking, Q.Ready, Marking, Flagged, Opened, Starts;
    budget' := budget;
    MarkingStart(ftab[..], done, ss);
    for j := 0 to 256
      invariant Tracking(ptr[..], ftab[..], s) && Marking(ftab[..], done, ss, j) && budget' <= budget
    {
      ghost var f := ftab[..];
      if j != ss {
        budget' := SortSmall(ptr, block, quadrant, ftab, nblock, ss * 256 + j, budget', s);
        if budget' < 0 { return; }
      }
      MarkingNext(f, ftab[..], done, ss, j);
    }
    MarkedOpened(ptr[..], ftab[..], s, done, ss);
  }

  lemma MarkingStart(f: seq<nat>, done: seq<bool>, ss: nat)
    requires Flagged(f, done)
    ensures Marking(f, done, ss, 0)
  {
    hide IsSet, Finished;
  }

  lemma MarkedOpened(p: seq<nat>, f: seq<nat>, s: seq<Byte>, done: seq<bool>, ss: nat)
    requires Tracking(p, f, s) && Marking(f, done, ss, 256) && ss < 256 && !done[ss] && |s| > 0
    ensures Opened(Ctx(s, p, ss, done))
  {
    hide IsSet, Finished, Start, Key, Ranks, BucketSorted, InBuckets;
    var c := Ctx(s, p, ss, done);
    forall j: nat | j < 256 && j != ss ensures SmallSorted(c, j) {
      assert Tracked(p, f, s, ss * 256 + j) && MarkAt(f, done, ss, 256, ss * 256 + j);
    }
  }

  // ----- step 2 -----

  /** The arrays of the scan and their state. */
  ghost predicate Held(ptr: seq<nat>, copyStart: seq<nat>, copyEnd: seq<int>, st: State) {
    && ptr == st.p && copyStart == st.cs && |copyEnd| == |st.rs| == 256
    && forall t :: 0 <= t < 256 ==> st.rs[t] == copyEnd[t] + 1
  }

  lemma StepBack(n: nat, i: nat)
    requires i < n
    ensures Prev(n, i) == if i == 0 then n - 1 else i - 1
  {}

  /** The scan from the left at j. */
  method ScanLeft(ptr: array<nat>, block: array<Byte>, bigDone: array<bool>, copyStart: array<nat>, copyEnd: array<int>,
                  nblock: nat, j: nat, ghost c: Ctx, ghost st: State, ghost jr: int) returns (ghost st': State)
    requires ptr != copyStart && copyStart.Length == copyEnd.Length == bigDone.Length == 256
    requires Wrapped(block[..], c.s) && nblock == |c.s| == ptr.Length && bigDone[..] == c.done
    requires c.ss < 256 && Scanning(c, st, j, jr) && Held(ptr[..], copyStart[..], copyEnd[..], st) && j < copyStart[c.ss]
    modifies ptr, copyStart
    ensures Scanning(c, st', j + 1, jr) && Held(ptr[..], copyStart[..], copyEnd[..], st')
  {
    hide Scanning, Wrapped;
    TurnLeft(c, st, j, jr);
    NewRotation(c, st, j, jr, j, j + 1, jr);
    RoomLeft(c, st, j, jr, j, j + 1, jr);
    StepBack(nblock, ptr[j]);
    var k := (ptr[j] as int) - 1;
    if k < 0 { k := k + nblock; }
    WrappedByte(block[..], c.s, k);
    var c1 := block[k];
    st' := st;
    if !bigDone[c1] {
      var x := copyStart[c1];
      ScanSizes(c, st, j, jr, c1);
      st' := State(st.p[x := k], st.cs[c1 := x + 1], st.rs, st.src[x := j]);
      ptr[x] := k;
      copyStart[c1] := x + 1;
      assert ptr[..] == st'.p && copyStart[..] == st'.cs;
    }
    ScanStep(c, st, st', j, jr, j, j + 1, jr);
  }

  lemma TurnLeft(c: Ctx, st: State, j: nat, jr: int)
    requires Scanning(c, st, j, jr) && |st.cs| == 256 && c.ss < 256 && j < st.cs[c.ss]
    ensures |st.rs| == 256 && Turn(c, st, j, jr, j, j + 1, jr)
  {}

  lemma ScanSizes(c: Ctx, st: State, jl: int, jr: int, t: nat)
    requires Scanning(c, st, jl, jr) && t < 256
    ensures |st.cs| == |st.rs| == 256 && |st.p| == |st.src| == |c.s| && c.ss < 256
    ensures st.cs[t] <= st.rs[t] <= |c.s|
  {
    assert Bounds(c, st, t);
    HighBound(c, t);
  }

  lemma WrappedByte(block: seq<Byte>, s: seq<Byte>, k: int)
    requires Wrapped(block, s) && 0 <= k < |s|
    ensures k < |block| && block[k] == s[k]
  {
    assert Mod(|s|, k) == k;
  }

  /** The scan from the right at j. */
  method ScanRight(ptr: array<nat>, block: array<Byte>, bigDone: array<bool>, copyStart: array<nat>, copyEnd: array<int>,
                   nblock: nat, j: nat, ghost c: Ctx, ghost st: State, ghost jl: int) returns (ghost st': State)
    requires ptr != copyStart && copyStart.Length == copyEnd.Length == bigDone.Length == 256
    requires Wrapped(block[..], c.s) && nblock == |c.s| == ptr.Length && bigDone[..] == c.done
    requires c.ss < 256 && Scanning(c, st, jl, j + 1) && Held(ptr[..], copyStart[..], copyEnd[..], st) && j > copyEnd[c.ss]
    modifies ptr, copyEnd
    ensures Scanning(c, st', jl, j) && Held(ptr[..], copyStart[..], copyEnd[..], st')
  {
    hide Scanning, Wrapped;
    TurnRight(c, st, jl, j);
    NewRotation(c, st, jl, j + 1, j, jl, j);
    RoomLeft(c, st, jl, j + 1, j, jl, j);
    StepBack(nblock, ptr[j]);
    var k := (ptr[j] as int) - 1;
    if k < 0 { k := k + nblock; }
    WrappedByte(block[..], c.s, k);
    var c1 := block[k];
    st' := st;
    if !bigDone[c1] {
      var x := copyEnd[c1];
      ScanSizes(c, st, jl, j + 1, c1);
      st' := State(st.p[x := k], st.cs, st.rs[c1 := x], st.src[x := j]);
      ghost var e := copyEnd[..];
      ptr[x] := k;
      copyEnd[c1] := x - 1;
      assert ptr[..] == st'.p && copyEnd[..] == e[c1 := x - 1];
    }
    ScanStep(c, st, st', jl, j + 1, j, jl, j);
  }

  lemma TurnRight(c: Ctx, st: State, jl: int, j: nat)
    requires Scanning(c, st, jl, j + 1) && |st.rs| == 256 && c.ss < 256 && j >= st.rs[c.ss]
    ensures |st.cs| == 256 && Turn(c, st, jl, j + 1, j, jl, j)
  {}

  /** Where the small buckets [t, ss] start and end. */
  method CopyRanges(ftab: array<nat>, ss: nat, ghost c: Ctx) returns (copyStart: array<nat>, copyEnd: array<int>, ghost st: State)
    requires ss == c.ss < 256 && Starts(ftab[..], c.s) && Opened(c)
    ensures fresh(copyStart) && fresh(copyEnd) && copyStart.Length == copyEnd.Length == 256
    ensures Fresh(c, st) && Held(c.p0, copyStart[..], copyEnd[..], st)
  {
    hide Clear, Start, Starts;
    copyStart, copyEnd := new nat[256], new int[256];
    for j := 0 to 256
      invariant forall t: nat :: t < j ==> copyStart[t] == Low(c, t) && copyEnd[t] == High(c, t) - 1
    {
      StartsAt(ftab[..], c.s, j * 256 + ss);
      StartsAt(ftab[..], c.s, j * 256 + ss + 1);
      copyStart[j] := Clear(ftab[j * 256 + ss]);
      copyEnd[j] := Clear(ftab[j * 256 + ss + 1]) - 1;
    }
    st := State(c.p0, copyStart[..], seq(256, t requires 0 <= t < 256 => High(c, t)), seq(|c.s|, _ => 0));
  }

  /** For a block of one byte neither scan does anything. */
  ghost predicate Idle(c: Ctx, st: State) {
    OneByte(c) ==> |st.cs| == |st.rs| == 256 && c.ss < 256 && st.p == c.p0 && st.cs[c.ss] == First(c) && st.rs[c.ss] == Past(c)
  }

  lemma StartsIdle(c: Ctx, st: State)
    requires Opened(c) && Fresh(c, st)
    ensures Idle(c, st)
  {
    hide Start, Opened;
    if OneByte(c) { OneByteScan(c); }
    assert Opened(c);
    OpenedSize(c);
  }

  lemma OpenedSize(c: Ctx)
    requires Opened(c)
    ensures c.ss < 256
  {}

  method ScanLefts(ptr: array<nat>, block: array<Byte>, bigDone: array<bool>, copyStart: array<nat>, copyEnd: array<int>,
                   nblock: nat, ss: nat, from: nat, ghost c: Ctx, ghost st0: State) returns (ghost j: nat, ghost st: State)
    requires ptr != copyStart && copyStart.Length == copyEnd.Length == bigDone.Length == 256 && ss == c.ss < 256
    requires Wrapped(block[..], c.s) && nblock == |c.s| == ptr.Length && bigDone[..] == c.done
    requires Scanning(c, st0, from, Past(c)) && Held(ptr[..], copyStart[..], copyEnd[..], st0) && from == First(c) && Idle(c, st0)
    modifies ptr, copyStart
    ensures Held(ptr[..], copyStart[..], copyEnd[..], st) && Idle(c, st)
    ensures j == copyStart[c.ss] && Scanning(c, st, j, Past(c))
  {
    hide Wrapped, Scanning, OneByte, Start, First, Past;
    st := st0;
    var i := from;
    while i < copyStart[ss]
      invariant Scanning(c, st, i, Past(c)) && Held(ptr[..], copyStart[..], copyEnd[..], st) && First(c) <= i
      invariant Idle(c, st)
      decreases nblock - i
    {
      ScanSizes(c, st, i, Past(c), c.ss);
      st := ScanLeft(ptr, block, bigDone, copyStart, copyEnd, nblock, i, c, st, Past(c));
      i := i + 1;
    }
    ScanRange(c, st, i, Past(c));
    j := i;
  }

  method ScanRights(ptr: array<nat>, block: array<Byte>, bigDone: array<bool>, copyStart: array<nat>, copyEnd: array<int>,
                    nblock: nat, ss: nat, from: int, ghost c: Ctx, ghost st0: State, ghost j: nat) returns (ghost st: State)
    requires ptr != copyStart && copyStart.Length == copyEnd.Length == bigDone.Length == 256 && ss == c.ss < 256
    requires Wrapped(block[..], c.s) && nblock == |c.s| == ptr.Length && bigDone[..] == c.done
    requires Held(ptr[..], copyStart[..], copyEnd[..], st0) && from + 1 == Past(c) && Idle(c, st0)
    requires j == copyStart[c.ss] && Scanning(c, st0, j, from + 1)
    modifies ptr, copyEnd
    ensures Held(ptr[..], copyStart[..], copyEnd[..], st) && Idle(c, st) && ScanOver(c, st)
  {
    hide Wrapped, Scanning, OneByte, Start, First, Past;
    st := st0;
    var i := from;
    while i > copyEnd[ss]
      invariant Scanning(c, st, j, i + 1) && Held(ptr[..], copyStart[..], copyEnd[..], st) && i + 1 <= Past(c) && j == st.cs[c.ss]
      invariant Idle(c, st)
      decreases i + 1
    {
      ScanSizes(c, st, j, i + 1, c.ss);
      assert st.rs[c.ss] == copyEnd[c.ss] + 1;
      st := ScanRight(ptr, block, bigDone, copyStart, copyEnd, nblock, i, c, st, j);
      i := i - 1;
    }
    ScanRange(c, st, j, i + 1);
    assert st.rs[c.ss] == copyEnd[c.ss] + 1;
  }

  /** Step 2: scans the big bucket ss from both ends.  Afterwards the scans have met, or there was nothing to scan, so
      assertion 1007 cannot fail. */
  method ScanBig(ptr: array<nat>, block: array<Byte>, ftab: array<nat>, bigDone: array<bool>, nblock: nat, ss: nat, ghost s: seq<Byte>)
    requires ptr != ftab && Wrapped(block[..], s) && nblock == |s| == ptr.Length && bigDone.Length == 256 && ss < 256
    requires Starts(ftab[..], s) && Opened(Ctx(s, ptr[..], ss, bigDone[..]))
    modifies ptr
    ensures Synthesised(Ctx(s, old(ptr[..]), ss, bigDone[..]), ptr[..])
  {
    hide Opened, Wrapped, Clear, Scanning, OneByte, Synthesised, Start, Fresh, Starts, Shape, InPlace;
    ghost var c := Ctx(s, ptr[..], ss, bigDone[..]);
    ghost var st, j;
    var copyStart, copyEnd;
    copyStart, copyEnd, st := CopyRanges(ftab, ss, c);
    ScanStart(c, st);
    StartsIdle(c, st);
    StartsAt(ftab[..], s, ss * 256);
    j, st := ScanLefts(ptr, block, bigDone, copyStart, copyEnd, nblock, ss, Clear(ftab[ss * 256]), c, st);
    StartsAt(ftab[..], s, (ss + 1) * 256);
    st := ScanRights(ptr, block, bigDone, copyStart, copyEnd, nblock, ss, (Clear(ftab[(ss + 1) * 256]) as int) - 1, c, st, j);
    assert st.rs[ss] == copyEnd[ss] + 1;
    if OneByte(c) {
      OneByteResult(c);
      OneByteScan(c);
      OneByteRange(c);
      assert copyStart[ss] == 0 && copyEnd[ss] == nblock - 1;
    } else {
      ScanResult(c, st);
      NotDone(c);
      ScansMeet(c, st, ss);
      assert copyStart[ss] == copyEnd[ss] + 1;
    }
  }

  lemma NotDone(c: Ctx)
    requires Opened(c)
    ensures c.ss < 256 && |c.done| == 256 && !c.done[c.ss]
  {}

  /** The big bucket of a block of one byte is everything. */
  lemma OneByteRange(c: Ctx)
    requires Opened(c) && OneByte(c)
    ensures First(c) == 0 && Past(c) == |c.s|
  {
    hide Start, Ranks, Key;
    OneByteAt(c, 0);
    OneByteAt(c, |c.s| - 1);
    BigKeyBounds(c);
  }

  lemma OneByteAt(c: Ctx, x: nat)
    requires Opened(c) && OneByte(c) && x < |c.s|
    ensures First(c) <= x < Past(c)
  {
    hide Start, Ranks, Key;
    KeyParts(c.s, c.p0[x]);
    SmallInBig(c, Key(c.s, c.p0[x]), x);
  }

  lemma BigKeyBounds(c: Ctx)
    requires c.ss < 256
    ensures Past(c) <= |c.s|
  {}

  lemma StartsAt(ftab: seq<nat>, s: seq<Byte>, k: nat)
    requires Starts(ftab, s) && k <= 65536
    ensures |ftab| == 65537 && Clear(ftab[k]) == Start(s, k)
  {}

  lemma ScanRange(c: Ctx, st: State, jl: int, jr: int)
    requires Scanning(c, st, jl, jr)
    ensures |st.cs| == |st.rs| == 256 && c.ss < 256 && First(c) <= jl <= st.cs[c.ss] && st.rs[c.ss] <= jr <= Past(c)
  {}

  /** Marks the small buckets [j, ss]. */
  method MarkInto(ftab: array<nat>, ss: nat)
    requires ftab.Length == 65537 && ss < 256
    modifies ftab
    ensures MarkedInto(old(ftab[..]), ftab[..], ss, 256)
  {
    hide Marked, MarkedInto;
    MarkedNone(ftab[..], ss);
    for j := 0 to 256
      invariant MarkedInto(old(ftab[..]), ftab[..], ss, j)
    {
      ghost var f := ftab[..];
      ftab[j * 256 + ss] := Marked(ftab[j * 256 + ss]);
      assert ftab[..] == f[j * 256 + ss := Marked(f[j * 256 + ss])];
      MarkedOne(old(ftab[..]), f, ftab[..], ss, j);
    }
  }

  predicate MarkedInto(f: seq<nat>, f': seq<nat>, ss: nat, j: nat) {
    |f| == |f'| == 65537 && forall k: nat :: k <= 65536 ==> f'[k] == if k % 256 == ss && k / 256 < j then Marked(f[k]) else f[k]
  }

  lemma MarkedNone(f: seq<nat>, ss: nat)
    requires |f| == 65537
    ensures MarkedInto(f, f, ss, 0)
  {}

  lemma MarkedOne(f0: seq<nat>, f: seq<nat>, f': seq<nat>, ss: nat, j: nat)
    requires MarkedInto(f0, f, ss, j) && ss < 256 && j < 256 && f' == f[j * 256 + ss := Marked(f[j * 256 + ss])]
    ensures MarkedInto(f0, f', ss, j + 1)
  {
    hide Marked;
  }

  lemma SameSorted(c: Ctx, p: seq<nat>, k: nat)
    requires InBuckets(p, c.s) && SameBucket(c, p, k) && BucketSorted(c.p0, c.s, k)
    ensures BucketSorted(p, c.s, k)
  {
    hide Start, Ranks, Key;
    forall x, y | Start(c.s, k) <= x < y <= Start(c.s, k + 1) - 1 && y < |p| ensures Ranks(c.s)[p[x]] <= Ranks(c.s)[p[y]] {
      assert Within(c.s, k, x) && Within(c.s, k, y);
    }
  }

  /** After steps 1 and 2 the big bucket ss is done. */
  lemma BigDone(c: Ctx, p: seq<nat>, f: seq<nat>, f': seq<nat>)
    requires Opened(c) && Tracking(c.p0, f, c.s) && Marking(f, c.done, c.ss, 256) && Synthesised(c, p)
    requires MarkedInto(f, f', c.ss, 256)
    ensures Tracking(p, f', c.s) && Flagged(f', c.done[c.ss := true])
  {
    hide IsSet, Clear, Marked, Start, BucketSorted, InBuckets, SmallSorted;
    var done' := c.done[c.ss := true];
    forall k: nat | k <= 65536 ensures Clear(f'[k]) == Start(c.s, k) { MarkedIs(f[k]); }
    forall k: nat | k < 65536 ensures IsSet(f'[k]) <==> Finished(done', k) {
      MarkedIs(f[k]);
      assert MarkAt(f, c.done, c.ss, 256, k);
    }
    forall k: nat | k < 65536 ensures Tracked(p, f', c.s, k) {
      if IsSet(f'[k]) { NowSorted(c, p, f, k); }
    }
  }

  lemma NowSorted(c: Ctx, p: seq<nat>, f: seq<nat>, k: nat)
    requires Opened(c) && Tracking(c.p0, f, c.s) && Marking(f, c.done, c.ss, 256) && Synthesised(c, p)
    requires k < 65536 && Finished(c.done[c.ss := true], k)
    ensures BucketSorted(p, c.s, k)
  {
    hide IsSet, Clear, Marked, Start, BucketSorted, InBuckets;
    if k % 256 == c.ss && !c.done[k / 256] {
      assert SortedFor(c, p, k / 256);
      assert k == k / 256 * 256 + c.ss;
    } else {
      assert Tracked(c.p0, f, c.s, k) && MarkAt(f, c.done, c.ss, 256, k);
      assert SameBucket(c, p, k);
      SameSorted(c, p, k);
    }
  }

  // ----- order of the whole -----

  /** Pointers are in order across buckets, and within a sorted one. */
  lemma PositionsOrdered(p: seq<nat>, s: seq<Byte>, x: nat, y: nat)
    requires InBuckets(p, s) && x < y < |p|
    requires p[x] < |s| && p[y] < |s| && (Key(s, p[x]) == Key(s, p[y]) ==> BucketSorted(p, s, Key(s, p[x])))
    ensures Ranks(s)[p[x]] <= Ranks(s)[p[y]]
  {
    hide Start, Key, Ranks;
    var a, b := Key(s, p[x]), Key(s, p[y]);
    assert Within(s, a, x) && Within(s, b, y);
    if a < b { KeyLess(s, p[x], p[y]); }
    if b < a { StartMono(s, b + 1, a); }
  }

  lemma AllSorted(p: seq<nat>, f: seq<nat>, s: seq<Byte>, done: seq<bool>)
    requires Tracking(p, f, s) && Flagged(f, done) && forall b :: 0 <= b < 256 ==> done[b]
    ensures RotationSorted(s, p)
  {
    hide Start, Key, Ranks, IsSet, Clear;
    forall x, y | 0 <= x < y < |p| ensures Le(s, p[x], p[y], |s|) {
      var k := Key(s, p[x]);
      assert Tracked(p, f, s, k) && Finished(done, k);
      PositionsOrdered(p, s, x, y);
      RankOrder(s, p[x], p[y]);
    }
  }

  // ----- step 3 -----

  /** The rotations at a stretch of the big bucket ss have its byte first. */
  lemma BigByte(p: seq<nat>, s: seq<Byte>, ss: nat, y: nat)
    requires InBuckets(p, s) && ss < 256 && Start(s, ss * 256) <= y < Start(s, ss * 256 + 256)
    ensures y < |p| && p[y] < |s| && s[p[y]] == ss
  {
    hide Start, Key;
    StartInside(s, ss);
    var k := Key(s, p[y]);
    KeyParts(s, p[y]);
    if k < ss * 256 { StartMono(s, k + 1, ss * 256); }
    if k >= ss * 256 + 256 { StartMono(s, ss * 256 + 256, k); }
  }

  lemma StartInside(s: seq<Byte>, ss: nat)
    ensures Start(s, ss * 256 + 256) <= |s|
  {}

  /** And they are all there. */
  lemma BigWhere(p: seq<nat>, s: seq<Byte>, i: nat) returns (y: nat)
    requires InBuckets(p, s) && i < |s|
    ensures y < |p| && p[y] == i && Start(s, s[i] as nat * 256) <= y < Start(s, s[i] as nat * 256 + 256)
  {
    hide Start, Key;
    y := Whereabouts(p, s, i);
    KeyParts(s, i);
    StartMono(s, s[i] as nat * 256, Key(s, i));
    StartMono(s, Key(s, i) + 1, s[i] as nat * 256 + 256);
  }

  lemma ShrNext(v: nat, k: nat)
    ensures Shr(v, k + 1) == Shr(v, k) / 2 && Shr(v, 0) == v
  {
    if k > 0 { ShrNext(v / 2, k - 1); }
  }

  /** The quadrants of the big bucket from position y on have been set. */
  ghost predicate Set(q: seq<nat>, q0: seq<nat>, p: seq<nat>, s: seq<Byte>, ss: nat, bb: nat, y0: int, be: nat, shifts: nat) {
    && |q| == |q0| >= |s| && |p| == |s|
    && (forall i :: 0 <= i < |s| && s[i] != ss ==> q[i] == q0[i])
    && forall y: nat :: y0 <= y < be ==> SetAt(q, p, bb, y, shifts)
  }

  predicate SetAt(q: seq<nat>, p: seq<nat>, bb: nat, y: nat, shifts: nat) {
    bb <= y < |p| && p[y] < |q| && q[p[y]] == Shr(y - bb, shifts)
  }

  lemma SetCached(q: seq<nat>, q0: seq<nat>, p: seq<nat>, s: seq<Byte>, ss: nat, shifts: nat)
    requires InBuckets(p, s) && ss < 256 && Cached(q0, s)
    requires Set(q, q0, p, s, ss, Start(s, ss * 256), Start(s, ss * 256), Start(s, ss * 256 + 256), shifts)
    requires forall j: nat :: j < 256 ==> RowSorted(p, s, ss, j)
    ensures Cached(q, s)
  {
    hide Start, Key, Ranks, Le, Shr;
    var bb := Start(s, ss * 256);
    forall i: nat, j: nat | i < |s| && j < |s| && s[i] == s[j] && q[i] < q[j] ensures Le(s, i, j, |s|) {
      if s[i] == ss {
        var x := BigWhere(p, s, i);
        var y := BigWhere(p, s, j);
        assert SetAt(q, p, bb, x, shifts) && SetAt(q, p, bb, y, shifts);
        if x >= y { C.ShrMono(y - bb, x - bb, shifts); }
        KeyParts(s, p[x]);
        assert RowSorted(p, s, ss, Key(s, p[x]) % 256);
        PositionsOrdered(p, s, x, y);
        RankOrder(s, i, j);
      }
    }
  }

  ghost predicate RowSorted(p: seq<nat>, s: seq<Byte>, ss: nat, j: nat) {
    BucketSorted(p, s, ss * 256 + j)
  }

  lemma SetStep(q: seq<nat>, q0: seq<nat>, q1: seq<nat>, p: seq<nat>, s: seq<Byte>, ss: nat, bb: nat, y: nat, be: nat, shifts: nat)
    requires InBuckets(p, s) && ss < 256 && bb == Start(s, ss * 256) <= y < be == Start(s, ss * 256 + 256)
    requires Set(q, q0, p, s, ss, bb, y + 1, be, shifts) && |q1| == |q| && p[y] < |s|
    requires forall i :: 0 <= i < |s| ==> q1[i] == if i == p[y] then Shr(y - bb, shifts) else q[i]
    ensures Set(q1, q0, p, s, ss, bb, y, be, shifts)
  {
    hide Start, Key, Shr;
    BigByte(p, s, ss, y);
    forall z: nat | y <= z < be ensures SetAt(q1, p, bb, z, shifts) {
      BigByte(p, s, ss, z);
      if z > y { assert SetAt(q, p, bb, z, shifts); }
    }
  }

  /** The shift that makes the quadrants fit in 16 bits. */
  method Shifts(bbSize: nat) returns (shifts: nat)
    ensures Shr(bbSize, shifts) <= 65534
  {
    shifts := 0;
    ShrNext(bbSize, 0);
    while Shr(bbSize, shifts) > 65534
      decreases Shr(bbSize, shifts)
    {
      ShrNext(bbSize, shifts);
      shifts := shifts + 1;
    }
  }

  /** Step 3: the order of the big bucket ss becomes the order of its quadrants. */
  method UpdateQuadrants(ptr: array<nat>, quadrant: array<nat>, nblock: nat, bbStart: nat, bbSize: nat, ss: nat, ghost s: seq<Byte>)
    requires ptr != quadrant && nblock == |s| == ptr.Length && ss < 256 && InBuckets(ptr[..], s)
    requires bbStart == Start(s, ss * 256) && bbStart + bbSize == Start(s, ss * 256 + 256)
    requires forall j: nat :: j < 256 ==> RowSorted(ptr[..], s, ss, j)
    requires QuadrantsWrapped(quadrant[..], nblock) && Cached(quadrant[..], s)
    modifies quadrant
    ensures QuadrantsWrapped(quadrant[..], nblock) && Cached(quadrant[..], s)
    ensures forall i :: 0 <= i < quadrant.Length ==> quadrant[i] <= 65535 || quadrant[i] == old(quadrant[i])
  {
    hide Start, Key, Shr, Cached, InBuckets, RowSorted;
    StartInside(s, ss);
    ghost var q0, p, be := quadrant[..], ptr[..], bbStart + bbSize;
    var shifts := Shifts(bbSize);
    var j := bbSize;
    while j > 0
      invariant 0 <= j <= bbSize && QuadrantsWrapped(quadrant[..], nblock)
      invariant forall i :: 0 <= i < quadrant.Length ==> quadrant[i] <= 65535 || quadrant[i] == old(quadrant[i])
      invariant Set(quadrant[..], q0, p, s, ss, bbStart, bbStart + j, be, shifts)
    {
      j := j - 1;
      BigByte(p, s, ss, bbStart + j);
      ghost var q := quadrant[..];
      var a2update := ptr[bbStart + j];
      var qVal := Shr(j, shifts);
      C.ShrMono(j, bbSize, shifts);
      quadrant[a2update] := qVal;
      if a2update < N_OVERSHOOT { quadrant[a2update + nblock] := qVal; }
      SetStep(q, q0, quadrant[..], p, s, ss, bbStart, bbStart + j, be, shifts);
    }
    SetCached(quadrant[..], q0, p, s, ss, shifts);
  }

  lemma RowsSorted(p: seq<nat>, f: seq<nat>, s: seq<Byte>, done: seq<bool>, ss: nat)
    requires Tracking(p, f, s) && Flagged(f, done) && ss < 256 && done[ss]
    ensures forall j: nat :: j < 256 ==> RowSorted(p, s, ss, j)
  {
    hide IsSet, Clear, BucketSorted, InBuckets;
    forall j: nat | j < 256 ensures RowSorted(p, s, ss, j) {
      assert Tracked(p, f, s, ss * 256 + j) && Finished(done, ss * 256 + j);
    }
  }

  /** One turn of the main loop: complete, scan and record the big bucket ss. */
  method SortAndScan(ptr: array<nat>, block: array<Byte>, quadrant: array<nat>, ftab: array<nat>, bigDone: array<bool>,
                     nblock: nat, ss: nat, last: bool, budget: int, ghost s: seq<Byte>) returns (budget': int)
    requires ptr != quadrant && ptr != ftab && quadrant != ftab && Q.Ready(block[..], quadrant[..], s)
    requires 0 < nblock == |s| == ptr.Length <= Q.MAX_BLOCK && ftab.Length == 65537 && ss < 256 && bigDone.Length == 256
    requires Tracking(ptr[..], ftab[..], s) && Flagged(ftab[..], bigDone[..]) && !bigDone[ss]
    modifies ptr, ftab, quadrant, bigDone
    ensures budget' <= budget && bigDone[..] == (if budget' < 0 then old(bigDone[..]) else old(bigDone[..])[ss := true])
    ensures budget' >= 0 ==> Tracking(ptr[..], ftab[..], s) && Flagged(ftab[..], bigDone[..]) && Q.Ready(block[..], quadrant[..], s)
  {
    hide Tracking, Flagged, Marking, Opened, Synthesised, MarkedInto, Starts, Wrapped, QuadrantsWrapped, Cached, Clear, Start;
    ghost var done := bigDone[..];
    budget' := SortBig(ptr, block, quadrant, ftab, nblock, ss, budget, s, done);
    if budget' < 0 { return; }
    ghost var c, f := Ctx(s, ptr[..], ss, done), ftab[..];
    TrackedStarts(ptr[..], f, s);
    ScanBig(ptr, block, ftab, bigDone, nblock, ss, s);
    MarkInto(ftab, ss);
    BigDone(c, ptr[..], f, ftab[..]);
    bigDone[ss] := true;
    assert bigDone[..] == done[ss := true];
    if !last {
      TrackedStarts(ptr[..], ftab[..], s);
      StartsAt(ftab[..], s, ss * 256);
      StartsAt(ftab[..], s, (ss + 1) * 256);
      StartMono(s, ss * 256, (ss + 1) * 256);
      RowsSorted(ptr[..], ftab[..], s, bigDone[..], ss);
      var bbStart := Clear(ftab[ss * 256]);
      var bbSize := Clear(ftab[(ss + 1) * 256]) - bbStart;
      assert (ss + 1) * 256 == ss * 256 + 256;
      UpdateQuadrants(ptr, quadrant, nblock, bbStart, bbSize, ss, s);
    }
  }

  lemma TrackedStarts(p: seq<nat>, f: seq<nat>, s: seq<Byte>)
    requires Tracking(p, f, s)
    ensures Starts(f, s) && InBuckets(p, s)
  {}

  /** Unless the budget runs out, the pointers are left in the order of their rotations. */
  method MainSort(ptr: array<nat>, block: array<Byte>, quadrant: array<nat>, ftab: array<nat>, nblock: nat, budget: int, ghost s: seq<Byte>)
    returns (budget': int)
    requires ptr != quadrant && ptr != ftab && quadrant != ftab && ftab.Length == 65537
    requires N_OVERSHOOT < nblock == |s| == ptr.Length <= Q.MAX_BLOCK && nblock <= block.Length && block[..nblock] == s
    requires nblock + N_OVERSHOOT <= block.Length && nblock + N_OVERSHOOT <= quadrant.Length
    modifies ptr, block, quadrant, ftab
    ensures budget' <= budget && block[..nblock] == s
    ensures budget' >= 0 ==> RotationSorted(s, ptr[..])
  {
    hide Wrapped, QuadrantsWrapped, Cached, InBuckets, Remaining, RotationSorted, Start, C.Count, Ascending, BigFreqs, Key;
    hide Tracking, Flagged, Permutes;
    CountKeys(block, quadrant, ftab, nblock, s);
    Overshoot(block, quadrant, nblock, s);
    SumCounts(ftab, s);
    PlaceAll(ptr, block, ftab, nblock, s);
    var runningOrder := RunningOrder(ftab);
    var bigDone := new bool[256](_ => false);
    ghost var order := runningOrder[..];
    TrackingStart(ptr[..], ftab[..], s, bigDone[..]);
    budget' := budget;
    for i := 0 to 256
      modifies ptr, ftab, quadrant, bigDone
      invariant Tracking(ptr[..], ftab[..], s) && Flagged(ftab[..], bigDone[..]) && Q.Ready(block[..], quadrant[..], s)
      invariant runningOrder[..] == order && budget' <= budget
      invariant DoneUpTo(bigDone[..], order, i)
    {
      OrderNext(bigDone[..], order, i);
      ghost var done := bigDone[..];
      budget' := SortAndScan(ptr, block, quadrant, ftab, bigDone, nblock, runningOrder[i], i == 255, budget', s);
      if budget' < 0 { return; }
      DoneNext(done, bigDone[..], order, i);
    }
    OrderDone(bigDone[..], order);
    AllSorted(ptr[..], ftab[..], s, bigDone[..]);
  }

  /** The big buckets done are the first i of the running order. */
  ghost predicate DoneUpTo(done: seq<bool>, order: seq<nat>, i: nat) {
    |done| == |order| == 256 && forall b :: 0 <= b < 256 ==> (done[b] <==> Listed(order, i, b))
  }

  predicate Listed(order: seq<nat>, i: nat, b: nat) {
    exists x :: 0 <= x < i && x < |order| && order[x] == b
  }

  lemma OrderNext(done: seq<bool>, order: seq<nat>, i: nat)
    requires DoneUpTo(done, order, i) && i < 256 && Permutes(order, 256)
    ensures order[i] < 256 && !done[order[i]]
  {}

  lemma DoneNext(done: seq<bool>, done': seq<bool>, order: seq<nat>, i: nat)
    requires DoneUpTo(done, order, i) && i < 256 && order[i] < 256 && done' == done[order[i] := true]
    ensures DoneUpTo(done', order, i + 1)
  {
    forall b | 0 <= b < 256 ensures done'[b] <==> Listed(order, i + 1, b) {
      if Listed(order, i, b) {
        var x :| 0 <= x < i && x < |order| && order[x] == b;
        assert 0 <= x < i + 1;
      }
      assert order[i] == b ==> Listed(order, i + 1, b);
    }
  }

  lemma OrderDone(done: seq<bool>, order: seq<nat>)
    requires DoneUpTo(done, order, 256) && Permutes(order, 256)
    ensures forall b :: 0 <= b < 256 ==> done[b]
  {
    forall b | 0 <= b < 256 ensures Listed(order, 256, b) { var x := PermutationHits(order, 256, b); }
  }

  lemma TrackingStart(p: seq<nat>, f: seq<nat>, s: seq<Byte>, done: seq<bool>)
    requires InBuckets(p, s) && |f| == 65537 && |s| <= Q.MAX_BLOCK && forall k :: 0 <= k <= 65536 ==> f[k] == Start(s, k)
    requires |done| == 256 && forall b :: 0 <= b < 256 ==> !done[b]
    ensures Tracking(p, f, s) && Flagged(f, done)
  {
    hide Start, InBuckets;
    forall k: nat | k <= 65536 ensures !IsSet(f[k]) && Clear(f[k]) == Start(s, k) { StartSmall(s, k); }
  }

  lemma StartSmall(s: seq<Byte>, k: nat)
    requires |s| <= Q.MAX_BLOCK
    ensures Start(s, k) < SETMASK
  {}
}
