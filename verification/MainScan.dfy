/** Step 2 of the main sort: one scan of a sorted big bucket from each end sorts the small buckets [t, ss] without
    comparing, [ss, ss] among them while it is being scanned. */
module MainScan {
  import opened Rotations
  import opened Rearrange
  import opened MainCompare
  import opened MainBuckets

  /** What does not change: the block, the pointers before the scan, the big bucket, the big buckets done before. */
  datatype Ctx = Ctx(s: seq<Byte>, p0: seq<nat>, ss: nat, done: seq<bool>)

  /** The pointers, the positions filled so far from the left and from the right, and for each filled position the
      scanned position it was filled from. */
  datatype State = State(p: seq<nat>, cs: seq<nat>, rs: seq<nat>, src: seq<nat>)

  ghost predicate BucketSorted(p: seq<nat>, s: seq<Byte>, k: nat) {
    |p| == |s| && Keyed(p, Ranks(s)) && Ascending(p, Ranks(s), Start(s, k), Start(s, k + 1) - 1)
  }

  /** Step 1 is complete. */
  ghost predicate Opened(c: Ctx) {
    && 0 < |c.s| && c.ss < 256 && |c.done| == 256 && !c.done[c.ss] && InBuckets(c.p0, c.s)
    && forall j: nat :: j < 256 && j != c.ss ==> SmallSorted(c, j)
  }

  ghost predicate SmallSorted(c: Ctx, j: nat) {
    BucketSorted(c.p0, c.s, c.ss * 256 + j)
  }

  function Low(c: Ctx, t: nat): nat { Start(c.s, t * 256 + c.ss) }

  function High(c: Ctx, t: nat): nat { Start(c.s, t * 256 + c.ss + 1) }

  function First(c: Ctx): nat { Start(c.s, c.ss * 256) }

  function Past(c: Ctx): nat { Start(c.s, c.ss * 256 + 256) }

  ghost predicate Shape(c: Ctx, st: State) {
    && |st.p| == |st.src| == |c.s| == |c.p0| && |st.cs| == |st.rs| == |c.done| == 256 && c.ss < 256
    && forall t: nat :: t < 256 ==> Bounds(c, st, t)
  }

  predicate Bounds(c: Ctx, st: State, t: nat)
    requires |st.cs| == |st.rs| == |c.done| == 256 && t < 256
  {
    && Low(c, t) <= st.cs[t] <= st.rs[t] <= High(c, t)
    && (c.done[t] ==> st.cs[t] == Low(c, t) && st.rs[t] == High(c, t))
  }

  /** Position x of the small bucket [t, ss] has been filled. */
  predicate InPlace(c: Ctx, st: State, t: nat, x: int)
    requires |st.cs| == |st.rs| == 256 && t < 256
  {
    Low(c, t) <= x < st.cs[t] || st.rs[t] <= x < High(c, t)
  }

  /** Position y of the big bucket ss holds its final pointer. */
  predicate InFront(c: Ctx, st: State, y: int)
    requires |st.cs| == |st.rs| == 256 && c.ss < 256
  {
    First(c) <= y < st.cs[c.ss] || st.rs[c.ss] <= y < Past(c)
  }

  /** Position x has been filled from a scanned one, with the rotation before the one listed there. */
  predicate FilledAt(c: Ctx, st: State, t: nat, x: int, jl: int, jr: int)
    requires |st.cs| == |st.rs| == 256 && t < 256
  {
    && 0 <= x < |st.src| && st.src[x] < |st.p| == |c.s| && x < |st.p| && st.p[x] < |c.s| && st.p[st.src[x]] < |c.s|
    && st.p[x] == Prev(|c.s|, st.p[st.src[x]]) && c.s[st.p[x]] == t
    && (if x < st.cs[t] then First(c) <= st.src[x] < jl else jr <= st.src[x] < Past(c))
  }

  ghost predicate Filled(c: Ctx, st: State, jl: int, jr: int)
    requires Shape(c, st)
  {
    && (forall t: nat, x: nat :: t < 256 && !c.done[t] && InPlace(c, st, t, x) ==> FilledAt(c, st, t, x, jl, jr))
    && (forall t: nat, x: nat, y: nat ::
          t < 256 && !c.done[t] && InPlace(c, st, t, x) && InPlace(c, st, t, y) && x < y ==> SrcBelow(st, x, y))
  }

  predicate SrcBelow(st: State, x: nat, y: nat) {
    x < |st.src| && y < |st.src| && st.src[x] < st.src[y]
  }

  /** The final pointers of the big bucket are in order. */
  ghost predicate Fronts(c: Ctx, st: State)
    requires Shape(c, st)
  {
    && (forall y: nat :: InFront(c, st, y) ==> FrontAt(c, st, y))
    && (forall y: nat, z: nat :: InFront(c, st, y) && InFront(c, st, z) && y < z ==> FrontOrder(c, st, y, z))
  }

  predicate FrontAt(c: Ctx, st: State, y: nat) {
    y < |st.p| && st.p[y] < |c.s| && c.s[st.p[y]] == c.ss
  }

  ghost predicate FrontOrder(c: Ctx, st: State, y: nat, z: nat) {
    && y < |st.p| && z < |st.p| && st.p[y] < |c.s| && st.p[z] < |c.s|
    && st.p[y] != st.p[z] && Ranks(c.s)[st.p[y]] <= Ranks(c.s)[st.p[z]]
  }

  /** Position x still has its old pointer. */
  predicate Unwritten(c: Ctx, st: State, x: nat)
    requires |st.cs| == |st.rs| == |c.done| == 256 && x < |c.p0| && c.p0[x] < |c.s|
  {
    var k := Key(c.s, c.p0[x]);
    k % 256 != c.ss || c.done[k / 256] || st.cs[k / 256] <= x < st.rs[k / 256]
  }

  ghost predicate Kept(c: Ctx, st: State)
    requires Shape(c, st) && InBuckets(c.p0, c.s)
  {
    forall x: nat :: x < |c.p0| && Unwritten(c, st, x) ==> st.p[x] == c.p0[x]
  }

  /** The rotation before the one at a scanned position has found its place. */
  ghost predicate Found(c: Ctx, st: State, y: nat)
    requires Shape(c, st)
  {
    y < |st.p| && st.p[y] < |c.s| &&
    var r := Prev(|c.s|, st.p[y]);
    c.done[c.s[r]] || exists x: nat :: InPlace(c, st, c.s[r], x) && x < |st.p| && st.p[x] == r
  }

  ghost predicate Reached(c: Ctx, st: State, jl: int, jr: int)
    requires Shape(c, st)
  {
    forall y: nat :: First(c) <= y < jl || jr <= y < Past(c) ==> Found(c, st, y)
  }

  /** The scans have dealt with the positions before jl and from jr on. */
  ghost predicate Scanning(c: Ctx, st: State, jl: int, jr: int) {
    && Opened(c) && Shape(c, st) && First(c) <= jl <= st.cs[c.ss] && st.rs[c.ss] <= jr <= Past(c)
    && Filled(c, st, jl, jr) && Fronts(c, st) && Kept(c, st) && Reached(c, st, jl, jr)
  }

  // ----- order -----

  /** A smaller key comes first. */
  lemma KeyLess(s: seq<Byte>, a: nat, b: nat)
    requires a < |s| && b < |s| && Key(s, a) < Key(s, b)
    ensures Ranks(s)[a] <= Ranks(s)[b]
  {
    RankOrder(s, a, b);
    if s[a] == s[b] {
      var n := |s|;
      assert Le(s, Next(n, a), Next(n, b), n - 1);
    }
  }

  /** Stepping back from ordered rotations to the same byte keeps the order. */
  lemma PrevOrder(s: seq<Byte>, a: nat, b: nat)
    requires a < |s| && b < |s| && Ranks(s)[a] <= Ranks(s)[b] && s[Prev(|s|, a)] == s[Prev(|s|, b)]
    ensures Ranks(s)[Prev(|s|, a)] <= Ranks(s)[Prev(|s|, b)]
  {
    var n, x, y := |s|, Prev(|s|, a), Prev(|s|, b);
    RankOrder(s, a, b);
    RankOrder(s, x, y);
    assert n - 1 + 1 == n;
    LeSplit(s, a, b, n - 1, 1);
    assert Le(s, Next(n, x), Next(n, y), n - 1);
  }

  lemma PrevKey(s: seq<Byte>, q: nat)
    requires q < |s|
    ensures Key(s, Prev(|s|, q)) == (s[Prev(|s|, q)] as int) * 256 + s[q]
  {}

  lemma KeyParts(s: seq<Byte>, i: nat)
    requires i < |s|
    ensures Key(s, i) / 256 == s[i] && Key(s, i) % 256 == s[Next(|s|, i)]
  {}

  // ----- positions of buckets -----

  /** A position of the big bucket ss is outside the small buckets [t, ss] of other big buckets. */
  lemma BigApart(c: Ctx, t: nat, x: int)
    requires c.ss < 256 && t < 256 && Low(c, t) <= x < High(c, t) && t != c.ss
    ensures !(First(c) <= x < Past(c))
  {
    hide Start;
    if t < c.ss {
      StartMono(c.s, t * 256 + c.ss + 1, c.ss * 256);
    } else {
      StartMono(c.s, c.ss * 256 + 256, t * 256 + c.ss);
    }
  }

  lemma BigHolds(c: Ctx)
    requires c.ss < 256
    ensures First(c) <= Low(c, c.ss) <= High(c, c.ss) <= Past(c)
  {
    hide Start;
    StartMono(c.s, c.ss * 256, c.ss * 256 + c.ss);
    StartMono(c.s, c.ss * 256 + c.ss, c.ss * 256 + c.ss + 1);
    StartMono(c.s, c.ss * 256 + c.ss + 1, c.ss * 256 + 256);
  }

  /** What the big bucket holds before the scan. */
  lemma BigKey(c: Ctx, y: nat)
    requires Opened(c) && First(c) <= y < Past(c)
    ensures y < |c.p0| && c.p0[y] < |c.s| && c.s[c.p0[y]] == c.ss
    ensures var k := Key(c.s, c.p0[y]);
            && k / 256 == c.ss && (y < Low(c, c.ss) <==> k % 256 < c.ss) && (y >= High(c, c.ss) <==> k % 256 > c.ss)
  {
    hide Start, Key, Ranks;
    PastBound(c);
    var k := Key(c.s, c.p0[y]);
    KeyParts(c.s, c.p0[y]);
    if k < c.ss * 256 { StartMono(c.s, k + 1, c.ss * 256); }
    if k >= c.ss * 256 + 256 { StartMono(c.s, c.ss * 256 + 256, k); }
    if k < c.ss * 256 + c.ss { StartMono(c.s, k + 1, c.ss * 256 + c.ss); } else { StartMono(c.s, c.ss * 256 + c.ss, k); }
    if k > c.ss * 256 + c.ss { StartMono(c.s, c.ss * 256 + c.ss + 1, k); } else { StartMono(c.s, k + 1, c.ss * 256 + c.ss + 1); }
  }

  lemma PastBound(c: Ctx)
    requires c.ss < 256
    ensures Past(c) <= |c.s|
  {}

  lemma HighBound(c: Ctx, t: nat)
    ensures High(c, t) <= |c.s|
  {}

  // ----- one step of a scan -----

  /** The rotation before the one at the scanned position j is put at the next free position x of its bucket [t, ss],
      on the left or on the right. */
  predicate Grown(c: Ctx, st: State, st': State, t: nat, x: nat, j: nat)
    requires c.ss < 256
  {
    && |st.cs| == |st.rs| == 256 && t < 256 && x < |st.p| == |st.src| == |c.s| && j < |st.p| && st.p[j] < |c.s|
    && st.cs[t] <= x < st.rs[t]
    && st'.p == st.p[x := Prev(|c.s|, st.p[j])] && st'.src == st.src[x := j]
    && ((x == st.cs[t] && st'.cs == st.cs[t := x + 1] && st'.rs == st.rs) ||
        (x == st.rs[t] - 1 && st'.cs == st.cs && st'.rs == st.rs[t := x]))
  }

  /** The scan at j, between what has been scanned from the left and from the right. */
  predicate Turn(c: Ctx, st: State, jl: int, jr: int, j: nat, jl': int, jr': int)
    requires |st.cs| == |st.rs| == 256 && c.ss < 256
  {
    (j == jl < st.cs[c.ss] && jl' == jl + 1 && jr' == jr) || (j == jr - 1 >= st.rs[c.ss] && jl' == jl && jr' == jr - 1)
  }

  lemma GrownPlaces(c: Ctx, st: State, st': State, t: nat, x: nat, j: nat, u: nat, y: int)
    requires c.ss < 256 && Grown(c, st, st', t, x, j) && u < 256 && Shape(c, st)
    ensures |st'.cs| == |st'.rs| == 256
    ensures InPlace(c, st', u, y) <==> InPlace(c, st, u, y) || (u == t && y == x)
    ensures InFront(c, st', y) <==> InFront(c, st, y) || (c.ss == t && y == x)
    ensures y != x ==> (y < st'.cs[u] <==> y < st.cs[u]) && (y >= st'.rs[u] <==> y >= st.rs[u])
  {
    hide Start;
    assert Bounds(c, st, t) && Bounds(c, st, u) && Bounds(c, st, c.ss);
    BigHolds(c);
  }

  lemma GrownShape(c: Ctx, st: State, st': State, t: nat, x: nat, j: nat)
    requires c.ss < 256 && Grown(c, st, st', t, x, j) && Shape(c, st) && !c.done[t]
    ensures Shape(c, st')
  {
    hide Start;
    forall u: nat | u < 256 ensures Bounds(c, st', u) { assert Bounds(c, st, u) && Bounds(c, st, t); }
  }

  /** The free position is outside everything that is final. */
  lemma FreePosition(c: Ctx, st: State, t: nat, x: nat, y: nat)
    requires Shape(c, st) && t < 256 && st.cs[t] <= x < st.rs[t] && InFront(c, st, y)
    ensures x != y && x < |c.s| && Low(c, t) <= x < High(c, t)
  {
    hide Start;
    assert Bounds(c, st, t);
    HighBound(c, t);
    assert Bounds(c, st, c.ss);
    BigHolds(c);
    if t != c.ss && x == y { BigApart(c, t, x); }
  }

  lemma GrownKept(c: Ctx, st: State, st': State, t: nat, x: nat, j: nat)
    requires Opened(c) && Grown(c, st, st', t, x, j) && Shape(c, st) && Shape(c, st') && !c.done[t] && Kept(c, st)
    ensures Kept(c, st')
  {
    hide Start, Key, Ranks;
    forall y: nat | y < |c.p0| && Unwritten(c, st', y) ensures st'.p[y] == c.p0[y] {
      if y == x {
        assert Bounds(c, st, t);
        BucketKey(c.p0, c.s, t * 256 + c.ss, x);
      } else {
        var k := Key(c.s, c.p0[y]);
        GrownPlaces(c, st, st', t, x, j, k / 256, y);
      }
    }
  }

  /** The rotation now put in place. */
  lemma NewRotation(c: Ctx, st: State, jl: int, jr: int, j: nat, jl': int, jr': int)
    requires Scanning(c, st, jl, jr) && Turn(c, st, jl, jr, j, jl', jr')
    ensures InFront(c, st, j) && j < |c.s| && st.p[j] < |c.s| && c.s[st.p[j]] == c.ss
    ensures var r := Prev(|c.s|, st.p[j]);
            r < |c.s| && Key(c.s, r) == (c.s[r] as int) * 256 + c.ss
  {
    hide Start, Key, Ranks;
    assert Bounds(c, st, c.ss);
    assert InFront(c, st, j);
    assert FrontAt(c, st, j);
    PrevKey(c.s, st.p[j]);
  }

  lemma NewFilled(c: Ctx, st: State, st': State, t: nat, x: nat, j: nat, jl: int, jr: int, jl': int, jr': int)
    requires Shape(c, st) && Turn(c, st, jl, jr, j, jl', jr') && Grown(c, st, st', t, x, j)
    requires c.s[Prev(|c.s|, st.p[j])] == t && InFront(c, st, j) && First(c) <= jl && jr <= Past(c)
    requires if jl' == jl + 1 then x == st.cs[t] && st'.rs == st.rs else x == st.rs[t] - 1 && st'.cs == st.cs
    ensures |st'.cs| == |st'.rs| == 256 && FilledAt(c, st', t, x, jl', jr')
  {
    hide Start;
    FreePosition(c, st, t, x, j);
    assert Bounds(c, st, c.ss);
    BigHolds(c);
  }

  lemma OldFilled(c: Ctx, st: State, st': State, t: nat, x: nat, j: nat, jl: int, jr: int, jl': int, jr': int, u: nat, y: nat)
    requires Shape(c, st) && Turn(c, st, jl, jr, j, jl', jr') && Grown(c, st, st', t, x, j)
    requires jl <= st.cs[c.ss] && st.rs[c.ss] <= jr && u < 256 && y != x && FilledAt(c, st, u, y, jl, jr)
    ensures |st'.cs| == |st'.rs| == 256 && FilledAt(c, st', u, y, jl', jr')
  {
    hide Start;
    FilledFront(c, st, u, y, jl, jr);
    FreePosition(c, st, t, x, st.src[y]);
    GrownPlaces(c, st, st', t, x, j, u, y);
  }

  lemma GrownFilled(c: Ctx, st: State, st': State, t: nat, x: nat, j: nat, jl: int, jr: int, jl': int, jr': int)
    requires Scanning(c, st, jl, jr) && Turn(c, st, jl, jr, j, jl', jr') && Grown(c, st, st', t, x, j)
    requires Shape(c, st') && !c.done[t] && c.s[Prev(|c.s|, st.p[j])] == t
    requires if jl' == jl + 1 then x == st.cs[t] && st'.rs == st.rs else x == st.rs[t] - 1 && st'.cs == st.cs
    ensures Filled(c, st', jl', jr')
  {
    hide Start, Key, Ranks, Opened, Kept, Reached;
    NewRotation(c, st, jl, jr, j, jl', jr');
    assert Bounds(c, st, c.ss) && Bounds(c, st, t);
    forall u: nat, y: nat | u < 256 && !c.done[u] && InPlace(c, st', u, y) ensures FilledAt(c, st', u, y, jl', jr') {
      GrownPlaces(c, st, st', t, x, j, u, y);
      if u == t && y == x {
        NewFilled(c, st, st', t, x, j, jl, jr, jl', jr');
      } else {
        if y == x { SamePlace(c, st, u, t, x); }
        assert FilledAt(c, st, u, y, jl, jr);
        OldFilled(c, st, st', t, x, j, jl, jr, jl', jr', u, y);
      }
    }
    forall u: nat, y: nat, z: nat | u < 256 && !c.done[u] && InPlace(c, st', u, y) && InPlace(c, st', u, z) && y < z
      ensures SrcBelow(st', y, z)
    {
      GrownPlaces(c, st, st', t, x, j, u, y);
      GrownPlaces(c, st, st', t, x, j, u, z);
      if InPlace(c, st, u, y) { assert FilledAt(c, st, u, y, jl, jr); if y == x { SamePlace(c, st, u, t, x); } }
      if InPlace(c, st, u, z) { assert FilledAt(c, st, u, z, jl, jr); if z == x { SamePlace(c, st, u, t, x); } }
      if InPlace(c, st, u, y) && InPlace(c, st, u, z) { assert SrcBelow(st, y, z); }
    }
  }

  /** A filled position was filled from a final one. */
  lemma FilledFront(c: Ctx, st: State, t: nat, x: nat, jl: int, jr: int)
    requires Shape(c, st) && t < 256 && FilledAt(c, st, t, x, jl, jr) && jl <= st.cs[c.ss] && st.rs[c.ss] <= jr
    ensures InFront(c, st, st.src[x])
  {}

  /** Free positions of one bucket are not filled ones of another. */
  lemma SamePlace(c: Ctx, st: State, u: nat, t: nat, x: nat)
    requires Shape(c, st) && t < 256 && u < 256 && st.cs[t] <= x < st.rs[t]
    ensures !InPlace(c, st, u, x)
  {
    hide Start;
    assert Bounds(c, st, t) && Bounds(c, st, u);
    if u != t && InPlace(c, st, u, x) {
      BucketsApart(c.s, u * 256 + c.ss, t * 256 + c.ss, x);
    }
  }

  /** Final pointers of the big bucket outside [ss, ss] are the old ones. */
  lemma OldFront(c: Ctx, st: State, y: nat)
    requires Opened(c) && Shape(c, st) && Kept(c, st) && First(c) <= y < Past(c)
    requires y < Low(c, c.ss) || y >= High(c, c.ss)
    ensures y < |c.p0| && st.p[y] == c.p0[y]
  {
    hide Start, Key, Ranks;
    BigKey(c, y);
  }

  /** The rotation put at a free position of [ss, ss] is in order with all that is final. */
  lemma NewOrder(c: Ctx, st: State, jl: int, jr: int, j: nat, jl': int, jr': int, x: nat, y: nat)
    requires Scanning(c, st, jl, jr) && Turn(c, st, jl, jr, j, jl', jr') && st.cs[c.ss] <= x < st.rs[c.ss]
    requires InFront(c, st, j) && j < |c.s| && st.p[j] < |c.s| && c.s[Prev(|c.s|, st.p[j])] == c.ss == c.s[st.p[j]]
    requires InFront(c, st, y)
    ensures y < |st.p| && st.p[y] < |c.s|
    ensures var r := Prev(|c.s|, st.p[j]);
            st.p[y] != r && if y < x then Ranks(c.s)[st.p[y]] <= Ranks(c.s)[r] else Ranks(c.s)[r] <= Ranks(c.s)[st.p[y]]
  {
    hide Start, Key, Ranks, Opened;
    var n, r := |c.s|, Prev(|c.s|, st.p[j]);
    assert Bounds(c, st, c.ss) && FrontAt(c, st, y);
    BigHolds(c);
    PrevKey(c.s, st.p[j]);
    if y < Low(c, c.ss) || y >= High(c, c.ss) {
      OldFront(c, st, y);
      BigKey(c, y);
      KeyParts(c.s, c.p0[y]);
      KeyParts(c.s, r);
      if y < x { KeyLess(c.s, st.p[y], r); } else { KeyLess(c.s, r, st.p[y]); }
    } else {
      assert InPlace(c, st, c.ss, y);
      NewOrderFilled(c, st, jl, jr, j, jl', jr', x, y);
    }
  }

  lemma NewOrderFilled(c: Ctx, st: State, jl: int, jr: int, j: nat, jl': int, jr': int, x: nat, y: nat)
    requires Opened(c) && Shape(c, st) && jl <= st.cs[c.ss] && st.rs[c.ss] <= jr && Filled(c, st, jl, jr) && Fronts(c, st)
    requires Turn(c, st, jl, jr, j, jl', jr') && st.cs[c.ss] <= x < st.rs[c.ss]
    requires InFront(c, st, j) && j < |c.s| && st.p[j] < |c.s| && c.s[Prev(|c.s|, st.p[j])] == c.ss
    requires InPlace(c, st, c.ss, y)
    ensures y < |st.p| && st.p[y] < |c.s|
    ensures var r := Prev(|c.s|, st.p[j]);
            st.p[y] != r && if y < x then Ranks(c.s)[st.p[y]] <= Ranks(c.s)[r] else Ranks(c.s)[r] <= Ranks(c.s)[st.p[y]]
  {
    hide Start, Key, Ranks;
    assert Bounds(c, st, c.ss);
    assert FilledAt(c, st, c.ss, y, jl, jr);
    FilledFront(c, st, c.ss, y, jl, jr);
    var z := st.src[y];
    if y < x {
      assert z < j && FrontOrder(c, st, z, j);
      PrevOrder(c.s, st.p[z], st.p[j]);
    } else {
      assert j < z && FrontOrder(c, st, j, z);
      PrevOrder(c.s, st.p[j], st.p[z]);
    }
  }

  lemma GrownFronts(c: Ctx, st: State, st': State, t: nat, x: nat, j: nat, jl: int, jr: int, jl': int, jr': int)
    requires Scanning(c, st, jl, jr) && Turn(c, st, jl, jr, j, jl', jr') && Grown(c, st, st', t, x, j)
    requires Shape(c, st') && c.s[Prev(|c.s|, st.p[j])] == t
    ensures Fronts(c, st')
  {
    hide Start, Key, Ranks, Opened, Kept, Reached, Filled;
    NewRotation(c, st, jl, jr, j, jl', jr');
    forall y: nat | InFront(c, st', y) ensures FrontAt(c, st', y) {
      GrownPlaces(c, st, st', t, x, j, t, y);
      if InFront(c, st, y) {
        assert FrontAt(c, st, y);
        FreePosition(c, st, t, x, y);
      }
    }
    forall y: nat, z: nat | InFront(c, st', y) && InFront(c, st', z) && y < z ensures FrontOrder(c, st', y, z) {
      GrownPlaces(c, st, st', t, x, j, t, y);
      GrownPlaces(c, st, st', t, x, j, t, z);
      if InFront(c, st, y) { FreePosition(c, st, t, x, y); }
      if InFront(c, st, z) { FreePosition(c, st, t, x, z); }
      if InFront(c, st, y) && InFront(c, st, z) {
        assert FrontOrder(c, st, y, z);
      } else if InFront(c, st, y) {
        NewOrder(c, st, jl, jr, j, jl', jr', x, y);
      } else {
        NewOrder(c, st, jl, jr, j, jl', jr', x, z);
      }
    }
  }

  lemma GrownReached(c: Ctx, st: State, st': State, t: nat, x: nat, j: nat, jl: int, jr: int, jl': int, jr': int)
    requires Scanning(c, st, jl, jr) && Turn(c, st, jl, jr, j, jl', jr') && Grown(c, st, st', t, x, j)
    requires Shape(c, st') && c.s[Prev(|c.s|, st.p[j])] == t
    ensures Reached(c, st', jl', jr')
  {
    hide Start, Key, Ranks, Opened, Kept, Fronts, Filled;
    assert Bounds(c, st, c.ss);
    forall y: nat | First(c) <= y < jl' || jr' <= y < Past(c) ensures Found(c, st', y) {
      assert InFront(c, st, y);
      FreePosition(c, st, t, x, y);
      if y == j {
        GrownPlaces(c, st, st', t, x, j, t, x);
        NewRotation(c, st, jl, jr, j, jl', jr');
      } else {
        assert Found(c, st, y);
        StillFound(c, st, st', t, x, j, y);
      }
    }
  }

  lemma StillFound(c: Ctx, st: State, st': State, t: nat, x: nat, j: nat, y: nat)
    requires c.ss < 256 && Shape(c, st) && Shape(c, st') && Grown(c, st, st', t, x, j) && Found(c, st, y) && y != x
    ensures Found(c, st', y)
  {
    hide Start;
    var r := Prev(|c.s|, st.p[y]);
    if !c.done[c.s[r]] {
      var z: nat :| InPlace(c, st, c.s[r], z) && z < |st.p| && st.p[z] == r;
      GrownPlaces(c, st, st', t, x, j, c.s[r], z);
      SamePlace(c, st, c.s[r], t, x);
      assert st'.p[z] == r;
    }
  }

  // ----- there is always room -----

  lemma FilledKey(c: Ctx, st: State, jl: int, jr: int, t: nat, x: nat)
    requires Shape(c, st) && jl <= st.cs[c.ss] && st.rs[c.ss] <= jr && Filled(c, st, jl, jr) && Fronts(c, st)
    requires t < 256 && !c.done[t] && InPlace(c, st, t, x)
    ensures x < |st.p| && st.p[x] < |c.s| && Key(c.s, st.p[x]) == t * 256 + c.ss
  {
    hide Start, Key, Ranks;
    assert FilledAt(c, st, t, x, jl, jr);
    FilledFront(c, st, t, x, jl, jr);
    assert FrontAt(c, st, st.src[x]);
    PrevKey(c.s, st.p[st.src[x]]);
  }

  lemma FilledDistinct(c: Ctx, st: State, jl: int, jr: int, t: nat, x: nat, y: nat)
    requires Shape(c, st) && jl <= st.cs[c.ss] && st.rs[c.ss] <= jr && Filled(c, st, jl, jr) && Fronts(c, st)
    requires t < 256 && !c.done[t] && InPlace(c, st, t, x) && InPlace(c, st, t, y) && x < y
    ensures x < |st.p| && y < |st.p| && st.p[x] < |c.s| && st.p[y] < |c.s|
    ensures st.p[x] != st.p[y] && Ranks(c.s)[st.p[x]] <= Ranks(c.s)[st.p[y]]
  {
    hide Start, Key, Ranks;
    assert FilledAt(c, st, t, x, jl, jr) && FilledAt(c, st, t, y, jl, jr);
    FilledFront(c, st, t, x, jl, jr);
    FilledFront(c, st, t, y, jl, jr);
    assert SrcBelow(st, x, y);
    assert FrontOrder(c, st, st.src[x], st.src[y]);
    PrevOrder(c.s, st.p[st.src[x]], st.p[st.src[y]]);
  }

  /** The rotations in place in the bucket [t, ss]. */
  function Listed(c: Ctx, st: State, t: nat): seq<nat>
    requires Shape(c, st) && t < 256
  {
    assert Bounds(c, st, t);
    HighBound(c, t);
    st.p[Low(c, t)..st.cs[t]] + st.p[st.rs[t]..High(c, t)]
  }

  function ListedFrom(c: Ctx, st: State, t: nat, i: nat): (x: nat)
    requires Shape(c, st) && t < 256 && i < |Listed(c, st, t)|
    ensures InPlace(c, st, t, x) && x < |st.p| && Listed(c, st, t)[i] == st.p[x]
  {
    assert Bounds(c, st, t);
    HighBound(c, t);
    if i < st.cs[t] - Low(c, t) then Low(c, t) + i else st.rs[t] + (i - (st.cs[t] - Low(c, t)))
  }

  lemma ListedDistinct(c: Ctx, st: State, jl: int, jr: int, t: nat)
    requires Shape(c, st) && jl <= st.cs[c.ss] && st.rs[c.ss] <= jr && Filled(c, st, jl, jr) && Fronts(c, st)
    requires t < 256 && !c.done[t]
    ensures Distinct(Listed(c, st, t))
    ensures forall i :: 0 <= i < |Listed(c, st, t)| ==> Listed(c, st, t)[i] in KeySet(c.s, t * 256 + c.ss)
  {
    hide Start, Key, Ranks, Listed, Filled, Fronts;
    forall i, j | 0 <= i < j < |Listed(c, st, t)| ensures Listed(c, st, t)[i] != Listed(c, st, t)[j] {
      ListedMono(c, st, t, i, j);
      FilledDistinct(c, st, jl, jr, t, ListedFrom(c, st, t, i), ListedFrom(c, st, t, j));
    }
    forall i | 0 <= i < |Listed(c, st, t)| ensures Listed(c, st, t)[i] in KeySet(c.s, t * 256 + c.ss) {
      FilledKey(c, st, jl, jr, t, ListedFrom(c, st, t, i));
    }
  }

  lemma ListedMono(c: Ctx, st: State, t: nat, i: nat, j: nat)
    requires Shape(c, st) && t < 256 && i < j < |Listed(c, st, t)|
    ensures ListedFrom(c, st, t, i) < ListedFrom(c, st, t, j)
  {
    hide Start;
    assert Bounds(c, st, t);
  }

  lemma ListedLength(c: Ctx, st: State, t: nat)
    requires Shape(c, st) && t < 256
    ensures |Listed(c, st, t)| + st.rs[t] == |KeySet(c.s, t * 256 + c.ss)| + st.cs[t]
  {
    hide Start;
    assert Bounds(c, st, t);
    HighBound(c, t);
    KeySetCount(c.s, t * 256 + c.ss);
  }

  /** A rotation still to be put in place finds a free position. */
  lemma RoomLeft(c: Ctx, st: State, jl: int, jr: int, j: nat, jl': int, jr': int)
    requires Scanning(c, st, jl, jr) && Turn(c, st, jl, jr, j, jl', jr')
    ensures j < |c.s| && st.p[j] < |c.s|
    ensures var t := c.s[Prev(|c.s|, st.p[j])];
            !c.done[t] ==> st.cs[t] < st.rs[t]
  {
    hide Start, Key, Ranks, Opened, Kept, Reached, Listed, Filled, Fronts;
    NewRotation(c, st, jl, jr, j, jl', jr');
    var r := Prev(|c.s|, st.p[j]);
    var t: nat := c.s[r];
    if !c.done[t] {
      var vals := Listed(c, st, t);
      ListedDistinct(c, st, jl, jr, t);
      forall i | 0 <= i < |vals| ensures vals[i] != r {
        NotYet(c, st, jl, jr, j, jl', jr', t, ListedFrom(c, st, t, i));
      }
      var more := vals + [r];
      assert Distinct(more);
      ElementsCount(more);
      assert Elements(more) <= KeySet(c.s, t * 256 + c.ss);
      SubsetCount(Elements(more), KeySet(c.s, t * 256 + c.ss));
      ListedLength(c, st, t);
    }
  }

  lemma NotYet(c: Ctx, st: State, jl: int, jr: int, j: nat, jl': int, jr': int, t: nat, x: nat)
    requires Scanning(c, st, jl, jr) && Turn(c, st, jl, jr, j, jl', jr') && t < 256 && !c.done[t] && InPlace(c, st, t, x)
    requires InFront(c, st, j) && j < |c.s| && st.p[j] < |c.s|
    ensures x < |st.p| && st.p[x] != Prev(|c.s|, st.p[j])
  {
    hide Start, Key, Ranks, Opened, Kept, Reached;
    assert FilledAt(c, st, t, x, jl, jr);
    FilledFront(c, st, t, x, jl, jr);
    assert Bounds(c, st, c.ss);
    var z := st.src[x];
    if z < j { assert FrontOrder(c, st, z, j); } else { assert z > j && FrontOrder(c, st, j, z); }
  }

  /** One step of a scan. */
  lemma ScanStep(c: Ctx, st: State, st': State, jl: int, jr: int, j: nat, jl': int, jr': int)
    requires Scanning(c, st, jl, jr) && Turn(c, st, jl, jr, j, jl', jr')
    requires j < |c.s| && st.p[j] < |c.s|
    requires var t := c.s[Prev(|c.s|, st.p[j])];
             if c.done[t] then st' == st
             else if jl' == jl + 1 then Grown(c, st, st', t, st.cs[t], j) && st'.rs == st.rs
             else st.rs[t] > 0 && Grown(c, st, st', t, st.rs[t] - 1, j) && st'.cs == st.cs
    ensures Scanning(c, st', jl', jr')
  {
    hide Start, Key, Ranks, Kept, Reached, Filled, Fronts;
    var t: nat := c.s[Prev(|c.s|, st.p[j])];
    if c.done[t] {
      SkipStep(c, st, jl, jr, j, jl', jr');
    } else {
      var x := if jl' == jl + 1 then st.cs[t] else st.rs[t] - 1;
      GrownShape(c, st, st', t, x, j);
      GrownKept(c, st, st', t, x, j);
      GrownFilled(c, st, st', t, x, j, jl, jr, jl', jr');
      GrownFronts(c, st, st', t, x, j, jl, jr, jl', jr');
      GrownReached(c, st, st', t, x, j, jl, jr, jl', jr');
      assert Bounds(c, st, c.ss) && Bounds(c, st', c.ss);
    }
  }

  lemma SkipStep(c: Ctx, st: State, jl: int, jr: int, j: nat, jl': int, jr': int)
    requires Scanning(c, st, jl, jr) && Turn(c, st, jl, jr, j, jl', jr')
    requires j < |c.s| && st.p[j] < |c.s| && c.done[c.s[Prev(|c.s|, st.p[j])]]
    ensures Scanning(c, st, jl', jr')
  {
    hide Start, Key, Ranks, Kept, Fronts, Opened;
    assert Bounds(c, st, c.ss);
    forall t: nat, x: nat | t < 256 && !c.done[t] && InPlace(c, st, t, x) ensures FilledAt(c, st, t, x, jl', jr') {
      assert FilledAt(c, st, t, x, jl, jr);
    }
    forall y: nat | First(c) <= y < jl' || jr' <= y < Past(c) ensures Found(c, st, y) {
      if y == j { assert Found(c, st, y); }
    }
  }

  // ----- the start -----

  /** Nothing has been filled yet. */
  predicate Fresh(c: Ctx, st: State)
    requires |c.done| == 256
  {
    && st.p == c.p0 && |st.src| == |c.s| && |st.cs| == |st.rs| == 256
    && (forall t: nat :: t < 256 ==> st.cs[t] == Low(c, t)) && (forall t: nat :: t < 256 ==> st.rs[t] == High(c, t))
  }

  lemma ScanStart(c: Ctx, st: State)
    requires Opened(c) && Fresh(c, st)
    ensures Scanning(c, st, First(c), Past(c))
  {
    hide Start, Key, Ranks, SmallSorted, Within;
    BigHolds(c);
    forall t: nat | t < 256 ensures Bounds(c, st, t) { StartMono(c.s, t * 256 + c.ss, t * 256 + c.ss + 1); }
    assert Shape(c, st);
    forall y: nat | InFront(c, st, y) ensures FrontAt(c, st, y) { BigKey(c, y); }
    forall y: nat, z: nat | InFront(c, st, y) && InFront(c, st, z) && y < z ensures FrontOrder(c, st, y, z) {
      StartOrder(c, y, z);
    }
  }

  /** Before the scan the small buckets of the big one other than [ss, ss] are in order. */
  lemma StartOrder(c: Ctx, y: nat, z: nat)
    requires Opened(c) && First(c) <= y < z < Past(c)
    requires !(Low(c, c.ss) <= y < High(c, c.ss)) && !(Low(c, c.ss) <= z < High(c, c.ss))
    ensures z < |c.p0| && c.p0[y] < |c.s| && c.p0[z] < |c.s| && c.p0[y] != c.p0[z]
    ensures Ranks(c.s)[c.p0[y]] <= Ranks(c.s)[c.p0[z]]
  {
    hide Start, Key, Ranks;
    BigKey(c, y);
    BigKey(c, z);
    var a, b := Key(c.s, c.p0[y]), Key(c.s, c.p0[z]);
    assert Within(c.s, a, y) && Within(c.s, b, z);
    if a < b {
      KeyLess(c.s, c.p0[y], c.p0[z]);
    } else if a == b {
      assert SmallSorted(c, a % 256);
      assert a == c.ss * 256 + a % 256;
    } else {
      StartMono(c.s, b + 1, a);
    }
  }

  // ----- the end -----

  /** The block consists of the byte ss alone. */
  predicate OneByte(c: Ctx) {
    forall i :: 0 <= i < |c.s| ==> c.s[i] == c.ss
  }

  lemma OneByteScan(c: Ctx)
    requires Opened(c) && OneByte(c)
    ensures First(c) == Low(c, c.ss) && High(c, c.ss) == Past(c)
  {
    hide Start, Ranks, Key;
    BigHolds(c);
    forall i: nat | i < |c.s| ensures Key(c.s, i) % 256 == c.ss { KeyParts(c.s, i); }
    if First(c) < Low(c, c.ss) { BigKey(c, First(c)); }
    if High(c, c.ss) < Past(c) { BigKey(c, High(c, c.ss)); }
  }

  /** Both scans have reached what they have filled of [ss, ss]. */
  ghost predicate ScanOver(c: Ctx, st: State) {
    |st.cs| == |st.rs| == 256 && c.ss < 256 && Scanning(c, st, st.cs[c.ss], st.rs[c.ss])
  }

  /** The rotation is final in the big bucket. */
  ghost predicate InBig(c: Ctx, st: State, q: nat)
    requires Shape(c, st)
  {
    exists y: nat :: InFront(c, st, y) && y < |st.p| && st.p[y] == q
  }

  /** A rotation with another second byte is in one of the small buckets sorted before. */
  lemma OtherSecond(c: Ctx, st: State, q: nat)
    requires ScanOver(c, st) && q < |c.s| && c.s[q] == c.ss && c.s[Next(|c.s|, q)] != c.ss
    ensures InBig(c, st, q)
  {
    hide Start, Key, Ranks, Filled, Fronts, Opened;
    assert Bounds(c, st, c.ss);
    BigHolds(c);
    KeyParts(c.s, q);
    OpenedBuckets(c);
    var y := Whereabouts(c.p0, c.s, q);
    SmallInBig(c, Key(c.s, q), y);
    BigKey(c, y);
    assert InFront(c, st, y);
    OldFront(c, st, y);
  }

  /** A rotation of [ss, ss] is put in place when the next rotation is scanned. */
  lemma SameSecond(c: Ctx, st: State, q: nat)
    requires ScanOver(c, st) && q < |c.s| && c.s[q] == c.ss && InBig(c, st, Next(|c.s|, q))
    ensures InBig(c, st, q)
  {
    hide Start, Key, Ranks, Filled, Fronts, Opened, Kept;
    var n := |c.s|;
    assert Bounds(c, st, c.ss);
    BigHolds(c);
    var y: nat :| InFront(c, st, y) && y < |st.p| && st.p[y] == Next(n, q);
    assert Found(c, st, y);
    PrevNext(n, q);
    OpenedBuckets(c);
    var x: nat :| InPlace(c, st, c.ss, x) && x < |st.p| && st.p[x] == q;
    assert InFront(c, st, x);
  }

  /** A rotation missing from the big bucket is followed by one that is missing too. */
  lemma MissingNext(c: Ctx, st: State, q: nat)
    requires ScanOver(c, st) && q < |c.s| && c.s[q] == c.ss && !InBig(c, st, q)
    ensures c.s[Next(|c.s|, q)] == c.ss && !InBig(c, st, Next(|c.s|, q))
  {
    hide InBig;
    if c.s[Next(|c.s|, q)] != c.ss {
      OtherSecond(c, st, q);
    } else if InBig(c, st, Next(|c.s|, q)) {
      SameSecond(c, st, q);
    }
  }

  lemma OpenedBuckets(c: Ctx)
    requires Opened(c)
    ensures InBuckets(c.p0, c.s) && !c.done[c.ss]
  {}

  lemma PrevNext(n: nat, q: nat)
    requires q < n
    ensures Prev(n, Next(n, q)) == q
  {}

  lemma SmallInBig(c: Ctx, k: nat, y: nat)
    requires c.ss < 256 && k / 256 == c.ss && Within(c.s, k, y)
    ensures First(c) <= y < Past(c)
  {
    hide Start;
    StartMono(c.s, c.ss * 256, k);
    StartMono(c.s, k + 1, c.ss * 256 + 256);
  }

  lemma {:induction false} MissingAlong(c: Ctx, st: State, q: nat, k: nat)
    requires ScanOver(c, st) && q < |c.s| && c.s[q] == c.ss && !InBig(c, st, q)
    ensures c.s[Advance(|c.s|, q, k)] == c.ss
    decreases k
  {
    hide Filled, Fronts, Kept, Reached, Opened, InBig;
    if k > 0 {
      MissingNext(c, st, q);
      MissingAlong(c, st, Next(|c.s|, q), k - 1);
    }
  }

  /** Unless the block is one byte repeated, every rotation of the big bucket is final at the end. */
  lemma NoneMissing(c: Ctx, st: State, q: nat)
    requires ScanOver(c, st) && q < |c.s| && c.s[q] == c.ss && !OneByte(c)
    ensures InBig(c, st, q)
  {
    hide Filled, Fronts, Kept, Reached, Opened, InBig;
    if !InBig(c, st, q) {
      forall i | 0 <= i < |c.s| ensures c.s[i] == c.ss {
        var k: nat := if i >= q then i - q else i + |c.s| - q;
        AdvanceWithin(|c.s|, q, k);
        MissingAlong(c, st, q, k);
      }
    }
  }

  /** The two scans have met: nothing is left unfilled, in [ss, ss] or elsewhere. */
  lemma ScansMeet(c: Ctx, st: State, t: nat)
    requires ScanOver(c, st) && !OneByte(c) && t < 256 && !c.done[t]
    ensures st.cs[t] == st.rs[t]
  {
    hide Start, Key, Ranks, Filled, Fronts, Opened, Kept, Listed, OneByte, InBig;
    var k, vals := t * 256 + c.ss, Listed(c, st, t);
    assert Bounds(c, st, t);
    forall r | r in KeySet(c.s, k) ensures r in Elements(vals) {
      KeyParts(c.s, r);
      NoneMissing(c, st, Next(|c.s|, r));
      PlacedRotation(c, st, t, r);
    }
    SubsetCount(KeySet(c.s, k), Elements(vals));
    ListedDistinct(c, st, st.cs[c.ss], st.rs[c.ss], t);
    ElementsCount(vals);
    ListedLength(c, st, t);
  }

  lemma PlacedRotation(c: Ctx, st: State, t: nat, r: nat)
    requires ScanOver(c, st) && t < 256 && !c.done[t] && r < |c.s| && c.s[r] == t
    requires InBig(c, st, Next(|c.s|, r))
    ensures r in Elements(Listed(c, st, t))
  {
    hide Start, Key, Ranks, Filled, Fronts, Opened, Kept;
    var n := |c.s|;
    var y: nat :| InFront(c, st, y) && y < |st.p| && st.p[y] == Next(n, r);
    assert Bounds(c, st, c.ss) && Bounds(c, st, t);
    assert Found(c, st, y);
    PrevNext(n, r);
    var x: nat :| InPlace(c, st, t, x) && x < |st.p| && st.p[x] == r;
    var i := if x < st.cs[t] then x - Low(c, t) else x - st.rs[t] + (st.cs[t] - Low(c, t));
    assert Listed(c, st, t)[i] == r;
  }

  /** What the scans leave: every small bucket [t, ss] of a big bucket t not yet done is sorted, and nothing else has
      changed. */
  ghost predicate Synthesised(c: Ctx, p: seq<nat>) {
    && InBuckets(p, c.s)
    && (forall t: nat :: t < 256 && |c.done| == 256 && !c.done[t] ==> SortedFor(c, p, t))
    && forall k: nat :: k < 65536 && |c.done| == 256 && (k % 256 != c.ss || c.done[k / 256]) ==> SameBucket(c, p, k)
  }

  ghost predicate SortedFor(c: Ctx, p: seq<nat>, t: nat) {
    BucketSorted(p, c.s, t * 256 + c.ss)
  }

  ghost predicate SameBucket(c: Ctx, p: seq<nat>, k: nat) {
    |p| == |c.p0| && forall x: nat :: x < |p| && Within(c.s, k, x) ==> p[x] == c.p0[x]
  }

  lemma EndUnwritten(c: Ctx, st: State, x: nat)
    requires ScanOver(c, st) && !OneByte(c) && x < |c.s|
    ensures c.p0[x] < |c.s|
    ensures var k := Key(c.s, c.p0[x]);
            Within(c.s, k, x) && if k % 256 == c.ss && !c.done[k / 256] then InPlace(c, st, k / 256, x) else st.p[x] == c.p0[x]
  {
    hide Start, Key, Ranks, Filled, Fronts, OneByte, Reached;
    var k := Key(c.s, c.p0[x]);
    if k % 256 == c.ss && !c.done[k / 256] {
      ScansMeet(c, st, k / 256);
      assert k == k / 256 * 256 + c.ss;
    }
  }

  lemma EndKey(c: Ctx, st: State, x: nat)
    requires ScanOver(c, st) && !OneByte(c) && x < |c.s|
    ensures c.p0[x] < |c.s| && st.p[x] < |c.s| && Key(c.s, st.p[x]) == Key(c.s, c.p0[x])
  {
    hide Start, Key, Ranks, OneByte, Filled, Fronts, Kept, Reached;
    EndUnwritten(c, st, x);
    var k := Key(c.s, c.p0[x]);
    if k % 256 == c.ss && !c.done[k / 256] {
      FilledKey(c, st, st.cs[c.ss], st.rs[c.ss], k / 256, x);
    }
  }

  lemma EndDistinct(c: Ctx, st: State, x: nat, y: nat)
    requires ScanOver(c, st) && !OneByte(c) && x < y < |c.s|
    ensures st.p[x] != st.p[y]
  {
    hide Start, Key, Ranks, OneByte, Filled, Fronts, Kept, Reached;
    EndUnwritten(c, st, x);
    EndUnwritten(c, st, y);
    EndKey(c, st, x);
    EndKey(c, st, y);
    var k := Key(c.s, c.p0[x]);
    if k % 256 == c.ss && !c.done[k / 256] && Key(c.s, c.p0[y]) == k {
      FilledDistinct(c, st, st.cs[c.ss], st.rs[c.ss], k / 256, x, y);
    }
  }

  lemma EndSorted(c: Ctx, st: State, t: nat)
    requires ScanOver(c, st) && !OneByte(c) && t < 256 && !c.done[t]
    requires Keyed(st.p, Ranks(c.s))
    ensures SortedFor(c, st.p, t)
  {
    hide Start, Key, Ranks, OneByte, Filled, Fronts, Kept, Reached;
    ScansMeet(c, st, t);
    forall x, y | Low(c, t) <= x < y <= High(c, t) - 1 && y < |st.p| ensures Ranks(c.s)[st.p[x]] <= Ranks(c.s)[st.p[y]] {
      FilledDistinct(c, st, st.cs[c.ss], st.rs[c.ss], t, x, y);
    }
  }

  lemma ScanResult(c: Ctx, st: State)
    requires ScanOver(c, st) && !OneByte(c)
    ensures Synthesised(c, st.p)
  {
    hide Start, Key, Ranks, OneByte, Filled, Fronts, Kept, Reached;
    forall x | 0 <= x < |st.p| ensures st.p[x] < |c.s| && Within(c.s, Key(c.s, st.p[x]), x) {
      EndKey(c, st, x);
      EndUnwritten(c, st, x);
    }
    forall x, y | 0 <= x < y < |st.p| ensures st.p[x] != st.p[y] { EndDistinct(c, st, x, y); }
    forall t: nat | t < 256 && !c.done[t] ensures SortedFor(c, st.p, t) { EndSorted(c, st, t); }
    forall k: nat | k < 65536 && (k % 256 != c.ss || c.done[k / 256]) ensures SameBucket(c, st.p, k) {
      forall x: nat | x < |st.p| && Within(c.s, k, x) ensures st.p[x] == c.p0[x] {
        EndUnwritten(c, st, x);
        BucketsApart(c.s, k, Key(c.s, c.p0[x]), x);
      }
    }
  }

  /** Of a block of one byte all rotations are equal. */
  lemma OneByteResult(c: Ctx)
    requires Opened(c) && OneByte(c)
    ensures Synthesised(c, c.p0)
  {
    hide Start, Key, Ranks;
    forall i: nat, j: nat | i < |c.s| && j < |c.s| ensures Ranks(c.s)[i] <= Ranks(c.s)[j] {
      OneByteLe(c, i, j, |c.s|);
      RankOrder(c.s, i, j);
    }
  }

  lemma {:induction false} OneByteLe(c: Ctx, i: nat, j: nat, k: nat)
    requires OneByte(c) && i < |c.s| && j < |c.s|
    ensures Le(c.s, i, j, k)
    decreases k
  {
    if k > 0 { OneByteLe(c, Next(|c.s|, i), Next(|c.s|, j), k - 1); }
  }
}
