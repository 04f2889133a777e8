/** Why joining the two lightest trees gives the best code: whatever complete code is compared, the sum of weight times
    length is at least the sum of the weights of all joined trees, which is what the tree itself comes to. */
module HuffmanOptimal {
  import opened Words
  import opened Codes
  import opened HuffmanForest

  // ----- sums -----

  /** Sum of the entries 1 to k. */
  function Total(t: seq<nat>, k: nat): nat
    requires k < |t|
  {
    if k == 0 then 0 else Total(t, k - 1) + t[k]
  }

  lemma {:induction false} TotalUpdate(t: seq<nat>, k: nat, x: nat, v: nat)
    requires 1 <= x <= k < |t|
    ensures Total(t[x := v], k) + t[x] == Total(t, k) + v
  {
    if x == k { TotalFront(t, t[x := v], k - 1); } else { TotalUpdate(t, k - 1, x, v); }
  }

  lemma {:induction false} TotalFront(t: seq<nat>, u: seq<nat>, k: nat)
    requires k < |t| && k < |u| && forall x :: 1 <= x <= k ==> t[x] == u[x]
    ensures Total(t, k) == Total(u, k)
  {
    if k > 0 { TotalFront(t, u, k - 1); }
  }

  lemma {:induction false} TotalNothing(t: seq<nat>, j: nat, k: nat)
    requires j <= k < |t| && forall x :: j < x <= k ==> t[x] == 0
    ensures Total(t, k) == Total(t, j)
  {
    if j < k { TotalNothing(t, j, k - 1); }
  }

  lemma {:induction false} TotalTwice(t: seq<nat>, u: seq<nat>, k: nat)
    requires k < |t| && k < |u| && forall x :: 1 <= x <= k ==> t[x] == 2 * u[x]
    ensures Total(t, k) == 2 * Total(u, k)
  {
    if k > 0 { TotalTwice(t, u, k - 1); }
  }

  lemma {:induction false} TotalEven(t: seq<nat>, k: nat)
    requires k < |t| && forall x :: 1 <= x <= k ==> t[x] % 2 == 0
    ensures Total(t, k) % 2 == 0
  {
    if k > 0 { TotalEven(t, k - 1); }
  }

  lemma {:induction false} TotalOdd(t: seq<nat>, k: nat, u: nat)
    requires 1 <= u <= k < |t| && t[u] % 2 == 1 && forall x :: 1 <= x <= k && x != u ==> t[x] % 2 == 0
    ensures Total(t, k) % 2 == 1
  {
    if u == k { TotalEven(t, k - 1); } else { TotalOdd(t, k - 1, u); }
  }

  lemma {:induction false} TotalHolds(t: seq<nat>, k: nat, x: nat)
    requires 1 <= x <= k < |t|
    ensures t[x] <= Total(t, k)
  {
    if x < k { TotalHolds(t, k - 1, x); }
  }

  // ----- the trees while y nodes exist -----

  /** Node x is the root of a tree. */
  predicate Live(p: seq<int>, y: nat, x: nat) {
    1 <= x <= y && x < |p| && (p[x] == -1 || p[x] > y)
  }

  /** Code space: a root at depth d takes 2^(longest - d). */
  function Spaces(p: seq<int>, y: nat, d: seq<nat>, longest: nat): (t: seq<nat>)
    requires |d| == |p|
    ensures |t| == |p|
  {
    seq(|p|, x requires 0 <= x < |p| => if Live(p, y, x) && d[x] <= longest then Pow2(longest - d[x]) else 0)
  }

  /** Weight times depth. */
  function Costs(p: seq<int>, w: seq<nat>, y: nat, d: seq<nat>): (t: seq<nat>)
    requires |d| == |p| <= |w|
    ensures |t| == |p|
  {
    seq(|p|, x requires 0 <= x < |p| => if Live(p, y, x) then W(w[x]) * d[x] else 0)
  }

  /** Depths for the roots that fill the code space. */
  ghost predicate Fills(p: seq<int>, y: nat, d: seq<nat>, longest: nat) {
    y < |p| == |d| && (forall x: nat :: Live(p, y, x) ==> d[x] <= longest) && Total(Spaces(p, y, d, longest), y) == Pow2(longest)
  }

  /** The weights of the trees still to be made. */
  function Inner(w: seq<nat>, y: nat, m: nat): nat
    requires y <= m < |w|
    decreases m - y
  {
    if y == m then 0 else W(w[y + 1]) + Inner(w, y + 1, m)
  }

  /** What is needed of the forest. */
  ghost predicate Grown(p: seq<int>, w: seq<nat>, kids: seq<(nat, nat)>, alpha: nat, m: nat) {
    Shape(p, kids, alpha, m) && Weighted(w, kids, alpha, m) && SingleRoot(p, m) && Greedy(p, w, kids, alpha, m) && |p| <= |w|
  }

  lemma PairFacts(p: seq<int>, w: seq<nat>, kids: seq<(nat, nat)>, alpha: nat, m: nat, y: nat)
    requires Grown(p, w, kids, alpha, m) && alpha <= y < m
    ensures var (a, b) := kids[y + 1];
            && Live(p, y, a) && Live(p, y, b) && a != b && p[a] == y + 1 && p[b] == y + 1
            && W(w[y + 1]) == W(w[a]) + W(w[b])
            && (forall x: nat :: Live(p, y, x) && x != a && x != b ==> W(w[a]) <= W(w[x]) && W(w[b]) <= W(w[x]))
            && (forall x: nat :: Live(p, y + 1, x) <==> x == y + 1 || (Live(p, y, x) && x != a && x != b))
  {
    assert Couple(p, kids, y + 1) && Sums(w, kids, y + 1) && Lighter(p, w, kids, y + 1);
    assert p[y + 1] == -1 || p[y + 1] > y + 1;
    var (a, b) := kids[y + 1];
    forall x: nat ensures Live(p, y + 1, x) <==> x == y + 1 || (Live(p, y, x) && x != a && x != b) {
      LiveNext(p, kids, alpha, m, y, y + 1, x);
    }
  }

  /** The next tree takes the place of its children. */
  lemma LiveNext(p: seq<int>, kids: seq<(nat, nat)>, alpha: nat, m: nat, y: nat, z: nat, x: nat)
    requires Shape(p, kids, alpha, m) && alpha <= y < m && z == y + 1
    ensures Live(p, z, x) <==> x == z || (Live(p, y, x) && x != kids[z].0 && x != kids[z].1)
  {
    assert Couple(p, kids, z);
    if 1 <= x <= z { assert p[x] == -1 || (x < p[x] <= m && (kids[p[x]].0 == x || kids[p[x]].1 == x)); }
  }

  // ----- the exchange -----

  function Swapped(d: seq<nat>, a: nat, b: nat): (e: seq<nat>)
    requires a < |d| && b < |d|
    ensures |e| == |d|
  {
    d[a := d[b]][b := d[a]]
  }

  /** Two entries changed. */
  lemma TwoChanged(t: seq<nat>, u: seq<nat>, y: nat, a: nat, b: nat)
    requires y < |t| && 1 <= a <= y && 1 <= b <= y && a != b && |u| == |t| && u == t[a := u[a]][b := u[b]]
    ensures Total(u, y) + t[a] + t[b] == Total(t, y) + u[a] + u[b]
  {
    TotalUpdate(t, y, a, u[a]);
    TotalUpdate(t[a := u[a]], y, b, u[b]);
  }

  /** Giving the greater depth to the lighter of two roots costs nothing. */
  lemma Exchange(p: seq<int>, w: seq<nat>, y: nat, d: seq<nat>, longest: nat, a: nat, u: nat)
    requires Fills(p, y, d, longest) && |p| <= |w| && Live(p, y, a) && Live(p, y, u)
    requires a == u || (W(w[a]) <= W(w[u]) && d[a] <= d[u])
    ensures Fills(p, y, Swapped(d, a, u), longest)
    ensures Total(Costs(p, w, y, Swapped(d, a, u)), y) <= Total(Costs(p, w, y, d), y)
  {
    var e := Swapped(d, a, u);
    if a == u {
      assert e == d;
    } else {
      SwappedSpaces(p, y, d, longest, a, u);
      SwappedCosts(p, w, y, d, a, u);
    }
  }

  lemma SwappedSpaces(p: seq<int>, y: nat, d: seq<nat>, longest: nat, a: nat, u: nat)
    requires Fills(p, y, d, longest) && Live(p, y, a) && Live(p, y, u) && a != u
    ensures Fills(p, y, Swapped(d, a, u), longest)
  {
    hide Pow2;
    var e := Swapped(d, a, u);
    var t, s := Spaces(p, y, d, longest), Spaces(p, y, e, longest);
    assert s == t[a := s[a]][u := s[u]];
    TwoChanged(t, s, y, a, u);
  }

  lemma SwappedCosts(p: seq<int>, w: seq<nat>, y: nat, d: seq<nat>, a: nat, u: nat)
    requires y < |p| == |d| <= |w| && Live(p, y, a) && Live(p, y, u) && a != u && W(w[a]) <= W(w[u]) && d[a] <= d[u]
    ensures Total(Costs(p, w, y, Swapped(d, a, u)), y) <= Total(Costs(p, w, y, d), y)
  {
    hide W;
    var e := Swapped(d, a, u);
    var t, s := Costs(p, w, y, d), Costs(p, w, y, e);
    assert s == t[a := s[a]][u := s[u]];
    TwoChanged(t, s, y, a, u);
    Crossed(W(w[a]), W(w[u]), d[a], d[u]);
  }

  lemma Crossed(x: nat, y: nat, m: nat, n: nat)
    requires x <= y && m <= n
    ensures x * n + y * m <= x * m + y * n
  {
    assert (y - x) * (n - m) >= 0;
  }

  /** The greatest depth occurs twice. */
  lemma AnotherDeepest(p: seq<int>, y: nat, d: seq<nat>, longest: nat, u: nat) returns (v: nat)
    requires Fills(p, y, d, longest) && longest > 0 && Live(p, y, u) && d[u] == longest
    ensures Live(p, y, v) && d[v] == longest && v != u
  {
    var t := Spaces(p, y, d, longest);
    assert Pow2(longest) == 2 * Pow2(longest - 1);
    if forall v: nat :: Live(p, y, v) && v != u ==> d[v] < longest {
      forall x | 1 <= x <= y && x != u ensures t[x] % 2 == 0 {
        if Live(p, y, x) { assert Pow2(longest - d[x]) == 2 * Pow2(longest - d[x] - 1); }
      }
      TotalOdd(t, y, u);
      assert false;
    }
    v :| Live(p, y, v) && v != u && !(d[v] < longest);
  }

  /** If the greatest depth does not occur, the bound may be lowered. */
  lemma Lowered(p: seq<int>, y: nat, d: seq<nat>, longest: nat)
    requires Fills(p, y, d, longest) && longest > 0 && forall x: nat :: Live(p, y, x) ==> d[x] < longest
    ensures Fills(p, y, d, longest - 1)
  {
    var t, u := Spaces(p, y, d, longest), Spaces(p, y, d, longest - 1);
    forall x | 1 <= x <= y ensures t[x] == 2 * u[x] {
      if Live(p, y, x) { assert Pow2(longest - d[x]) == 2 * Pow2(longest - 1 - d[x]); }
    }
    TotalTwice(t, u, y);
    assert Pow2(longest) == 2 * Pow2(longest - 1);
  }

  /** Two roots share the code space, so neither takes it all. */
  lemma Positive(p: seq<int>, y: nat, d: seq<nat>, longest: nat, a: nat, b: nat)
    requires Fills(p, y, d, longest) && Live(p, y, a) && Live(p, y, b) && a != b
    ensures longest > 0
  {
    if longest == 0 {
      var t := Spaces(p, y, d, 0);
      assert t[a] == 1 && t[b] == 1;
      TotalUpdate(t, y, a, 0);
      TotalHolds(t[a := 0], y, b);
    }
  }

  /** Two entries replaced by a new one. */
  lemma Replaced(t: seq<nat>, u: seq<nat>, y: nat, a: nat, b: nat, v: nat)
    requires y + 1 < |t| && 1 <= a <= y && 1 <= b <= y && a != b && t[y + 1] == 0 && u == t[a := 0][b := 0][y + 1 := v]
    ensures Total(u, y + 1) + t[a] + t[b] == Total(t, y) + v
  {
    var z := y + 1;
    TotalNothing(t, y, z);
    TotalUpdate(t, z, a, 0);
    TotalUpdate(t[a := 0], z, b, 0);
    TotalUpdate(t[a := 0][b := 0], z, z, v);
  }

  lemma NextSpaces(p: seq<int>, w: seq<nat>, kids: seq<(nat, nat)>, alpha: nat, m: nat, y: nat, d: seq<nat>, e: seq<nat>, longest: nat)
    requires Grown(p, w, kids, alpha, m) && alpha <= y < m && y + 1 < |p| == |d| == |e| && e == d[y + 1 := e[y + 1]] && e[y + 1] <= longest
    ensures var (a, b) := kids[y + 1];
            && a < |p| && b < |p|
            && Spaces(p, y + 1, e, longest) == Spaces(p, y, d, longest)[a := 0][b := 0][y + 1 := Pow2(longest - e[y + 1])]
            && Spaces(p, y, d, longest)[y + 1] == 0
  {
    hide Pow2;
    PairFacts(p, w, kids, alpha, m, y);
  }

  lemma NextCosts(p: seq<int>, w: seq<nat>, kids: seq<(nat, nat)>, alpha: nat, m: nat, y: nat, d: seq<nat>, e: seq<nat>)
    requires Grown(p, w, kids, alpha, m) && alpha <= y < m && y + 1 < |p| == |d| == |e| && e == d[y + 1 := e[y + 1]]
    ensures var (a, b) := kids[y + 1];
            && a < |p| && b < |p|
            && Costs(p, w, y + 1, e) == Costs(p, w, y, d)[a := 0][b := 0][y + 1 := W(w[y + 1]) * e[y + 1]]
            && Costs(p, w, y, d)[y + 1] == 0
  {
    hide W;
    PairFacts(p, w, kids, alpha, m, y);
  }

  /** Two roots at the greatest depth replaced by the tree they make, one level up. */
  lemma Merged(p: seq<int>, w: seq<nat>, kids: seq<(nat, nat)>, alpha: nat, m: nat, y: nat, d: seq<nat>, longest: nat, a: nat, b: nat)
    requires Grown(p, w, kids, alpha, m) && alpha <= y < m && Fills(p, y, d, longest) && longest > 0
    requires y + 1 < |kids| && kids[y + 1] == (a, b) && a < |d| && b < |d| && d[a] == longest && d[b] == longest
    ensures var e := d[y + 1 := longest - 1];
            Fills(p, y + 1, e, longest) && Total(Costs(p, w, y + 1, e), y + 1) + W(w[y + 1]) == Total(Costs(p, w, y, d), y)
  {
    hide W, Spaces, Costs, Live, Grown, Fills;
    GrownSizes(p, w, kids, alpha, m);
    FillsBounds(p, y, d, longest);
    PairFacts(p, w, kids, alpha, m, y);
    LiveBounds(p, y);
    var e := d[y + 1 := longest - 1];
    NextSpaces(p, w, kids, alpha, m, y, d, e, longest);
    NextCosts(p, w, kids, alpha, m, y, d, e);
    Powers01();
    SpaceAt(p, y, d, longest, a);
    SpaceAt(p, y, d, longest, b);
    CostAt(p, w, y, d, a);
    CostAt(p, w, y, d, b);
    Replaced(Spaces(p, y, d, longest), Spaces(p, y + 1, e, longest), y, a, b, 2);
    Replaced(Costs(p, w, y, d), Costs(p, w, y + 1, e), y, a, b, W(w[y + 1]) * (longest - 1));
    Shared(W(w[a]), W(w[b]), longest);
    Refilled(p, w, kids, alpha, m, y, d, longest, a, b);
  }

  lemma Refilled(p: seq<int>, w: seq<nat>, kids: seq<(nat, nat)>, alpha: nat, m: nat, y: nat, d: seq<nat>, longest: nat, a: nat, b: nat)
    requires Grown(p, w, kids, alpha, m) && alpha <= y < m && Fills(p, y, d, longest) && longest > 0
    requires y + 1 < |kids| && kids[y + 1] == (a, b) && a < |d| && b < |d| && d[a] == longest && d[b] == longest
    requires y + 1 < |d| && Total(Spaces(p, y + 1, d[y + 1 := longest - 1], longest), y + 1) == Total(Spaces(p, y, d, longest), y)
    ensures Fills(p, y + 1, d[y + 1 := longest - 1], longest)
  {
    hide W, Spaces;
    PairFacts(p, w, kids, alpha, m, y);
  }

  lemma Powers01()
    ensures Pow2(0) == 1 && Pow2(1) == 2
  {}

  lemma SpaceAt(p: seq<int>, y: nat, d: seq<nat>, longest: nat, x: nat)
    requires |d| == |p| && Live(p, y, x) && d[x] <= longest
    ensures Spaces(p, y, d, longest)[x] == Pow2(longest - d[x])
  {}

  lemma CostAt(p: seq<int>, w: seq<nat>, y: nat, d: seq<nat>, x: nat)
    requires |d| == |p| <= |w| && Live(p, y, x)
    ensures Costs(p, w, y, d)[x] == W(w[x]) * d[x]
  {}

  lemma Shared(u: nat, v: nat, n: nat)
    requires n > 0
    ensures u * n + v * n == (u + v) * (n - 1) + (u + v)
  {}

  /** The children of the next tree moved to the greatest depth, at no cost. */
  lemma Deepened(p: seq<int>, w: seq<nat>, kids: seq<(nat, nat)>, alpha: nat, m: nat, y: nat, d: seq<nat>, longest: nat, deep: nat, a: nat, b: nat)
    returns (e: seq<nat>)
    requires Grown(p, w, kids, alpha, m) && alpha <= y < m && Fills(p, y, d, longest) && longest > 0
    requires y + 1 < |kids| && kids[y + 1] == (a, b) && Live(p, y, deep) && d[deep] == longest
    ensures Fills(p, y, e, longest) && Total(Costs(p, w, y, e), y) <= Total(Costs(p, w, y, d), y)
    ensures a < |e| && b < |e| && e[a] == longest && e[b] == longest
  {
    hide W, Fills, Live;
    PairFacts(p, w, kids, alpha, m, y);
    LiveBounds(p, y);
    FillsBounds(p, y, d, longest);
    var u := deep;
    if u == b { u := AnotherDeepest(p, y, d, longest, b); }
    if d[a] == longest { u := a; }
    Exchange(p, w, y, d, longest, a, u);
    var f := Swapped(d, a, u);
    FillsBounds(p, y, f, longest);
    var v := AnotherDeepest(p, y, f, longest, a);
    Exchange(p, w, y, f, longest, b, v);
    e := Swapped(f, b, v);
    FillsBounds(p, y, e, longest);
  }

  lemma LiveBounds(p: seq<int>, y: nat)
    ensures forall x: nat :: Live(p, y, x) ==> 1 <= x <= y && x < |p|
  {}

  lemma FillsBounds(p: seq<int>, y: nat, d: seq<nat>, longest: nat)
    requires Fills(p, y, d, longest)
    ensures y < |p| == |d| && forall x: nat :: Live(p, y, x) ==> d[x] <= longest
  {}

  /** No depths cost less than the trees still to be made. */
  lemma {:induction false} LowerBound(p: seq<int>, w: seq<nat>, kids: seq<(nat, nat)>, alpha: nat, m: nat, y: nat, d: seq<nat>, longest: nat)
    requires Grown(p, w, kids, alpha, m) && alpha <= y <= m && Fills(p, y, d, longest)
    ensures Total(Costs(p, w, y, d), y) >= Inner(w, y, m)
    decreases m - y, longest
  {
    if y < m {
      hide W, Fills, Live, Grown;
      GrownSizes(p, w, kids, alpha, m);
      LiveBounds(p, y);
      FillsBounds(p, y, d, longest);
      PairFacts(p, w, kids, alpha, m, y);
      var (a, b) := kids[y + 1];
      Positive(p, y, d, longest, a, b);
      if deep: nat :| Live(p, y, deep) && d[deep] == longest {
        var e := Deepened(p, w, kids, alpha, m, y, d, longest, deep, a, b);
        FillsBounds(p, y, e, longest);
        Merged(p, w, kids, alpha, m, y, e, longest, a, b);
        LowerBound(p, w, kids, alpha, m, y + 1, e[y + 1 := longest - 1], longest);
      } else {
        Lowered(p, y, d, longest);
        LowerBound(p, w, kids, alpha, m, y, d, longest - 1);
      }
    }
  }

  lemma GrownSizes(p: seq<int>, w: seq<nat>, kids: seq<(nat, nat)>, alpha: nat, m: nat)
    requires Grown(p, w, kids, alpha, m)
    ensures m < |p| == |kids| <= |w|
  {}

  // ----- the tree itself -----

  function TreeDepths(p: seq<int>): (d: seq<nat>)
    ensures |d| == |p|
  {
    seq(|p|, x requires 0 <= x < |p| => Depth(p, x))
  }

  /** Its own depths cost exactly that. */
  lemma {:induction false} TreeCost(p: seq<int>, w: seq<nat>, kids: seq<(nat, nat)>, alpha: nat, m: nat, y: nat)
    requires Grown(p, w, kids, alpha, m) && alpha <= y <= m
    ensures Total(Costs(p, w, y, TreeDepths(p)), y) == Inner(w, y, m)
    decreases m - y
  {
    hide W, Depth, Costs, Live, Grown;
    GrownSizes(p, w, kids, alpha, m);
    var d := TreeDepths(p);
    if y == m {
      TreeEnds(p, w, kids, alpha, m);
    } else {
      TreeCost(p, w, kids, alpha, m, y + 1);
      PairFacts(p, w, kids, alpha, m, y);
      LiveBounds(p, y);
      var (a, b) := kids[y + 1];
      OneDeeper(p, a);
      OneDeeper(p, b);
      NextCosts(p, w, kids, alpha, m, y, d, d);
      CostAt(p, w, y, d, a);
      CostAt(p, w, y, d, b);
      Replaced(Costs(p, w, y, d), Costs(p, w, y + 1, d), y, a, b, W(w[y + 1]) * d[y + 1]);
      Shared(W(w[a]), W(w[b]), 1 + d[y + 1]);
    }
  }

  lemma TreeEnds(p: seq<int>, w: seq<nat>, kids: seq<(nat, nat)>, alpha: nat, m: nat)
    requires Grown(p, w, kids, alpha, m)
    ensures Total(Costs(p, w, m, TreeDepths(p)), m) == 0
  {
    assert p[m] == -1;
    RootOnly(p, w, m);
  }

  lemma OneDeeper(p: seq<int>, x: nat)
    requires x < |p| && x < p[x] < |p|
    ensures Depth(p, x) == 1 + Depth(p, p[x])
  {}

  lemma RootOnly(p: seq<int>, w: seq<nat>, m: nat)
    requires SingleRoot(p, m) && |p| <= |w| && (forall x :: 1 <= x <= m ==> p[x] == -1 || p[x] <= m) && p[m] == -1
    ensures Total(Costs(p, w, m, TreeDepths(p)), m) == 0
  {
    var c := Costs(p, w, m, TreeDepths(p));
    assert Depth(p, m) == 0;
    forall x | 0 < x <= m ensures c[x] == 0 { if x == m { assert c[m] == W(w[m]) * 0; } }
    TotalNothing(c, 0, m);
  }

  // ----- code lengths -----

  /** A code in which nothing can be added or shortened. */
  ghost predicate Complete(len: seq<nat>) {
    exists m: nat :: LengthsIn(len, 1, m) && KraftSum(len, m) == Pow2(m)
  }

  /** The length of a text in which symbol i occurs ws[i] times. */
  function WeightedLength(ws: seq<nat>, len: seq<nat>): nat
    requires |ws| == |len|
  {
    if ws == [] then 0 else WeightedLength(ws[..|ws| - 1], len[..|len| - 1]) + ws[|ws| - 1] * len[|len| - 1]
  }

  /** No complete code makes it shorter. */
  ghost predicate Optimal(ws: seq<nat>, len: seq<nat>) {
    |ws| == |len| && Complete(len) &&
    forall other: seq<nat> :: |other| == |ws| && Complete(other) ==> WeightedLength(ws, len) <= WeightedLength(ws, other)
  }

  lemma {:induction false} LengthUpdate(ws: seq<nat>, len: seq<nat>, i: nat, v: nat)
    requires |ws| == |len| && i < |len|
    ensures WeightedLength(ws, len[i := v]) + ws[i] * len[i] == WeightedLength(ws, len) + ws[i] * v
  {
    var n := |len| - 1;
    if i == n {
      assert len[i := v][..n] == len[..n];
    } else {
      LengthUpdate(ws[..n], len[..n], i, v);
      assert len[i := v][..n] == len[..n][i := v];
    }
  }

  lemma {:induction false} KraftUpdate(len: seq<nat>, m: nat, i: nat, v: nat)
    requires i < |len| && 1 <= len[i] <= m && 1 <= v <= m
    ensures KraftSum(len[i := v], m) + Pow2(m - len[i]) == KraftSum(len, m) + Pow2(m - v)
  {
    var n := |len| - 1;
    if i == n {
      assert len[i := v][..n] == len[..n];
    } else {
      KraftUpdate(len[..n], m, i, v);
      assert len[i := v][..n] == len[..n][i := v];
    }
  }

  lemma SwapComplete(len: seq<nat>, i: nat, j: nat)
    requires Complete(len) && i < |len| && j < |len| && i != j
    ensures Complete(len[i := len[j]][j := len[i]])
  {
    hide KraftSum, Complete, Pow2;
    var m := Bound(len);
    KraftUpdate(len, m, i, len[j]);
    KraftUpdate(len[i := len[j]], m, j, len[i]);
    Witness(len[i := len[j]][j := len[i]], m);
  }

  lemma SwapLength(ws: seq<nat>, len: seq<nat>, i: nat, j: nat)
    requires |ws| == |len| && i < |len| && j < |len| && i != j && ws[i] > ws[j] && len[i] > len[j]
    ensures WeightedLength(ws, len[i := len[j]][j := len[i]]) < WeightedLength(ws, len)
  {
    hide WeightedLength;
    LengthUpdate(ws, len, i, len[j]);
    LengthUpdate(ws, len[i := len[j]], j, len[i]);
    Cheaper(ws[i], ws[j], len[i], len[j]);
  }

  /** A heavier symbol never has the longer code. */
  lemma HeavierShorter(ws: seq<nat>, len: seq<nat>, i: nat, j: nat)
    requires Optimal(ws, len) && i < |len| && j < |len| && ws[i] > ws[j]
    ensures len[i] <= len[j]
  {
    hide Optimal, WeightedLength, Complete;
    if len[i] > len[j] {
      OptimalFacts(ws, len);
      SwapComplete(len, i, j);
      SwapLength(ws, len, i, j);
      NoBetter(ws, len, len[i := len[j]][j := len[i]]);
    }
  }

  lemma OptimalFacts(ws: seq<nat>, len: seq<nat>)
    requires Optimal(ws, len)
    ensures |ws| == |len| && Complete(len)
  {}

  lemma NoBetter(ws: seq<nat>, len: seq<nat>, other: seq<nat>)
    requires Optimal(ws, len) && |other| == |ws| && Complete(other)
    ensures |ws| == |len| && WeightedLength(ws, len) <= WeightedLength(ws, other)
  {}

  lemma Bound(len: seq<nat>) returns (m: nat)
    requires Complete(len)
    ensures LengthsIn(len, 1, m) && KraftSum(len, m) == Pow2(m)
  {
    m :| LengthsIn(len, 1, m) && KraftSum(len, m) == Pow2(m);
  }

  lemma Witness(len: seq<nat>, m: nat)
    requires LengthsIn(len, 1, m) && KraftSum(len, m) == Pow2(m)
    ensures Complete(len)
  {}

  lemma Cheaper(x: nat, y: nat, m: nat, n: nat)
    requires x > y && m > n
    ensures x * n + y * m < x * m + y * n
  {
    assert (x - y) * (m - n) > 0;
  }

  // ----- leaves -----

  /** Weights proper of the leaves. */
  function Weights(w: seq<nat>, alpha: nat): (ws: seq<nat>)
    requires alpha < |w|
    ensures |ws| == alpha
  {
    seq(alpha, i requires 0 <= i < alpha => W(w[i + 1]))
  }

  /** Lengths as depths of the leaves. */
  function AtLeaves(len: seq<nat>, n: nat): (d: seq<nat>)
    requires |len| < n
    ensures |d| == n
  {
    [0] + len + seq(n - 1 - |len|, _ => 0)
  }

  lemma {:induction false} LeafSpaces(p: seq<int>, kids: seq<(nat, nat)>, alpha: nat, m: nat, d: seq<nat>, len: seq<nat>, longest: nat, k: nat)
    requires Shape(p, kids, alpha, m) && |d| == |p| && |len| == alpha && k <= alpha && LengthsIn(len, 1, longest)
    requires forall i :: 0 <= i < alpha ==> d[i + 1] == len[i]
    ensures Total(Spaces(p, alpha, d, longest), k) == KraftSum(len[..k], longest)
  {
    if k == 0 {
      assert len[..0] == [];
    } else {
      LeafSpaces(p, kids, alpha, m, d, len, longest, k - 1);
      assert len[..k][..k - 1] == len[..k - 1];
      assert d[k] == len[k - 1];
    }
  }

  lemma {:induction false} LeafCosts(p: seq<int>, w: seq<nat>, kids: seq<(nat, nat)>, alpha: nat, m: nat, d: seq<nat>, len: seq<nat>, k: nat)
    requires Shape(p, kids, alpha, m) && |d| == |p| <= |w| && |len| == alpha && k <= alpha
    requires forall i :: 0 <= i < alpha ==> d[i + 1] == len[i]
    ensures Total(Costs(p, w, alpha, d), k) == WeightedLength(Weights(w, alpha)[..k], len[..k])
  {
    hide W;
    if k > 0 {
      LeafCosts(p, w, kids, alpha, m, d, len, k - 1);
      assert len[..k][..k - 1] == len[..k - 1];
      assert Weights(w, alpha)[..k][..k - 1] == Weights(w, alpha)[..k - 1];
      assert d[k] == len[k - 1] && Weights(w, alpha)[k - 1] == W(w[k]);
    }
  }

  /** No complete code is better than the tree. */
  lemma AnyCosts(p: seq<int>, w: seq<nat>, kids: seq<(nat, nat)>, alpha: nat, m: nat, other: seq<nat>)
    requires Grown(p, w, kids, alpha, m) && |other| == alpha && Complete(other)
    ensures alpha < |w| && WeightedLength(Weights(w, alpha), other) >= Inner(w, alpha, m)
  {
    hide W, Costs, Spaces, Complete;
    var longest := Bound(other);
    var d := AtLeaves(other, |p|);
    LeafSpaces(p, kids, alpha, m, d, other, longest, alpha);
    LeafCosts(p, w, kids, alpha, m, d, other, alpha);
    assert other[..alpha] == other && Weights(w, alpha)[..alpha] == Weights(w, alpha);
    LowerBound(p, w, kids, alpha, m, alpha, d, longest);
  }

  /** The depths of the leaves of the tree are an optimal code. */
  lemma TreeOptimal(p: seq<int>, w: seq<nat>, kids: seq<(nat, nat)>, alpha: nat, m: nat, len: seq<nat>)
    requires Grown(p, w, kids, alpha, m) && |len| == alpha && Complete(len)
    requires forall i :: 0 <= i < alpha ==> len[i] == Depth(p, i + 1)
    ensures alpha < |w| && Optimal(Weights(w, alpha), len)
  {
    hide W, Costs, Complete, WeightedLength, Inner;
    LeafCosts(p, w, kids, alpha, m, TreeDepths(p), len, alpha);
    TreeCost(p, w, kids, alpha, m, alpha);
    assert len[..alpha] == len && Weights(w, alpha)[..alpha] == Weights(w, alpha);
    forall other: seq<nat> | |other| == alpha && Complete(other)
      ensures WeightedLength(Weights(w, alpha), len) <= WeightedLength(Weights(w, alpha), other)
    {
      AnyCosts(p, w, kids, alpha, m, other);
    }
  }
}
