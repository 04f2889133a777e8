/** The forest built by joining lightest trees: node x has parent p[x] and weight w[x], leaves are
    1..alpha, and kids records the two children of every inner node. */
module HuffmanForest {
  import opened Words

  /** Weight proper, above the low byte. */
  function W(x: nat): nat { x / 256 }

  /** Depth of the tree, in the low byte. */
  function D(x: nat): nat { x % 256 }

  function Max(a: nat, b: nat): nat { if a > b then a else b }

  /** Weights add; the joined tree is one deeper than the deeper of the two. */
  function AddWeights(a: nat, b: nat): nat {
    Or((a - D(a)) + (b - D(b)), 1 + Max(D(a), D(b)))
  }

  lemma AddWeightsParts(a: nat, b: nat)
    requires D(a) < 255 && D(b) < 255
    ensures W(AddWeights(a, b)) == W(a) + W(b)
    ensures D(AddWeights(a, b)) == 1 + Max(D(a), D(b))
  {
    assert (a - D(a)) + (b - D(b)) == (W(a) + W(b)) * 256;
    OrByte(1 + Max(D(a), D(b)), W(a) + W(b));
  }

  /** Least weight of a tree of depth d: 1, 2, 3, 5, 8, ... */
  function Fib(d: nat): (r: nat)
    ensures r >= 1
  {
    if d == 0 then 1 else if d == 1 then 2 else Fib(d - 1) + Fib(d - 2)
  }

  lemma {:induction false} FibMono(a: nat, b: nat)
    requires a <= b
    ensures Fib(a) <= Fib(b)
  {
    if a < b { FibMono(a, b - 1); }
  }

  lemma FibValues()
    ensures Fib(13) == 610 && Fib(33) > 0x80_0000
  {
    assert Fib(7) == 34 && Fib(8) == 55;
    assert Fib(9) == 89 && Fib(10) == 144;
    assert Fib(11) == 233 && Fib(12) == 377;
    assert Fib(13) == 610 && Fib(14) == 987;
    assert Fib(15) == 1597 && Fib(16) == 2584;
    assert Fib(17) == 4181 && Fib(18) == 6765;
    assert Fib(19) == 10946 && Fib(20) == 17711;
    assert Fib(21) == 28657 && Fib(22) == 46368;
    assert Fib(23) == 75025 && Fib(24) == 121393;
    assert Fib(25) == 196418 && Fib(26) == 317811;
    assert Fib(27) == 514229 && Fib(28) == 832040;
    assert Fib(29) == 1346269 && Fib(30) == 2178309;
    assert Fib(31) == 3524578 && Fib(32) == 5702887;
    assert Fib(33) == 9227465;
  }

  // ----- the forest -----

  ghost predicate IsRoot(p: seq<int>, m: nat, x: int)
    requires m < |p|
  {
    1 <= x <= m && p[x] == -1
  }

  /** Parents lie above their children; the children of inner node y are exactly kids[y]. */
  ghost predicate Shape(p: seq<int>, kids: seq<(nat, nat)>, alpha: nat, m: nat) {
    1 <= alpha <= m && m < |p| == |kids| &&
    (forall x :: 1 <= x <= m ==> p[x] == -1 || (x < p[x] <= m && alpha < p[x] && (kids[p[x]].0 == x || kids[p[x]].1 == x))) &&
    (forall y :: alpha < y <= m ==> Couple(p, kids, y))
  }

  ghost predicate Couple(p: seq<int>, kids: seq<(nat, nat)>, y: nat)
    requires y < |p| && y < |kids|
  {
    var (a, b) := kids[y];
    1 <= a < y && 1 <= b < y && a != b && p[a] == y && p[b] == y
  }

  /** Inner nodes weigh what their children do; leaves have depth 0; no tree is lighter than its depth allows. */
  ghost predicate Weighted(w: seq<nat>, kids: seq<(nat, nat)>, alpha: nat, m: nat) {
    m < |w| && m < |kids| &&
    (forall y :: alpha < y <= m ==> Sums(w, kids, y)) &&
    (forall x :: 1 <= x <= alpha && x <= m ==> D(w[x]) == 0) &&
    (forall x :: 1 <= x <= m ==> W(w[x]) >= Fib(D(w[x])))
  }

  ghost predicate Sums(w: seq<nat>, kids: seq<(nat, nat)>, y: nat)
    requires y < |w| && y < |kids|
  {
    var (a, b) := kids[y];
    a < y && b < y && W(w[y]) == W(w[a]) + W(w[b]) && D(w[y]) == 1 + Max(D(w[a]), D(w[b]))
  }

  /** No root is lighter than a child of another root. */
  ghost predicate Spread(p: seq<int>, w: seq<nat>, m: nat) {
    m < |p| && m < |w| &&
    forall v, q :: 1 <= v <= m && IsRoot(p, m, q) && 0 <= p[v] < |p| && p[p[v]] == -1 && p[v] != q ==>
      W(w[q]) >= W(w[v])
  }

  /** Weight of all roots up to node k. */
  ghost function RootSum(p: seq<int>, w: seq<nat>, k: nat): nat
    requires k < |p| && k < |w|
  {
    if k == 0 then 0 else RootSum(p, w, k - 1) + if p[k] == -1 then W(w[k]) else 0
  }

  lemma {:induction false} RootSumSame(p: seq<int>, w: seq<nat>, p': seq<int>, w': seq<nat>, k: nat)
    requires k < |p| && k < |w| && k < |p'| && k < |w'|
    requires forall x :: 1 <= x <= k ==> p[x] == p'[x] && w[x] == w'[x]
    ensures RootSum(p, w, k) == RootSum(p', w', k)
  {
    if k > 0 { RootSumSame(p, w, p', w', k - 1); }
  }

  lemma {:induction false} RootSumDrop(p: seq<int>, w: seq<nat>, k: nat, x: nat, v: nat)
    requires k < |p| && k < |w| && 1 <= x <= k && p[x] == -1
    ensures RootSum(p, w, k) == RootSum(p[x := v], w, k) + W(w[x])
  {
    if x == k { RootSumSame(p, w, p[x := v], w, k - 1); } else { RootSumDrop(p, w, k - 1, x, v); }
  }

  lemma {:induction false} RootSumHolds(p: seq<int>, w: seq<nat>, k: nat, x: nat)
    requires k < |p| && k < |w| && 1 <= x <= k && p[x] == -1
    ensures RootSum(p, w, k) >= W(w[x])
  {
    RootSumDrop(p, w, k, x, 0);
  }

  /** When node y was made, no other root was lighter than its children. */
  ghost predicate Greedy(p: seq<int>, w: seq<nat>, kids: seq<(nat, nat)>, alpha: nat, m: nat) {
    m < |p| && m < |w| && m < |kids| && forall y :: alpha < y <= m ==> Lighter(p, w, kids, y)
  }

  ghost predicate Lighter(p: seq<int>, w: seq<nat>, kids: seq<(nat, nat)>, y: nat)
    requires y < |p| && y < |w| && y < |kids|
  {
    var (a, b) := kids[y];
    a < y && b < y &&
    forall x :: 1 <= x < y && (p[x] == -1 || p[x] >= y) && x != a && x != b ==> W(w[a]) <= W(w[x]) && W(w[b]) <= W(w[x])
  }

  /** Everything known of the forest. */
  ghost predicate Forest(p: seq<int>, w: seq<nat>, kids: seq<(nat, nat)>, alpha: nat, m: nat, total: nat) {
    Shape(p, kids, alpha, m) && Weighted(w, kids, alpha, m) && Spread(p, w, m) && Greedy(p, w, kids, alpha, m) &&
    RootSum(p, w, m) == total < 0x80_0000
  }

  lemma DepthSmall(x: nat)
    requires Fib(D(x)) <= W(x) < 0x80_0000
    ensures D(x) <= 32
  {
    hide Fib;
    FibValues();
    if D(x) >= 33 { FibMono(33, D(x)); }
  }

  /** Two roots no heavier than any other. */
  ghost predicate Lightest(p: seq<int>, w: seq<nat>, m: nat, a: nat, b: nat) {
    m < |p| && m < |w| && IsRoot(p, m, a) && IsRoot(p, m, b) && a != b &&
    forall q :: IsRoot(p, m, q) && q != a && q != b ==> w[a] <= w[q] && w[b] <= w[q]
  }

  function Joined(p: seq<int>, a: nat, b: nat, n: nat): seq<int>
    requires a < |p| && b < |p| && n < |p|
  {
    p[a := n][b := n][n := -1]
  }

  lemma JoinShape(p: seq<int>, kids: seq<(nat, nat)>, alpha: nat, m: nat, a: nat, b: nat)
    requires Shape(p, kids, alpha, m) && m + 1 < |p| && IsRoot(p, m, a) && IsRoot(p, m, b) && a != b
    ensures Shape(Joined(p, a, b, m + 1), kids[m + 1 := (a, b)], alpha, m + 1)
  {
    var p', kids' := Joined(p, a, b, m + 1), kids[m + 1 := (a, b)];
    forall y | alpha < y <= m + 1 ensures Couple(p', kids', y) {
      if y <= m { assert Couple(p, kids, y); }
    }
  }

  /** A deep root and another: the other is no lighter than the deeper child of the first. */
  lemma JoinFib(p: seq<int>, w: seq<nat>, kids: seq<(nat, nat)>, alpha: nat, m: nat, a: nat, b: nat)
    requires Shape(p, kids, alpha, m) && Weighted(w, kids, alpha, m) && Spread(p, w, m)
    requires IsRoot(p, m, a) && IsRoot(p, m, b) && a != b
    ensures W(w[a]) + W(w[b]) >= Fib(D(w[a]) + 1)
  {
    if a > alpha {
      assert Sums(w, kids, a) && Couple(p, kids, a);
      var v := if D(w[kids[a].0]) > D(w[kids[a].1]) then kids[a].0 else kids[a].1;
      assert D(w[a]) == D(w[v]) + 1 && p[v] == a;
      assert W(w[b]) >= W(w[v]) >= Fib(D(w[v]));
    } else {
      assert D(w[a]) == 0;
    }
  }

  lemma JoinWeighted(p: seq<int>, w: seq<nat>, kids: seq<(nat, nat)>, alpha: nat, m: nat, a: nat, b: nat, total: nat)
    requires Forest(p, w, kids, alpha, m, total) && m + 1 < |w| && m + 1 < |kids|
    requires IsRoot(p, m, a) && IsRoot(p, m, b) && a != b
    ensures W(AddWeights(w[a], w[b])) == W(w[a]) + W(w[b])
    ensures D(AddWeights(w[a], w[b])) == 1 + Max(D(w[a]), D(w[b])) <= 33
    ensures Weighted(w[m + 1 := AddWeights(w[a], w[b])], kids[m + 1 := (a, b)], alpha, m + 1)
  {
    hide W, D, Fib, AddWeights, RootSum;
    RootSumHolds(p, w, m, a);
    RootSumHolds(p, w, m, b);
    DepthSmall(w[a]);
    DepthSmall(w[b]);
    AddWeightsParts(w[a], w[b]);
    JoinFib(p, w, kids, alpha, m, a, b);
    JoinFib(p, w, kids, alpha, m, b, a);
    var w', kids' := w[m + 1 := AddWeights(w[a], w[b])], kids[m + 1 := (a, b)];
    forall y | alpha < y <= m + 1 ensures Sums(w', kids', y) {
      if y <= m {
        assert Sums(w, kids, y);
        assert kids'[y] == kids[y];
      } else {
        assert kids'[y] == (a, b) && w'[a] == w[a] && w'[b] == w[b];
      }
    }
  }

  lemma JoinSpread(p: seq<int>, w: seq<nat>, kids: seq<(nat, nat)>, alpha: nat, m: nat, a: nat, b: nat, v: nat)
    requires Shape(p, kids, alpha, m) && Spread(p, w, m) && m + 1 < |p| && m + 1 < |w| && Lightest(p, w, m, a, b)
    requires W(v) == W(w[a]) + W(w[b])
    ensures Spread(Joined(p, a, b, m + 1), w[m + 1 := v], m + 1)
  {
    var p', w' := Joined(p, a, b, m + 1), w[m + 1 := v];
    forall x, q | 1 <= x <= m + 1 && IsRoot(p', m + 1, q) && 0 <= p'[x] < |p'| && p'[p'[x]] == -1 && p'[x] != q
      ensures W(w'[q]) >= W(w'[x])
    {
      if x == a || x == b {
        assert IsRoot(p, m, q) && q != a && q != b;
      } else if q == m + 1 {
        var r := p[x];
        assert p'[x] == r && IsRoot(p, m, a) && IsRoot(p, m, b);
        assert r != a && W(w[a]) >= W(w[x]);
      } else {
        assert IsRoot(p, m, q);
      }
    }
  }

  lemma JoinRootSum(p: seq<int>, w: seq<nat>, m: nat, a: nat, b: nat, v: nat)
    requires m + 1 < |p| && m + 1 < |w| && IsRoot(p, m, a) && IsRoot(p, m, b) && a != b
    requires W(v) == W(w[a]) + W(w[b])
    ensures RootSum(Joined(p, a, b, m + 1), w[m + 1 := v], m + 1) == RootSum(p, w, m)
  {
    RootSumDrop(p, w, m, a, m + 1);
    RootSumDrop(p[a := m + 1], w, m, b, m + 1);
    RootSumSame(p[a := m + 1][b := m + 1], w, Joined(p, a, b, m + 1), w[m + 1 := v], m);
  }

  lemma JoinGreedy(p: seq<int>, w: seq<nat>, kids: seq<(nat, nat)>, alpha: nat, m: nat, a: nat, b: nat, v: nat)
    requires Shape(p, kids, alpha, m) && Greedy(p, w, kids, alpha, m) && m + 1 < |p| && m + 1 < |w| && Lightest(p, w, m, a, b)
    ensures Greedy(Joined(p, a, b, m + 1), w[m + 1 := v], kids[m + 1 := (a, b)], alpha, m + 1)
  {
    var p', w', kids' := Joined(p, a, b, m + 1), w[m + 1 := v], kids[m + 1 := (a, b)];
    forall y | alpha < y <= m + 1 ensures Lighter(p', w', kids', y) {
      if y <= m {
        assert Lighter(p, w, kids, y) && kids'[y] == kids[y];
      } else {
        forall x | 1 <= x < y && (p'[x] == -1 || p'[x] >= y) && x != a && x != b
          ensures W(w'[a]) <= W(w'[x]) && W(w'[b]) <= W(w'[x])
        {
          assert IsRoot(p, m, x);
        }
      }
    }
  }

  lemma Join(p: seq<int>, w: seq<nat>, kids: seq<(nat, nat)>, alpha: nat, m: nat, a: nat, b: nat, total: nat)
    requires Forest(p, w, kids, alpha, m, total) && m + 1 < |p| && m + 1 < |w| && Lightest(p, w, m, a, b)
    ensures Forest(Joined(p, a, b, m + 1), w[m + 1 := AddWeights(w[a], w[b])], kids[m + 1 := (a, b)], alpha, m + 1, total)
  {
    hide Fib, AddWeights, Joined, RootSum, Spread, Shape, Weighted, IsRoot, Greedy, Lighter;
    ForestFacts(p, w, kids, alpha, m, total);
    JoinShape(p, kids, alpha, m, a, b);
    JoinWeighted(p, w, kids, alpha, m, a, b, total);
    JoinSpread(p, w, kids, alpha, m, a, b, AddWeights(w[a], w[b]));
    JoinRootSum(p, w, m, a, b, AddWeights(w[a], w[b]));
    JoinGreedy(p, w, kids, alpha, m, a, b, AddWeights(w[a], w[b]));
  }

  lemma ForestFacts(p: seq<int>, w: seq<nat>, kids: seq<(nat, nat)>, alpha: nat, m: nat, total: nat)
    requires Forest(p, w, kids, alpha, m, total)
    ensures m < |p| == |kids| && m < |w| && 1 <= alpha <= m
    ensures forall x :: IsRoot(p, m, x) ==> 1 <= x <= m
  {}

  // ----- depths in the finished tree -----

  /** Links from a node to the root above it. */
  function Depth(p: seq<int>, x: nat): nat
    decreases |p| - x
  {
    if x < |p| && x < p[x] < |p| then 1 + Depth(p, p[x]) else 0
  }

  /** Only node m has no parent. */
  ghost predicate SingleRoot(p: seq<int>, m: nat) {
    1 <= m < |p| && forall x :: 1 <= x <= m && p[x] == -1 ==> x == m
  }

  lemma {:induction false} DepthBound(p: seq<int>, w: seq<nat>, kids: seq<(nat, nat)>, alpha: nat, m: nat, x: nat)
    requires Shape(p, kids, alpha, m) && Weighted(w, kids, alpha, m) && SingleRoot(p, m) && 1 <= x <= m
    ensures Depth(p, x) + D(w[x]) <= D(w[m])
    decreases m - x
  {
    if p[x] != -1 {
      DepthBound(p, w, kids, alpha, m, p[x]);
      assert Sums(w, kids, p[x]);
    }
  }

  lemma {:induction false} NoRootBelow(p: seq<int>, w: seq<nat>, k: nat)
    requires k < |p| && k < |w| && forall x :: 1 <= x <= k ==> p[x] != -1
    ensures RootSum(p, w, k) == 0
  {
    if k > 0 { NoRootBelow(p, w, k - 1); }
  }

  /** No leaf is deeper than the total weight allows. */
  lemma TreeDepth(p: seq<int>, w: seq<nat>, kids: seq<(nat, nat)>, alpha: nat, m: nat, total: nat, x: nat)
    requires Forest(p, w, kids, alpha, m, total) && SingleRoot(p, m) && 1 <= x <= m
    ensures Depth(p, x) <= 32 && Fib(Depth(p, x)) <= total
  {
    hide Fib;
    DepthBound(p, w, kids, alpha, m, x);
    NoRootBelow(p, w, m - 1);
    assert RootSum(p, w, m) == RootSum(p, w, m - 1) + if p[m] == -1 then W(w[m]) else 0;
    assert p[m] == -1;
    DepthSmall(w[m]);
    FibMono(Depth(p, x), D(w[m]));
  }

  // ----- the Kraft sum of the finished tree -----

  /** 2^(32 - depth) over the nodes up to k whose parent lies above m: the tree cut at node m. */
  ghost function Cut(p: seq<int>, m: nat, k: nat): nat
    requires k < |p|
  {
    if k == 0 then 0
    else Cut(p, m, k - 1) + if p[k] == -1 || p[k] > m then Share(p, k) else 0
  }

  /** 2^(32 - depth). */
  ghost function Share(p: seq<int>, x: nat): nat {
    if Depth(p, x) <= 32 then Pow2(32 - Depth(p, x)) else 0
  }

  /** Replacing inner node m in the cut by its two children. */
  lemma {:induction false} CutStep(p: seq<int>, kids: seq<(nat, nat)>, alpha: nat, n: nat, m: nat, k: nat)
    requires Shape(p, kids, alpha, n) && alpha < m <= n && k < m && Depth(p, m) < 32
    ensures Cut(p, m - 1, k) == Cut(p, m, k) + (if kids[m].0 <= k then Pow2(31 - Depth(p, m)) else 0)
                                             + (if kids[m].1 <= k then Pow2(31 - Depth(p, m)) else 0)
  {
    assert Couple(p, kids, m);
    if k > 0 {
      CutStep(p, kids, alpha, n, m, k - 1);
      if p[k] == m {
        assert Depth(p, k) == 1 + Depth(p, m);
        assert kids[m].0 == k || kids[m].1 == k;
      } else {
        assert kids[m].0 != k && kids[m].1 != k;
      }
    }
  }

  /** The cut always weighs as much as the root alone. */
  lemma {:induction false} CutWhole(p: seq<int>, kids: seq<(nat, nat)>, alpha: nat, n: nat, m: nat)
    requires Shape(p, kids, alpha, n) && SingleRoot(p, n) && alpha <= m <= n
    requires forall x :: 1 <= x <= n ==> Depth(p, x) <= 32
    ensures Cut(p, m, m) == Pow2(32)
    decreases n - m
  {
    hide Pow2;
    if m == n {
      CutNone(p, n, n - 1);
      assert p[n] == -1;
    } else {
      CutWhole(p, kids, alpha, n, m + 1);
      CutNext(p, kids, alpha, n, m + 1);
    }
  }

  lemma CutNext(p: seq<int>, kids: seq<(nat, nat)>, alpha: nat, n: nat, y: nat)
    requires Shape(p, kids, alpha, n) && alpha < y <= n
    requires forall x :: 1 <= x <= n ==> Depth(p, x) <= 32
    ensures Cut(p, y, y) == Cut(p, y - 1, y - 1)
  {
    assert Couple(p, kids, y);
    var a := kids[y].0;
    assert Depth(p, a) == 1 + Depth(p, y);
    CutStep(p, kids, alpha, n, y, y - 1);
    assert Cut(p, y, y) == Cut(p, y, y - 1) + Share(p, y);
    assert Pow2(32 - Depth(p, y)) == 2 * Pow2(31 - Depth(p, y));
  }

  lemma {:induction false} CutNone(p: seq<int>, n: nat, k: nat)
    requires k < n < |p| && forall x :: 1 <= x <= k ==> 0 <= p[x] <= n
    ensures Cut(p, n, k) == 0
  {
    if k > 0 { CutNone(p, n, k - 1); }
  }
}
