/** Length-limited Huffman codes: build the tree, read off the depths, and flatten the weights and retry
    while some code is too long. */
module HuffmanLengths {
  import opened Words
  import opened Codes
  import opened HuffmanHeap
  import opened HuffmanForest
  import O = HuffmanOptimal

  // ----- roots of the forest and contents of the heap -----

  ghost function Roots(p: seq<int>, m: nat): set<nat>
    requires m < |p|
  {
    set x: nat | x <= m && IsRoot(p, m, x)
  }

  ghost function RootBag(p: seq<int>, m: nat): multiset<nat>
    requires m < |p|
  {
    multiset(Roots(p, m))
  }

  lemma RootsNext(p: seq<int>, i: nat)
    requires 1 <= i < |p|
    ensures Roots(p[i := -1], i) == Roots(p, i - 1) + {i}
    ensures RootBag(p[i := -1], i) == RootBag(p, i - 1) + multiset{i}
  {
    assert i !in Roots(p, i - 1);
    var r := Roots(p[i := -1], i);
    forall x: nat ensures x in r <==> x in Roots(p, i - 1) + {i} {
      assert IsRoot(p[i := -1], i, x) <==> x == i || IsRoot(p, i - 1, x);
    }
  }

  lemma SwapMembers(r: set<nat>, s: set<nat>, a: nat, b: nat, c: nat)
    requires a in r && b in r && a != b && c !in r && s == r - {a, b} + {c}
    ensures multiset(s) == multiset(r) - multiset{a} - multiset{b} + multiset{c}
  {}

  lemma RootsJoined(p: seq<int>, m: nat, a: nat, b: nat)
    requires m + 1 < |p| && a in Roots(p, m) && b in Roots(p, m) && a != b
    ensures RootBag(Joined(p, a, b, m + 1), m + 1) == RootBag(p, m) - multiset{a} - multiset{b} + multiset{m + 1}
    ensures m + 1 in Roots(Joined(p, a, b, m + 1), m + 1)
  {
    RootsBelow(p, m);
    assert |Joined(p, a, b, m + 1)| == |p|;
    hide Joined, IsRoot, Roots;
    var s := Roots(Joined(p, a, b, m + 1), m + 1);
    forall x: nat ensures x in s <==> x in Roots(p, m) - {a, b} + {m + 1} { RootJoined(p, m, a, b, x); }
    SwapMembers(Roots(p, m), s, a, b, m + 1);
  }

  lemma RootsBelow(p: seq<int>, m: nat)
    requires m < |p|
    ensures forall x :: x in Roots(p, m) ==> 1 <= x <= m
  {}

  lemma RootJoined(p: seq<int>, m: nat, a: nat, b: nat, x: nat)
    requires m + 1 < |p| && a in Roots(p, m) && b in Roots(p, m) && a != b
    ensures x in Roots(Joined(p, a, b, m + 1), m + 1) <==> x == m + 1 || (x in Roots(p, m) && x != a && x != b)
  {
    var q := Joined(p, a, b, m + 1);
    assert IsRoot(p, m, a) && IsRoot(p, m, b);
    assert x in Roots(q, m + 1) <==> x <= m + 1 && IsRoot(q, m + 1, x);
    assert x in Roots(p, m) <==> x <= m && IsRoot(p, m, x);
  }

  /** Two nodes popped in turn are distinct roots no heavier than the rest. */
  lemma PoppedLightest(p: seq<int>, w: seq<nat>, m: nat, all: multiset<nat>, a: nat, b: nat)
    requires m < |p| && m < |w| && all == RootBag(p, m) && a in all && b in all - multiset{a}
    requires forall x :: x in all ==> x < |w| && w[a] <= w[x]
    requires forall x :: x in all - multiset{a} ==> x < |w| && w[b] <= w[x]
    ensures Lightest(p, w, m, a, b) && a in Roots(p, m) && b in Roots(p, m)
  {
    assert a in Roots(p, m) && b in Roots(p, m);
    forall q | IsRoot(p, m, q) && q != a && q != b ensures w[a] <= w[q] && w[b] <= w[q] {
      assert (q as nat) in Roots(p, m);
      assert (q as nat) in all && (q as nat) in all - multiset{a};
    }
  }

  lemma LastRoot(p: seq<int>, m: nat, h: seq<nat>)
    requires 1 <= m < |p| && 1 < |h| && Nodes(h, 1) == RootBag(p, m) && m in Roots(p, m)
    ensures SingleRoot(p, m)
  {
    assert h[1..2] == [h[1]];
    forall x | 1 <= x <= m && p[x] == -1 ensures x == m {
      assert IsRoot(p, m, x) && (x as nat) in Roots(p, m);
      assert RootBag(p, m)[x as nat] == 1 && RootBag(p, m)[m] == 1;
    }
  }

  // ----- leaves -----

  /** Leaves hold a positive weight and depth 0. */
  ghost predicate LeafWeights(w: seq<nat>, alpha: nat) {
    alpha < |w| && forall x :: 1 <= x <= alpha ==> D(w[x]) == 0 && W(w[x]) >= 1
  }

  ghost function LeafSum(w: seq<nat>, k: nat): nat
    requires k < |w|
  {
    if k == 0 then 0 else LeafSum(w, k - 1) + W(w[k])
  }

  lemma {:induction false} LeafSumRoots(p: seq<int>, w: seq<nat>, k: nat)
    requires k < |p| && k < |w| && forall x :: 1 <= x <= k ==> p[x] == -1
    ensures RootSum(p, w, k) == LeafSum(w, k)
  {
    if k > 0 { LeafSumRoots(p, w, k - 1); }
  }

  lemma {:induction false} LeafSumSame(w: seq<nat>, w': seq<nat>, k: nat)
    requires k < |w| && k < |w'| && forall x :: 1 <= x <= k ==> w[x] == w'[x]
    ensures LeafSum(w, k) == LeafSum(w', k)
  {
    if k > 0 { LeafSumSame(w, w', k - 1); }
  }

  lemma SameLeaves(w: seq<nat>, w': seq<nat>, alpha: nat)
    requires alpha < |w| && alpha < |w'| && w[..alpha + 1] == w'[..alpha + 1]
    ensures LeafSum(w, alpha) == LeafSum(w', alpha) && (LeafWeights(w, alpha) <==> LeafWeights(w', alpha))
  {
    var u := w[..alpha + 1];
    assert forall x :: 0 <= x <= alpha ==> u[x] == w[x] && u[x] == w'[x];
    LeafSumSame(w, w', alpha);
  }

  lemma ForestStart(p: seq<int>, w: seq<nat>, kids: seq<(nat, nat)>, alpha: nat)
    requires 1 <= alpha && alpha < |p| == |kids| && alpha < |w| && LeafWeights(w, alpha) && LeafSum(w, alpha) < 0x80_0000
    requires forall x :: 1 <= x <= alpha ==> p[x] == -1
    ensures Forest(p, w, kids, alpha, alpha, LeafSum(w, alpha))
  {
    LeafSumRoots(p, w, alpha);
  }

  // ----- building the tree -----

  /** Builds the heap of all leaves. */
  method PushLeaves(heap: array<nat>, weight: array<nat>, parent: array<int>, alphaSize: nat) returns (nHeap: nat)
    requires heap != weight && 0 < weight.Length && weight[0] == 0 && alphaSize < weight.Length <= parent.Length
    requires alphaSize + 1 < heap.Length && heap[0] == 0
    modifies heap, parent
    ensures nHeap == alphaSize && Heap(heap[..], weight[..], nHeap)
    ensures forall x :: 1 <= x <= alphaSize ==> parent[x] == -1
    ensures Nodes(heap[..], nHeap) == RootBag(parent[..], alphaSize)
  {
    hide Heap, Nodes, Roots;
    nHeap := 0;
    HeapStart(heap[..], weight[..], parent[..]);
    for i := 1 to alphaSize + 1
      modifies heap, parent
      invariant nHeap == i - 1 && Heap(heap[..], weight[..], nHeap)
      invariant forall x :: 1 <= x < i ==> parent[x] == -1
      invariant Nodes(heap[..], nHeap) == RootBag(parent[..], i - 1)
    {
      RootsNext(parent[..], i);
      ghost var p := parent[..][i := -1];
      parent[i] := -1;
      assert parent[..] == p;
      nHeap := Push(heap, weight, nHeap, i);
    }
  }

  lemma HeapStart(h: seq<nat>, w: seq<nat>, p: seq<int>)
    requires 0 < |h| && 0 < |w| && h[0] == 0 && w[0] == 0 && 0 < |p|
    ensures Heap(h, w, 0) && Nodes(h, 0) == RootBag(p, 0)
  {
    assert h[1..1] == [];
    assert Roots(p, 0) == {};
  }

  ghost predicate Building(h: seq<nat>, w: seq<nat>, p: seq<int>, kids: seq<(nat, nat)>, alpha: nat, nHeap: nat, nNodes: nat, total: nat) {
    Heap(h, w, nHeap) && nHeap < |h| && Forest(p, w, kids, alpha, nNodes, total) && nNodes < |p| &&
    Nodes(h, nHeap) == RootBag(p, nNodes) && nNodes in Roots(p, nNodes)
  }

  /** Takes the two lightest roots off the heap. */
  method PopTwo(heap: array<nat>, weight: array<nat>, nHeap: nat, ghost p: seq<int>, ghost nNodes: nat) returns (n1: nat, n2: nat, n: nat)
    requires heap != weight && nHeap >= 2 && Heap(heap[..], weight[..], nHeap) && nHeap < heap.Length
    requires nNodes < |p| && nNodes < weight.Length && Nodes(heap[..], nHeap) == RootBag(p, nNodes)
    modifies heap
    ensures n == nHeap - 2 && Heap(heap[..], weight[..], n)
    ensures Lightest(p, weight[..], nNodes, n1, n2) && n1 in Roots(p, nNodes) && n2 in Roots(p, nNodes)
    ensures Nodes(heap[..], n) == RootBag(p, nNodes) - multiset{n1} - multiset{n2}
  {
    hide Heap, Nodes, Roots, RootBag, Lightest;
    n1, n := PopMin(heap, weight, nHeap);
    n2, n := PopMin(heap, weight, n);
    PoppedLightest(p, weight[..], nNodes, RootBag(p, nNodes), n1, n2);
  }

  /** Joins the two lightest trees. */
  method JoinOnce(heap: array<nat>, weight: array<nat>, parent: array<int>, nHeap: nat, nNodes: nat, ghost alphaSize: nat,
                  ghost kids: seq<(nat, nat)>, ghost total: nat)
    returns (n: nat, ghost kids': seq<(nat, nat)>)
    requires heap != weight && 2 <= nHeap && alphaSize <= nNodes && nNodes + 1 < weight.Length == parent.Length
    requires Building(heap[..], weight[..], parent[..], kids, alphaSize, nHeap, nNodes, total)
    modifies heap, weight, parent
    ensures n == nHeap - 1 && Building(heap[..], weight[..], parent[..], kids', alphaSize, n, nNodes + 1, total)
    ensures weight[..alphaSize + 1] == old(weight[..alphaSize + 1])
  {
    hide Building, Forest, Heap, Nodes, Roots, RootBag, AddWeights, Joined, Lightest;
    ghost var p, w, h := parent[..], weight[..], heap[..];
    BuildingFacts(h, w, p, kids, alphaSize, nHeap, nNodes, total);
    var n1, n2;
    n1, n2, n := PopTwo(heap, weight, nHeap, p, nNodes);
    LightestFacts(p, w, nNodes, n1, n2);
    Rejoin(heap[..], w, p, kids, alphaSize, n, nNodes, n1, n2, total);
    JoinedIs(p, n1, n2, nNodes + 1);
    var m := nNodes + 1;
    parent[n1] := m;
    parent[n2] := m;
    weight[m] := AddWeights(weight[n1], weight[n2]);
    parent[m] := -1;
    assert parent[..] == Joined(p, n1, n2, m);
    assert weight[..] == w[m := AddWeights(w[n1], w[n2])];
    n := Push(heap, weight, n, m);
    kids' := kids[m := (n1, n2)];
    Rebuilt(heap[..], weight[..], parent[..], kids', alphaSize, n, m, total);
  }

  /** Joins the two lightest trees until one is left. */
  method JoinTrees(heap: array<nat>, weight: array<nat>, parent: array<int>, alphaSize: nat, ghost kids0: seq<(nat, nat)>, ghost total: nat)
    returns (nNodes: nat, ghost kids: seq<(nat, nat)>)
    requires heap != weight && alphaSize >= 1 && 2 * alphaSize <= weight.Length == parent.Length
    requires alphaSize < heap.Length && Building(heap[..], weight[..], parent[..], kids0, alphaSize, alphaSize, alphaSize, total)
    modifies heap, weight, parent
    ensures Forest(parent[..], weight[..], kids, alphaSize, nNodes, total) && SingleRoot(parent[..], nNodes)
    ensures weight[..alphaSize + 1] == old(weight[..alphaSize + 1])
  {
    hide Building, Forest, Heap, Nodes, Roots, RootBag, AddWeights, Joined, Lightest;
    nNodes, kids := alphaSize, kids0;
    var nHeap := alphaSize;
    while nHeap > 1
      invariant 1 <= nHeap <= alphaSize <= nNodes == 2 * alphaSize - nHeap
      invariant Building(heap[..], weight[..], parent[..], kids, alphaSize, nHeap, nNodes, total)
      invariant weight[..alphaSize + 1] == old(weight[..alphaSize + 1])
    {
      nHeap, kids := JoinOnce(heap, weight, parent, nHeap, nNodes, alphaSize, kids, total);
      nNodes := nNodes + 1;
    }
    BuildingFacts(heap[..], weight[..], parent[..], kids, alphaSize, nHeap, nNodes, total);
    LastRoot(parent[..], nNodes, heap[..]);
  }

  lemma JoinedIs(p: seq<int>, a: nat, b: nat, n: nat)
    requires a < |p| && b < |p| && n < |p|
    ensures Joined(p, a, b, n) == p[a := n][b := n][n := -1]
  {}

  lemma BuildingFacts(h: seq<nat>, w: seq<nat>, p: seq<int>, kids: seq<(nat, nat)>, alpha: nat, nHeap: nat, nNodes: nat, total: nat)
    requires Building(h, w, p, kids, alpha, nHeap, nNodes, total)
    ensures Heap(h, w, nHeap) && nHeap < |h| && Forest(p, w, kids, alpha, nNodes, total) && nNodes < |p| == |kids| && nNodes < |w|
    ensures Nodes(h, nHeap) == RootBag(p, nNodes) && nNodes in Roots(p, nNodes) && 1 <= nNodes
  {}

  lemma LightestFacts(p: seq<int>, w: seq<nat>, m: nat, a: nat, b: nat)
    requires Lightest(p, w, m, a, b)
    ensures 1 <= a <= m && 1 <= b <= m && a != b
  {}

  /** The forest after the join, and the heap of the other roots under the new weights. */
  lemma Rejoin(h': seq<nat>, w: seq<nat>, p: seq<int>, kids: seq<(nat, nat)>, alpha: nat, nHeap: nat, m: nat, a: nat, b: nat, total: nat)
    requires m + 1 < |p| == |kids| && m + 1 < |w| && nHeap < |h'|
    requires Forest(p, w, kids, alpha, m, total) && Lightest(p, w, m, a, b) && Heap(h', w, nHeap)
    requires a in Roots(p, m) && b in Roots(p, m) && a != b
    requires Nodes(h', nHeap) == RootBag(p, m) - multiset{a} - multiset{b}
    ensures Forest(Joined(p, a, b, m + 1), w[m + 1 := AddWeights(w[a], w[b])], kids[m + 1 := (a, b)], alpha, m + 1, total)
    ensures Heap(h', w[m + 1 := AddWeights(w[a], w[b])], nHeap)
    ensures Nodes(h', nHeap) + multiset{m + 1} == RootBag(Joined(p, a, b, m + 1), m + 1)
    ensures m + 1 in Roots(Joined(p, a, b, m + 1), m + 1)
  {
    hide Forest, Heap, Nodes, AddWeights, Joined, Lightest;
    Join(p, w, kids, alpha, m, a, b, total);
    RootsJoined(p, m, a, b);
    assert m + 1 !in Roots(p, m);
    HeapFrame(h', w, nHeap, m + 1, AddWeights(w[a], w[b]));
  }

  lemma Rebuilt(h: seq<nat>, w: seq<nat>, p: seq<int>, kids: seq<(nat, nat)>, alpha: nat, nHeap: nat, nNodes: nat, total: nat)
    requires Heap(h, w, nHeap) && nHeap < |h| && Forest(p, w, kids, alpha, nNodes, total) && nNodes < |p|
    requires Nodes(h, nHeap) == RootBag(p, nNodes) && nNodes in Roots(p, nNodes)
    ensures Building(h, w, p, kids, alpha, nHeap, nNodes, total)
  {}

  // ----- reading the depths -----

  /** Leaf depths, leaf 1 first. */
  ghost predicate Depths(len: seq<nat>, p: seq<int>) {
    forall i :: 0 <= i < |len| ==> len[i] == Depth(p, i + 1)
  }

  method ReadDepths(parent: array<int>, alphaSize: nat, maxLen: nat, ghost nNodes: nat) returns (len: seq<nat>, tooLong: bool)
    requires alphaSize <= nNodes < parent.Length
    requires forall x :: 1 <= x <= nNodes ==> parent[x] == -1 || x < parent[x] <= nNodes
    ensures |len| == alphaSize && Depths(len, parent[..])
    ensures tooLong <==> exists i :: 0 <= i < |len| && len[i] > maxLen
  {
    len, tooLong := [], false;
    for i := 1 to alphaSize + 1
      invariant |len| == i - 1 && Depths(len, parent[..])
      invariant tooLong <==> exists t :: 0 <= t < |len| && len[t] > maxLen
    {
      var j, k := 0, i;
      while parent[k] >= 0
        invariant 0 <= j && 1 <= k <= nNodes && j + Depth(parent[..], k) == Depth(parent[..], i)
        decreases nNodes - k
      {
        k := parent[k];
        j := j + 1;
      }
      ghost var was := len;
      len := len + [j];
      if j > maxLen {
        tooLong := true;
        assert len[|was|] > maxLen;
      }
      assert forall t :: 0 <= t < |was| ==> len[t] == was[t];
    }
  }

  // ----- the whole -----

  /** Weight the source gives a symbol: its count, but at least 1. */
  function Counted(f: nat): nat { if f == 0 then 1 else f }

  function CountedSum(freq: seq<nat>): nat {
    if freq == [] then 0 else CountedSum(freq[..|freq| - 1]) + Counted(freq[|freq| - 1])
  }

  lemma {:induction false} StartSum(freq: seq<nat>, w: seq<nat>, k: nat)
    requires k <= |freq| && k < |w| && forall x :: 1 <= x <= k ==> w[x] == Counted(freq[x - 1]) * 256
    ensures LeafSum(w, k) == CountedSum(freq[..k])
  {
    if k > 0 {
      StartSum(freq, w, k - 1);
      assert freq[..k][..k - 1] == freq[..k - 1];
    } else { assert freq[..0] == []; }
  }

  /** Halves the weights, keeping them positive. */
  function Flat(x: nat): nat { (1 + W(x) / 2) * 256 }

  lemma {:induction false} FlatSum(w: seq<nat>, w': seq<nat>, k: nat)
    requires k < |w| && k < |w'| && forall x :: 1 <= x <= k ==> w'[x] == Flat(w[x]) && W(w[x]) >= 1
    ensures LeafSum(w', k) <= LeafSum(w, k)
    ensures LeafSum(w', k) == LeafSum(w, k) ==> LeafSum(w, k) <= 2 * k
  {
    if k > 0 { FlatSum(w, w', k - 1); }
  }

  method Flatten(weight: array<nat>, alphaSize: nat)
    requires LeafWeights(weight[..], alphaSize)
    modifies weight
    ensures LeafWeights(weight[..], alphaSize) && weight[0] == old(weight[0])
    ensures forall x :: 1 <= x <= alphaSize ==> weight[x] == Flat(old(weight[x]))
  {
    for i := 1 to alphaSize + 1
      invariant weight[0] == old(weight[0])
      invariant forall x :: 1 <= x < i ==> weight[x] == Flat(old(weight[x]))
      invariant forall x :: i <= x <= alphaSize ==> weight[x] == old(weight[x])
    {
      var j := weight[i] / 256;
      j := 1 + j / 2;
      weight[i] := j * 256;
    }
  }

  /** A tree too deep for the limit has leaves left to flatten. */
  lemma StillHeavy(p: seq<int>, w: seq<nat>, kids: seq<(nat, nat)>, alpha: nat, m: nat, total: nat, len: seq<nat>, i: nat, maxLen: nat)
    requires Forest(p, w, kids, alpha, m, total) && SingleRoot(p, m) && Depths(len, p) && |len| == alpha && i < alpha
    requires len[i] > maxLen && Fib(maxLen + 1) > 2 * alpha
    ensures total > 2 * alpha
  {
    hide Fib, Depth, RootSum;
    TreeDepth(p, w, kids, alpha, m, total, i + 1);
    FibMono(maxLen + 1, len[i]);
  }

  /** The depths are positive and fill the code space exactly. */
  lemma DepthsFill(p: seq<int>, w: seq<nat>, kids: seq<(nat, nat)>, alpha: nat, m: nat, total: nat, len: seq<nat>)
    requires Forest(p, w, kids, alpha, m, total) && SingleRoot(p, m) && Depths(len, p) && |len| == alpha >= 2
    ensures LengthsIn(len, 1, 32) && KraftSum(len, 32) == Pow2(32)
  {
    hide Fib, RootSum, Pow2, Weighted, Spread, Greedy;
    assert m > alpha by {
      assert p[1] != -1;
    }
    forall i | 0 <= i < |len| ensures 1 <= len[i] {
      assert p[i + 1] != -1;
    }
    forall x | 1 <= x <= m ensures Depth(p, x) <= 32 { TreeDepth(p, w, kids, alpha, m, total, x); }
    CutWhole(p, kids, alpha, m, alpha);
    CutLeaves(p, len, alpha, alpha);
    assert len[..alpha] == len;
  }

  /** Accepted depths fill it within the limit. */
  lemma DepthsKraft(len: seq<nat>, maxLen: nat)
    requires LengthsIn(len, 1, 32) && KraftSum(len, 32) == Pow2(32)
    requires maxLen <= LONGEST && forall i :: 0 <= i < |len| ==> len[i] <= maxLen
    ensures LengthsIn(len, 1, maxLen) && KraftSum(len, LONGEST) == Pow2(LONGEST)
  {
    hide KraftSum, Pow2;
    KraftScaled(len, 12);
    ShlPow(LONGEST, 12);
    ShlInjective(KraftSum(len, LONGEST), Pow2(LONGEST), 12);
  }

  /** No complete code is better for these weights. */
  lemma DepthsOptimal(p: seq<int>, w: seq<nat>, kids: seq<(nat, nat)>, alpha: nat, m: nat, total: nat, len: seq<nat>)
    requires Forest(p, w, kids, alpha, m, total) && SingleRoot(p, m) && Depths(len, p) && |len| == alpha && |p| <= |w|
    requires LengthsIn(len, 1, 32) && KraftSum(len, 32) == Pow2(32)
    ensures alpha < |w| && O.Optimal(O.Weights(w, alpha), len)
  {
    hide Fib, RootSum, Pow2, Weighted, Spread, Greedy, KraftSum, Shape;
    ForestFacts(p, w, kids, alpha, m, total);
    O.Witness(len, 32);
    O.TreeOptimal(p, w, kids, alpha, m, len);
  }

  lemma {:induction false} CutLeaves(p: seq<int>, len: seq<nat>, alpha: nat, k: nat)
    requires alpha < |p| && |len| == alpha && k <= alpha && Depths(len, p)
    requires forall x :: 1 <= x <= alpha ==> p[x] == -1 || p[x] > alpha
    requires LengthsIn(len, 1, 32)
    ensures Cut(p, alpha, k) == KraftSum(len[..k], 32)
  {
    if k > 0 {
      CutLeaves(p, len, alpha, k - 1);
      assert len[..k][..k - 1] == len[..k - 1];
    } else { assert len[..0] == []; }
  }

  lemma {:induction false} NoCount(len: seq<nat>, n: nat)
    requires LengthsIn(len, 1, LONGEST) && n > LONGEST
    ensures Count(len, n) == 0
  {
    if len != [] { NoCount(len[..|len| - 1], n); }
  }

  lemma {:induction false} KraftScaled(len: seq<nat>, k: nat)
    requires LengthsIn(len, 1, LONGEST)
    ensures KraftSum(len, LONGEST + k) == Shl(KraftSum(len, LONGEST), k)
  {
    if k > 0 {
      KraftScaled(len, k - 1);
      KraftNext(len, LONGEST + k - 1);
      NoCount(len, LONGEST + k);
    }
  }

  lemma {:induction false} ShlPow(n: nat, k: nat)
    ensures Shl(Pow2(n), k) == Pow2(n + k)
  {
    if k > 0 { ShlPow(n, k - 1); }
  }

  lemma {:induction false} ShlInjective(a: nat, b: nat, k: nat)
    requires Shl(a, k) == Shl(b, k)
    ensures a == b
  {
    if k > 0 { ShlInjective(a, b, k - 1); }
  }

  /** One tree over the current weights. */
  method Tree(weight: array<nat>, alphaSize: nat, maxLen: nat) returns (len: seq<nat>, tooLong: bool)
    requires 2 <= alphaSize <= MAX_ALPHA_SIZE && weight.Length == 2 * MAX_ALPHA_SIZE && maxLen <= LONGEST && Fib(maxLen + 1) > 2 * alphaSize
    requires weight[0] == 0 && LeafWeights(weight[..], alphaSize) && LeafSum(weight[..], alphaSize) < 0x80_0000
    modifies weight
    ensures weight[0] == 0 && weight[..alphaSize + 1] == old(weight[..alphaSize + 1])
    ensures |len| == alphaSize && O.Optimal(O.Weights(weight[..], alphaSize), len)
    ensures tooLong <==> exists i :: 0 <= i < |len| && len[i] > maxLen
    ensures tooLong ==> LeafSum(weight[..], alphaSize) > 2 * alphaSize
    ensures !tooLong ==> |len| == alphaSize && LengthsIn(len, 1, maxLen) && KraftSum(len, LONGEST) == Pow2(LONGEST)
  {
    hide Fib, LeafSum, Pow2, KraftSum, Heap, Nodes, Roots, RootSum, Weighted, Spread, Greedy, Depth, Depths, LeafWeights, Couple, O.Optimal;
    ghost var w := weight[..];
    ghost var total := LeafSum(w, alphaSize);
    var heap := new nat[MAX_ALPHA_SIZE + 2];
    var parent := new int[2 * MAX_ALPHA_SIZE];
    heap[0], parent[0] := 0, -2;
    var nHeap := PushLeaves(heap, weight, parent, alphaSize);
    assert weight[..] == w;
    ghost var kids0 := seq(parent.Length, i => (0, 0));
    ForestStart(parent[..], w, kids0, alphaSize);
    assert alphaSize in Roots(parent[..], alphaSize) by { RootLeaf(parent[..], alphaSize); }
    Rebuilt(heap[..], w, parent[..], kids0, alphaSize, nHeap, alphaSize, total);
    var nNodes;
    ghost var kids;
    nNodes, kids := JoinTrees(heap, weight, parent, alphaSize, kids0, total);
    ghost var p := parent[..];
    len, tooLong := ReadDepths(parent, alphaSize, maxLen, nNodes);
    SameLeaves(weight[..], w, alphaSize);
    DepthsFill(p, weight[..], kids, alphaSize, nNodes, total, len);
    DepthsOptimal(p, weight[..], kids, alphaSize, nNodes, total, len);
    if tooLong {
      ghost var i :| 0 <= i < |len| && len[i] > maxLen;
      StillHeavy(p, weight[..], kids, alphaSize, nNodes, total, len, i, maxLen);
    } else {
      DepthsKraft(len, maxLen);
    }
  }

  lemma RootLeaf(p: seq<int>, m: nat)
    requires 1 <= m < |p| && p[m] == -1
    ensures m in Roots(p, m)
  {
    assert IsRoot(p, m, m);
  }

  /** Limits from twelve on will do for every alphabet. */
  lemma LimitEnough(maxLen: nat, alphaSize: nat)
    requires maxLen >= 12 && alphaSize <= MAX_ALPHA_SIZE
    ensures Fib(maxLen + 1) > 2 * alphaSize
  {
    hide Fib;
    FibValues();
    FibMono(13, maxLen + 1);
  }

  /** Counts as the source weighs them. */
  function Counts(freq: seq<nat>): (ws: seq<nat>)
    ensures |ws| == |freq|
  {
    seq(|freq|, i requires 0 <= i < |freq| => Counted(freq[i]))
  }

  /** Weights after k rounds of halving. */
  function Flattened(ws: seq<nat>, k: nat): (r: seq<nat>)
    ensures |r| == |ws|
  {
    if k == 0 then ws
    else
      var v := Flattened(ws, k - 1);
      seq(|ws|, i requires 0 <= i < |ws| => 1 + v[i] / 2)
  }

  /** Some best code for these weights is too long. */
  ghost predicate OutOfBounds(ws: seq<nat>, maxLen: nat) {
    exists len: seq<nat> :: O.Optimal(ws, len) && !LengthsIn(len, 0, maxLen)
  }

  lemma FlatWeights(w: seq<nat>, w': seq<nat>, alpha: nat, freq: seq<nat>, k: nat)
    requires alpha < |w| && alpha < |w'| && |freq| == alpha && O.Weights(w, alpha) == Flattened(Counts(freq), k)
    requires forall x :: 1 <= x <= alpha ==> w'[x] == Flat(w[x])
    ensures O.Weights(w', alpha) == Flattened(Counts(freq), k + 1)
  {
    var v, v' := Flattened(Counts(freq), k), Flattened(Counts(freq), k + 1);
    forall i | 0 <= i < alpha ensures O.Weights(w', alpha)[i] == v'[i] {
      assert v[i] == W(w[i + 1]) && w'[i + 1] == Flat(w[i + 1]);
    }
  }

  lemma StartWeights(w: seq<nat>, alpha: nat, freq: seq<nat>)
    requires alpha < |w| && |freq| == alpha && forall x :: 1 <= x <= alpha ==> w[x] == Counted(freq[x - 1]) * 256
    ensures O.Weights(w, alpha) == Flattened(Counts(freq), 0)
  {
    forall i | 0 <= i < alpha ensures O.Weights(w, alpha)[i] == Counts(freq)[i] { assert w[i + 1] == Counted(freq[i]) * 256; }
  }

  lemma SameWeights(w: seq<nat>, w': seq<nat>, alpha: nat)
    requires alpha < |w| && alpha < |w'| && w[..alpha + 1] == w'[..alpha + 1]
    ensures O.Weights(w, alpha) == O.Weights(w', alpha)
  {
    forall i | 0 <= i < alpha ensures O.Weights(w, alpha)[i] == O.Weights(w', alpha)[i] {
      assert w[..alpha + 1][i + 1] == w'[..alpha + 1][i + 1];
    }
  }

  lemma TooLong(ws: seq<nat>, len: seq<nat>, maxLen: nat)
    requires O.Optimal(ws, len) && exists i :: 0 <= i < |len| && len[i] > maxLen
    ensures OutOfBounds(ws, maxLen)
  {
    hide O.Optimal;
    assert !LengthsIn(len, 0, maxLen);
  }

  /** Code lengths of a complete prefix code, none longer than maxLen, and best for the counts as often halved as codes came
      out too long. The limit must be one that flattened weights can meet. */
  method MakeCodeLengths(freq: seq<nat>, maxLen: nat) returns (len: seq<nat>, ghost rounds: nat)
    requires 2 <= |freq| <= MAX_ALPHA_SIZE && CountedSum(freq) < 0x80_0000 && maxLen <= LONGEST && Fib(maxLen + 1) > 2 * |freq|
    ensures |len| == |freq| && LengthsIn(len, 1, maxLen)
    ensures KraftSum(len, LONGEST) == Pow2(LONGEST)
    ensures O.Optimal(Flattened(Counts(freq), rounds), len)
    ensures forall k: nat :: k < rounds ==> OutOfBounds(Flattened(Counts(freq), k), maxLen)
  {
    hide LeafSum, Pow2, KraftSum, CountedSum, Fib, LengthsIn, O.Optimal, Flattened, Counts, OutOfBounds, O.Weights;
    var alphaSize := |freq|;
    var weight := new nat[2 * MAX_ALPHA_SIZE];
    weight[0] := 0;
    for i := 0 to alphaSize
      invariant weight[0] == 0
      invariant forall x :: 1 <= x <= i ==> weight[x] == Counted(freq[x - 1]) * 256
    {
      weight[i + 1] := Counted(freq[i]) * 256;
    }
    StartSum(freq, weight[..], alphaSize);
    StartWeights(weight[..], alphaSize, freq);
    assert freq[..alphaSize] == freq;
    rounds := 0;
    while true
      invariant weight[0] == 0 && LeafWeights(weight[..], alphaSize) && LeafSum(weight[..], alphaSize) < 0x80_0000
      invariant O.Weights(weight[..], alphaSize) == Flattened(Counts(freq), rounds)
      invariant forall k: nat :: k < rounds ==> OutOfBounds(Flattened(Counts(freq), k), maxLen)
      decreases LeafSum(weight[..], alphaSize)
    {
      ghost var w := weight[..];
      var tooLong;
      len, tooLong := Tree(weight, alphaSize, maxLen);
      SameWeights(weight[..], w, alphaSize);
      if !tooLong { break; }
      TooLong(Flattened(Counts(freq), rounds), len, maxLen);
      ghost var w1 := weight[..];
      SameLeaves(w1, w, alphaSize);
      Flatten(weight, alphaSize);
      FlatSum(w1, weight[..], alphaSize);
      FlatWeights(w1, weight[..], alphaSize, freq, rounds);
      rounds := rounds + 1;
    }
  }
}
