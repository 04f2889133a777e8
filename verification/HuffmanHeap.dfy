/** The binary heap of tree nodes ordered by weight.  Entries run from 1; entry 0 holds node 0 of weight
    0 as a sentinel. */
module HuffmanHeap {
  import opened Rearrange

  /** Heap entries are nodes. */
  ghost predicate Entries(h: seq<nat>, w: seq<nat>, n: nat) {
    n < |h| && |w| > 0 && h[0] == 0 && w[0] == 0 && forall i :: 0 <= i <= n ==> h[i] < |w|
  }

  /** Weight of heap entry i. */
  function Key(h: seq<nat>, w: seq<nat>, i: nat): nat
    requires i < |h| && h[i] < |w|
  {
    w[h[i]]
  }

  /** Entry i is no lighter than its parent. */
  ghost predicate ChildOk(h: seq<nat>, w: seq<nat>, i: nat)
    requires i < |h| && h[i] < |w| && h[i / 2] < |w|
  {
    Key(h, w, i / 2) <= Key(h, w, i)
  }

  ghost predicate Heap(h: seq<nat>, w: seq<nat>, n: nat) {
    Entries(h, w, n) && forall i :: 2 <= i <= n ==> ChildOk(h, w, i)
  }

  /** Ordered except that entry z may be too light for its place. */
  ghost predicate AllButUp(h: seq<nat>, w: seq<nat>, n: nat, z: nat) {
    Entries(h, w, n) && 1 <= z <= n &&
    (forall i :: 2 <= i <= n && i != z ==> ChildOk(h, w, i)) &&
    (z >= 2 ==> forall c :: 2 <= c <= n && c / 2 == z ==> Key(h, w, z / 2) <= Key(h, w, c))
  }

  /** Ordered except that entry z may be too heavy for its place. */
  ghost predicate AllButDown(h: seq<nat>, w: seq<nat>, n: nat, z: nat) {
    Entries(h, w, n) && 1 <= z && (n >= 1 ==> z <= n) &&
    (forall i :: 2 <= i <= n && i / 2 != z ==> ChildOk(h, w, i)) &&
    (z >= 2 ==> forall c :: 2 <= c <= n && c / 2 == z ==> Key(h, w, z / 2) <= Key(h, w, c))
  }

  lemma {:induction false} TopLightest(h: seq<nat>, w: seq<nat>, n: nat, i: nat)
    requires Heap(h, w, n) && 1 <= i <= n
    ensures Key(h, w, 1) <= Key(h, w, i)
  {
    if i > 1 {
      TopLightest(h, w, n, i / 2);
      assert ChildOk(h, w, i);
    }
  }

  /** Multiset of the nodes in the heap. */
  ghost function Nodes(h: seq<nat>, n: nat): multiset<nat>
    requires n < |h|
  {
    multiset(h[1..n + 1])
  }

  lemma SwapNodes(h: seq<nat>, n: nat, i: nat, j: nat)
    requires 1 <= i <= n < |h| && 1 <= j <= n
    ensures Nodes(Swap(h, i, j), n) == Nodes(h, n)
  {
    SwapRearranges(h, i, j, 1, n);
  }

  lemma UpStep(h: seq<nat>, w: seq<nat>, n: nat, z: nat)
    requires AllButUp(h, w, n, z) && Key(h, w, z) < Key(h, w, z / 2)
    ensures z >= 2 && AllButUp(Swap(h, z, z / 2), w, n, z / 2)
    ensures Nodes(Swap(h, z, z / 2), n) == Nodes(h, n)
  {
    var p := z / 2;
    SwapNodes(h, n, z, p);
    var g := Swap(h, z, p);
    forall i | 2 <= i <= n && i != p ensures ChildOk(g, w, i) {
      assert i != z ==> ChildOk(h, w, i);
    }
    if p >= 2 {
      assert ChildOk(h, w, p);
      forall c | 2 <= c <= n && c / 2 == p ensures Key(g, w, p / 2) <= Key(g, w, c) {
        assert c != z ==> ChildOk(h, w, c);
      }
    }
  }

  lemma UpDone(h: seq<nat>, w: seq<nat>, n: nat, z: nat)
    requires AllButUp(h, w, n, z) && Key(h, w, z) >= Key(h, w, z / 2)
    ensures Heap(h, w, n)
  {
    forall i | 2 <= i <= n ensures ChildOk(h, w, i) {}
  }

  /** Moves the entry at z up to its place. */
  method UpHeap(heap: array<nat>, weight: array<nat>, ghost n: nat, z: nat)
    requires heap != weight && AllButUp(heap[..], weight[..], n, z)
    modifies heap
    ensures Heap(heap[..], weight[..], n) && Nodes(heap[..], n) == old(Nodes(heap[..], n))
  {
    hide AllButUp, Heap, Nodes, Key, Swap;
    ghost var w := weight[..];
    ghost var g := heap[..];
    UpFacts(g, w, n, z);
    ghost var all := Nodes(g, n);
    var zz, tmp := z, heap[z];
    while weight[tmp] < weight[heap[zz / 2]]
      invariant 1 <= zz <= n && g == heap[..][zz := tmp]
      invariant AllButUp(g, w, n, zz) && Nodes(g, n) == all
      invariant Entries(g, w, n) && Entries(heap[..], w, n)
      decreases zz
    {
      UpKeys(heap[..], w, n, zz, tmp);
      UpStep(g, w, n, zz);
      HoleMoves(heap[..], zz, zz / 2, tmp);
      g := Swap(g, zz, zz / 2);
      UpFacts(g, w, n, zz / 2);
      heap[zz] := heap[zz / 2];
      zz := zz / 2;
    }
    UpKeys(heap[..], w, n, zz, tmp);
    UpDone(g, w, n, zz);
    heap[zz] := tmp;
    assert heap[..] == g;
  }

  /** Appends a node and moves it up to its place. */
  method Push(heap: array<nat>, weight: array<nat>, nHeap: nat, node: nat) returns (n: nat)
    requires heap != weight && node < weight.Length && nHeap + 1 < heap.Length
    requires Heap(heap[..], weight[..], nHeap)
    modifies heap
    ensures n == nHeap + 1 && Heap(heap[..], weight[..], n)
    ensures Nodes(heap[..], n) == old(Nodes(heap[..], nHeap)) + multiset{node}
  {
    hide AllButUp, Heap, Nodes;
    PushStart(heap[..], weight[..], nHeap, node);
    n := nHeap + 1;
    ghost var g := heap[..][n := node];
    heap[n] := node;
    assert heap[..] == g;
    UpHeap(heap, weight, n, n);
  }

  /** Keys around a hole at z that stands for tmp, on the way up. */
  lemma UpKeys(h: seq<nat>, w: seq<nat>, n: nat, z: nat, tmp: nat)
    requires 1 <= z <= n && Entries(h, w, n) && Entries(h[z := tmp], w, n)
    ensures Key(h[z := tmp], w, z) == w[tmp] && Key(h[z := tmp], w, z / 2) == w[h[z / 2]]
  {}

  lemma HoleMoves(h: seq<nat>, z: nat, y: nat, tmp: nat)
    requires z < |h| && y < |h| && z != y
    ensures Swap(h[z := tmp], z, y) == h[z := h[y]][y := tmp]
  {}

  lemma UpFacts(h: seq<nat>, w: seq<nat>, n: nat, z: nat)
    requires AllButUp(h, w, n, z)
    ensures Entries(h, w, n) && 1 <= z <= n
  {}

  lemma PushStart(h: seq<nat>, w: seq<nat>, n: nat, node: nat)
    requires Heap(h, w, n) && n + 1 < |h| && node < |w|
    ensures AllButUp(h[n + 1 := node], w, n + 1, n + 1)
    ensures Nodes(h[n + 1 := node], n + 1) == Nodes(h, n) + multiset{node}
  {
    var g := h[n + 1 := node];
    forall i | 2 <= i <= n ensures ChildOk(g, w, i) { assert ChildOk(h, w, i); }
    PushNodes(h, n, node);
  }

  lemma PushNodes(h: seq<nat>, n: nat, node: nat)
    requires n + 1 < |h|
    ensures Nodes(h[n + 1 := node], n + 1) == Nodes(h, n) + multiset{node}
  {
    assert h[n + 1 := node][1..n + 2] == h[1..n + 1] + [node];
  }

  lemma DownStep(h: seq<nat>, w: seq<nat>, n: nat, z: nat, y: nat)
    requires AllButDown(h, w, n, z) && 2 <= y <= n && y / 2 == z && Key(h, w, y) <= Key(h, w, z)
    requires forall c :: 2 <= c <= n && c / 2 == z ==> Key(h, w, y) <= Key(h, w, c)
    ensures AllButDown(Swap(h, z, y), w, n, y)
    ensures Nodes(Swap(h, z, y), n) == Nodes(h, n)
  {
    SwapNodes(h, n, z, y);
    var g := Swap(h, z, y);
    forall i | 2 <= i <= n && i / 2 != y ensures ChildOk(g, w, i) {
      if i == z {
        assert Key(h, w, z / 2) <= Key(h, w, y);
      } else if i / 2 == z {
        assert Key(h, w, y) <= Key(h, w, i);
      } else {
        assert ChildOk(h, w, i);
      }
    }
    forall c | 2 <= c <= n && c / 2 == y ensures Key(g, w, y / 2) <= Key(g, w, c) {
      assert ChildOk(h, w, c);
    }
  }

  lemma DownDone(h: seq<nat>, w: seq<nat>, n: nat, z: nat)
    requires AllButDown(h, w, n, z)
    requires forall c :: 2 <= c <= n && c / 2 == z ==> Key(h, w, z) <= Key(h, w, c)
    ensures Heap(h, w, n)
  {
    forall i | 2 <= i <= n ensures ChildOk(h, w, i) {}
  }

  lemma DownFacts(h: seq<nat>, w: seq<nat>, n: nat, z: nat)
    requires AllButDown(h, w, n, z)
    ensures Entries(h, w, n) && 1 <= z && (n >= 1 ==> z <= n)
  {}

  lemma PopStart(h: seq<nat>, w: seq<nat>, n: nat)
    requires Heap(h, w, n) && n >= 1
    ensures AllButDown(h[1 := h[n]], w, n - 1, 1)
    ensures Nodes(h[1 := h[n]], n - 1) == Nodes(h, n) - multiset{h[1]}
    ensures h[1] in Nodes(h, n)
  {
    var g := h[1 := h[n]];
    forall i | 2 <= i <= n - 1 && i / 2 != 1 ensures ChildOk(g, w, i) { assert ChildOk(h, w, i); }
    PopNodes(h, n);
  }

  lemma PopNodes(h: seq<nat>, n: nat)
    requires 1 <= n < |h|
    ensures Nodes(h[1 := h[n]], n - 1) == Nodes(h, n) - multiset{h[1]}
    ensures h[1] in Nodes(h, n)
  {
    var g := h[1 := h[n]];
    if n > 1 {
      assert h[1..n + 1] == [h[1]] + h[2..n] + [h[n]];
      assert g[1..n] == [h[n]] + h[2..n];
    } else {
      assert h[1..n + 1] == [h[1]];
    }
  }

  /** Moves the entry at z down to its place. */
  method DownHeap(heap: array<nat>, weight: array<nat>, n: nat, z: nat)
    requires heap != weight && z < heap.Length && heap[z] < weight.Length && AllButDown(heap[..], weight[..], n, z)
    modifies heap
    ensures Heap(heap[..], weight[..], n) && Nodes(heap[..], n) == old(Nodes(heap[..], n))
  {
    hide AllButDown, Heap, Nodes, Key, Swap;
    ghost var w := weight[..];
    ghost var g := heap[..];
    DownFacts(g, w, n, z);
    ghost var all := Nodes(g, n);
    var zz, tmp := z, heap[z];
    while true
      invariant 1 <= zz && (n >= 1 ==> zz <= n) && zz < heap.Length && g == heap[..][zz := tmp]
      invariant AllButDown(g, w, n, zz) && Nodes(g, n) == all
      invariant Entries(g, w, n) && Entries(heap[..], w, n)
      decreases heap.Length - zz
    {
      var yy := 2 * zz;
      if yy > n { break; }
      if yy < n && weight[heap[yy + 1]] < weight[heap[yy]] { yy := yy + 1; }
      DownKeys(g, w, zz, n, heap[..], tmp);
      if weight[tmp] < weight[heap[yy]] { break; }
      DownStep(g, w, n, zz, yy);
      HoleMoves(heap[..], zz, yy, tmp);
      g := Swap(g, zz, yy);
      DownFacts(g, w, n, yy);
      heap[zz] := heap[yy];
      zz := yy;
    }
    DownKeys(g, w, zz, n, heap[..], tmp);
    DownDone(g, w, n, zz);
    heap[zz] := tmp;
    assert heap[..] == g;
  }

  /** Removes and returns a lightest node. */
  method PopMin(heap: array<nat>, weight: array<nat>, nHeap: nat) returns (node: nat, n: nat)
    requires heap != weight && nHeap >= 1 && Heap(heap[..], weight[..], nHeap)
    modifies heap
    ensures n == nHeap - 1 && Heap(heap[..], weight[..], n)
    ensures node in old(Nodes(heap[..], nHeap)) && node < weight.Length
    ensures Nodes(heap[..], n) == old(Nodes(heap[..], nHeap)) - multiset{node}
    ensures forall x :: x in old(Nodes(heap[..], nHeap)) ==> x < weight.Length && weight[node] <= weight[x]
  {
    hide AllButDown, Heap, Nodes, Key, Swap;
    HeapFacts(heap[..], weight[..], nHeap);
    PopLightest(heap[..], weight[..], nHeap);
    PopStart(heap[..], weight[..], nHeap);
    node := heap[1];
    ghost var g := heap[..][1 := heap[nHeap]];
    heap[1] := heap[nHeap];
    n := nHeap - 1;
    assert heap[..] == g;
    DownHeap(heap, weight, n, 1);
  }

  /** Giving a weight to a node outside the heap leaves the heap in order. */
  lemma HeapFrame(h: seq<nat>, w: seq<nat>, n: nat, k: nat, v: nat)
    requires Heap(h, w, n) && 0 < k < |w| && k !in Nodes(h, n)
    ensures Heap(h, w[k := v], n)
  {
    forall i | 1 <= i <= n ensures h[i] != k { assert h[i] in h[1..n + 1]; }
    var v' := w[k := v];
    forall i | 2 <= i <= n ensures ChildOk(h, v', i) { assert ChildOk(h, w, i); }
  }

  lemma HeapFacts(h: seq<nat>, w: seq<nat>, n: nat)
    requires Heap(h, w, n)
    ensures Entries(h, w, n)
  {}

  /** Keys of the virtual heap in terms of the array with a hole at z. */
  lemma DownKeys(g: seq<nat>, w: seq<nat>, z: nat, n: nat, h: seq<nat>, tmp: nat)
    requires z < |h| && g == h[z := tmp] && tmp < |w| && Entries(g, w, n) && Entries(h, w, n)
    ensures Key(g, w, z) == w[tmp]
    ensures forall c :: 2 <= c <= n && c / 2 == z ==> (c == 2 * z || c == 2 * z + 1) && c < |g| && (z > 0 ==> Key(g, w, c) == w[h[c]])
  {}

  lemma PopLightest(h: seq<nat>, w: seq<nat>, n: nat)
    requires Heap(h, w, n) && n >= 1
    ensures forall x :: x in Nodes(h, n) ==> x < |w| && w[h[1]] <= w[x]
  {
    forall x | x in Nodes(h, n) ensures x < |w| && w[h[1]] <= w[x] {
      assert x in h[1..n + 1];
      var i :| 1 <= i < n + 1 && h[i] == x;
      TopLightest(h, w, n, i);
    }
  }
}
