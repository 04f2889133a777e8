/** The decoder's two in-place constructions of the inverse transform: one word per row (FAST), and
    packed 20-bit links reversed in place (SMALL). */
module Unsort {
  import opened Rotations
  import opened Words
  import opened Bwt

  const MAX_BLOCK: nat := 900000

  /** unzftab counts the occurrences of every byte in the last column. */
  ghost predicate Counts(unzftab: seq<nat>, col: seq<Byte>) {
    |unzftab| == 256 && forall c :: 0 <= c < 256 ==> unzftab[c] == CountOf(col, c)
  }

  /** cftab[c] is the first row whose rotation starts with byte c. */
  ghost predicate FirstRows(cftab: seq<nat>, col: seq<Byte>) {
    |cftab| == 257 && forall c :: 0 <= c <= 256 ==> cftab[c] == CountBelow(col, c)
  }

  /** cftab while the column is being ranked: the rows below i have taken their places. */
  ghost predicate NextRows(cftab: seq<nat>, col: seq<Byte>, i: nat)
    requires i <= |col|
  {
    |cftab| == 257 &&
    forall c :: 0 <= c < 256 ==> cftab[c] == CountBelow(col, c) + CountOf(col[..i], c)
  }

  /** Cumulative counts; the range checks the source makes on both tables always pass. */
  method BuildCftab(unzftab: seq<nat>, ghost col: seq<Byte>) returns (cftab: array<nat>)
    requires Counts(unzftab, col)
    ensures fresh(cftab) && FirstRows(cftab[..], col)
    ensures forall c :: 0 <= c < 256 ==> unzftab[c] <= |col|
    ensures forall c, d :: 0 <= c <= d <= 256 ==> cftab[c] <= cftab[d] <= |col|
  {
    cftab := new nat[257];
    cftab[0] := 0;
    for i := 1 to 257
      invariant cftab[0] == 0
      invariant forall c :: 1 <= c < i ==> cftab[c] == unzftab[c - 1]
    {
      cftab[i] := unzftab[i - 1];
    }
    CountBelowEnds(col);
    for i := 1 to 257
      invariant forall c :: 0 <= c < i ==> cftab[c] == CountBelow(col, c)
      invariant forall c :: i <= c < 257 ==> cftab[c] == CountOf(col, c - 1)
    {
      CountNext(col, i - 1);
      cftab[i] := cftab[i] + cftab[i - 1];
    }
    forall c, d | 0 <= c <= d <= 256 ensures CountBelow(col, c) <= CountBelow(col, d) {
      CountBelowMono(col, c, d);
    }
  }

  lemma NextRowsStart(cftab: seq<nat>, col: seq<Byte>)
    requires FirstRows(cftab, col)
    ensures NextRows(cftab, col, 0)
  {
    assert forall c :: 0 <= c < 256 ==> CountOf(col[..0], c) == 0;
  }

  lemma NextRowsStep(cftab: seq<nat>, col: seq<Byte>, i: nat)
    requires i < |col| && NextRows(cftab, col, i)
    ensures cftab[col[i]] == Rank(col, i) < |col|
    ensures NextRows(cftab[col[i] := cftab[col[i]] + 1], col, i + 1)
  {
    RankBounds(col, i);
    assert col[..i + 1][..i] == col[..i];
  }

  lemma RankInjective(col: seq<Byte>, i: nat, j: nat)
    requires i < |col| && j < |col| && Rank(col, i) == Rank(col, j)
    ensures i == j
  {
    UnrankInverts(col, i);
    UnrankInverts(col, j);
  }

  /** A word of the FAST vector: the row's character below the link to the row it decodes to next. */
  function FastWord(col: seq<Byte>, r: nat): (w: nat)
    requires r < |col|
    ensures w % 256 == col[r] && w / 256 == Unranks(col)[r]
  {
    col[r] + 256 * Unranks(col)[r]
  }

  /** The FAST vector after the first i rows of the column have been linked. */
  ghost predicate FastState(words: seq<nat>, col: seq<Byte>, i: nat) {
    |words| >= |col| &&
    forall r :: 0 <= r < |col| ==>
      words[r] == if Unranks(col)[r] < i then FastWord(col, r) else col[r]
  }

  lemma FastEnds(words: seq<nat>, col: seq<Byte>)
    requires |words| >= |col|
    ensures words[..|col|] == col ==> FastState(words, col, 0)
    ensures FastState(words, col, |col|) ==> forall r :: 0 <= r < |col| ==> words[r] == FastWord(col, r)
  {
    forall r | 0 <= r < |col| ensures Unranks(col)[r] < |col| { UnrankInverts(col, r); }
  }

  lemma FastStep(words: seq<nat>, col: seq<Byte>, i: nat)
    requires i < |col| && FastState(words, col, i)
    ensures var q := Rank(col, i);
            q < |col| && words[q] == col[q] && words[i] % 256 == col[i] &&
            FastState(words[q := col[q] + i * 256], col, i + 1)
  {
    UnrankInverts(col, i);
    var q := Rank(col, i);
    forall r | 0 <= r < |col| && Unranks(col)[r] == i ensures r == q { UnrankInverts(col, r); }
  }

  /** FAST: every word's upper bits become the inverse link while its low byte keeps the character. */
  method BuildFast(tt: array<nat>, nblock: nat, cftab: array<nat>, ghost col: seq<Byte>)
    requires tt != cftab && nblock == |col| <= tt.Length && nblock <= MAX_BLOCK
    requires tt[..nblock] == col && FirstRows(cftab[..], col)
    modifies tt, cftab
    ensures forall r :: 0 <= r < nblock ==> tt[r] == FastWord(col, r) < 0x1_0000_0000
  {
    hide Rank, FastState, CountBelow, CountOf, Unranks, NextRows;
    FastEnds(tt[..], col);
    NextRowsStart(cftab[..], col);
    for i := 0 to nblock
      invariant NextRows(cftab[..], col, i)
      invariant FastState(tt[..], col, i)
    {
      FastStep(tt[..], col, i);
      NextRowsStep(cftab[..], col, i);
      OrByte(col[Rank(col, i)], i);
      var uc := tt[i] % 256;
      tt[cftab[uc]] := Or(tt[cftab[uc]], i * 256);
      cftab[uc] := cftab[uc] + 1;
    }
    FastEnds(tt[..], col);
    forall r | 0 <= r < nblock ensures FastWord(col, r) < 0x1_0000_0000 { UnrankInverts(col, r); }
  }

  // ----- SMALL: packed links -----

  /** The half of a byte of ll4 that belongs to link i. */
  function Nibble(b: nat, i: nat): nat {
    if i % 2 == 0 then b % 16 else b / 16 % 16
  }

  function PutNibble(b: nat, i: nat, v: nat): nat {
    if i % 2 == 0 then Or(b / 16 * 16, v) else Or(b % 16, v * 16)
  }

  lemma NibbleParity(b: nat, i: nat, k: nat)
    requires i / 2 == k / 2 && i != k
    ensures Nibble(b, k) == Nibble(b, i + 1)
  {
    assert k % 2 == (i + 1) % 2;
  }

  lemma NibbleParts(lo: nat, hi: nat)
    requires lo < 16 && hi < 16
    ensures (lo + hi * 16) % 16 == lo && (lo + hi * 16) / 16 % 16 == hi && lo + hi * 16 < 256
  {}

  lemma PutNibbleCorrect(b: nat, i: nat, v: nat)
    requires b < 256 && v < 16
    ensures var r := PutNibble(b, i, v);
            r < 256 && Nibble(r, i) == v && Nibble(r, i + 1) == Nibble(b, i + 1)
  {
    var lo, hi := b % 16, b / 16;
    OrNibble(v, hi);
    OrNibble(lo, v);
    NibbleParts(v, hi);
    NibbleParts(lo, v);
  }

  /** Link i: sixteen low bits in ll16, the other four in half a byte of ll4. */
  function GetLL(ll16: seq<nat>, ll4: seq<nat>, i: nat): nat
    requires i < |ll16| && |ll16| <= 2 * |ll4|
  {
    ll16[i] + 65536 * Nibble(ll4[i / 2], i)
  }

  predicate Packed(ll16: seq<nat>, ll4: seq<nat>) {
    |ll16| <= 2 * |ll4| &&
    (forall i :: 0 <= i < |ll16| ==> ll16[i] < 65536) && (forall i :: 0 <= i < |ll4| ==> ll4[i] < 256)
  }

  /** Writing a link changes that link only, although two links share a byte of ll4. */
  method SetLL(ll16: array<nat>, ll4: array<nat>, i: nat, n: nat)
    requires ll16 != ll4 && i < ll16.Length && n < 16 * 65536
    requires Packed(ll16[..], ll4[..])
    modifies ll16, ll4
    ensures Packed(ll16[..], ll4[..])
    ensures GetLL(ll16[..], ll4[..], i) == n
    ensures forall k :: 0 <= k < ll16.Length && k != i ==>
      ll16[k] == old(ll16[k]) && GetLL(ll16[..], ll4[..], k) == old(GetLL(ll16[..], ll4[..], k))
  {
    hide Nibble, PutNibble;
    PutNibbleCorrect(ll4[i / 2], i, n / 65536);
    ll16[i] := n % 65536;
    ll4[i / 2] := PutNibble(ll4[i / 2], i, n / 65536);
    forall k | 0 <= k < ll16.Length && k != i
      ensures Nibble(ll4[k / 2], k) == old(Nibble(ll4[k / 2], k))
    {
      if k / 2 == i / 2 {
        NibbleParity(ll4[i / 2], i, k);
        NibbleParity(old(ll4[i / 2]), i, k);
      }
    }
  }

  /** SMALL, first pass: link i becomes the rank of row i. */
  method BuildSmall(ll16: array<nat>, ll4: array<nat>, nblock: nat, cftab: array<nat>)
    requires ll16 != ll4 && cftab != ll16 && cftab != ll4
    requires nblock <= ll16.Length && nblock <= MAX_BLOCK && Packed(ll16[..], ll4[..])
    requires forall i :: 0 <= i < nblock ==> ll16[i] < 256
    requires FirstRows(cftab[..], ll16[..nblock])
    modifies ll16, ll4
    ensures Packed(ll16[..], ll4[..])
    ensures forall i :: 0 <= i < nblock ==> GetLL(ll16[..], ll4[..], i) == Rank(old(ll16[..nblock]), i)
  {
    hide Rank, CountBelow, CountOf, GetLL, NextRows;
    ghost var col: seq<Byte> := ll16[..nblock];
    var cftabCopy := new nat[257];
    for i := 0 to 257
      invariant forall c :: 0 <= c < i ==> cftabCopy[c] == cftab[c]
      modifies cftabCopy
    {
      cftabCopy[i] := cftab[i];
    }
    NextRowsStart(cftabCopy[..], col);
    for i := 0 to nblock
      invariant Packed(ll16[..], ll4[..])
      invariant NextRows(cftabCopy[..], col, i)
      invariant forall k :: i <= k < nblock ==> ll16[k] == col[k]
      invariant forall k :: 0 <= k < i ==> GetLL(ll16[..], ll4[..], k) == Rank(col, k)
    {
      var uc := ll16[i];
      NextRowsStep(cftabCopy[..], col, i);
      SetLL(ll16, ll4, i, cftabCopy[uc]);
      cftabCopy[uc] := cftabCopy[uc] + 1;
    }
  }

  /** The rows visited from orig by following ranks: orig, Rank(orig), Rank(Rank(orig)), ... */
  ghost predicate Trail(col: seq<Byte>, path: seq<nat>) {
    |path| > 0 && Permissible(path, |col|) && Distinct(path) &&
    forall k :: 0 <= k < |path| - 1 ==> Rank(col, path[k]) == path[k + 1]
  }

  predicate Permissible(path: seq<nat>, n: nat) {
    forall k :: 0 <= k < |path| ==> path[k] < n
  }

  lemma TrailExtends(col: seq<Byte>, path: seq<nat>)
    requires Trail(col, path)
    ensures |path| <= |col|
    ensures var j := Rank(col, path[|path| - 1]);
            j < |col| && j !in path[1..] && (j == path[0] || Trail(col, path + [j]))
  {
    ElementsCount(path);
    SubsetCount(Elements(path), Below(|col|));
    var j := Rank(col, path[|path| - 1]);
    RankBounds(col, path[|path| - 1]);
    forall k | 1 <= k < |path| && path[k] == j ensures false {
      RankInjective(col, path[k - 1], path[|path| - 1]);
    }
  }

  /** Links while the trail is being reversed: behind the head they point back, elsewhere they rank. */
  ghost predicate Reversing(links: seq<nat>, col: seq<Byte>, path: seq<nat>) {
    |links| == |col| && Trail(col, path) &&
    (forall k :: 1 <= k < |path| ==> links[path[k]] == path[k - 1]) &&
    (forall r :: 0 <= r < |col| && r !in path[1..] ==> links[r] == Rank(col, r))
  }

  lemma ReverseStep(links: seq<nat>, col: seq<Byte>, path: seq<nat>)
    requires Reversing(links, col, path)
    ensures var i := path[|path| - 1];
            var j := Rank(col, i);
            j < |col| && links[j] == Rank(col, j) &&
            (j == path[0] || (|path| < |col| && Reversing(links[j := i], col, path + [j])))
  {
    TrailExtends(col, path);
    var i := path[|path| - 1];
    var j := Rank(col, i);
    if j != path[0] {
      TrailExtends(col, path + [j]);
      assert (path + [j])[1..] == path[1..] + [j];
    }
  }

  /** The links of the first n rows as a sequence. */
  function Links(ll16: seq<nat>, ll4: seq<nat>, n: nat): (links: seq<nat>)
    requires n <= |ll16| <= 2 * |ll4|
    ensures |links| == n
  {
    seq(n, i requires 0 <= i < n => GetLL(ll16, ll4, i))
  }

  /** SMALL, second pass: pointer reversal around the cycle through orig.  Periodic blocks leave other
      cycles untouched; only the cycle of orig is ever followed. */
  method ReversePointers(ll16: array<nat>, ll4: array<nat>, ghost col: seq<Byte>, orig: nat)
    returns (ghost path: seq<nat>)
    requires ll16 != ll4 && |col| <= ll16.Length && |col| <= MAX_BLOCK && Packed(ll16[..], ll4[..])
    requires orig < |col|
    requires Links(ll16[..], ll4[..], |col|) == Ranks(col)
    modifies ll16, ll4
    ensures Packed(ll16[..], ll4[..])
    ensures Trail(col, path) && path[0] == orig && Rank(col, path[|path| - 1]) == orig
    ensures forall k :: 0 <= k < |path| ==>
      GetLL(ll16[..], ll4[..], path[k]) == if k == 0 then path[|path| - 1] else path[k - 1]
  {
    var i := orig;
    var j := GetLL(ll16[..], ll4[..], i);
    path := [orig];
    ghost var links := Ranks(col);
    while true
      invariant Packed(ll16[..], ll4[..])
      invariant Links(ll16[..], ll4[..], |col|) == links
      invariant Reversing(links, col, path)
      invariant path[0] == orig && path[|path| - 1] == i && j == Rank(col, i)
      decreases |col| - |path|
    {
      ReverseStep(links, col, path);
      var tmp := GetLL(ll16[..], ll4[..], j);
      assert tmp == links[j];
      SetLL(ll16, ll4, j, i);
      links := links[j := i];
      if j == orig { break; }
      path := path + [j];
      i, j := j, tmp;
    }
    forall k | 0 <= k < |path|
      ensures GetLL(ll16[..], ll4[..], path[k]) == if k == 0 then path[|path| - 1] else path[k - 1]
    {
      assert GetLL(ll16[..], ll4[..], path[k]) == links[path[k]];
    }
  }

  /** After reversal, following links from orig is the inverse walk. */
  lemma {:induction false} TrailWalk(col: seq<Byte>, path: seq<nat>, k: nat) returns (x: nat)
    requires Trail(col, path) && Rank(col, path[|path| - 1]) == path[0]
    ensures x < |path| && Walk(col, path[0], k) == path[x]
    ensures Unranks(col)[path[x]] == if x == 0 then path[|path| - 1] else path[x - 1]
  {
    if k == 0 {
      x := 0;
    } else {
      var y := TrailWalk(col, path, k - 1);
      x := if y == 0 then |path| - 1 else y - 1;
    }
    UnrankInverts(col, path[if x == 0 then |path| - 1 else x - 1]);
  }

  /** Binary search for the byte whose rows include indx: the character SMALL reads from the first column. */
  method IndexIntoF(indx: nat, cftab: array<nat>, ghost col: seq<Byte>) returns (nb: nat)
    requires FirstRows(cftab[..], col) && indx < |col|
    ensures nb < 256 && CountBelow(col, nb) <= indx < CountBelow(col, nb + 1)
  {
    CountBelowEnds(col);
    nb := 0;
    var na := 256;
    while na - nb != 1
      invariant 0 <= nb < na <= 256 && cftab[nb] <= indx < cftab[na]
      decreases na - nb
    {
      var mid := (nb + na) / 2;
      if indx >= cftab[mid] { nb := mid; } else { na := mid; }
    }
  }

  /** The first-column character of a row is the last-column character of the row it decodes to. */
  lemma FirstColumn(col: seq<Byte>, r: nat, c: nat)
    requires r < |col| && c < 256
    requires CountBelow(col, c) <= r < CountBelow(col, c + 1)
    ensures Unranks(col)[r] < |col| && col[Unranks(col)[r]] == c
  {
    UnrankInverts(col, r);
    var t := Unranks(col)[r];
    var d: int := col[t];
    RankBounds(col, t);
    if d < c { CountBelowMono(col, d + 1, c); }
    if c < d { CountBelowMono(col, c + 1, d); }
  }
}
