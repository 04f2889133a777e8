/** Building inflate's decoding tables from code lengths. */
module Inftrees {
  import opened Words
  import opened Bits
  import opened Codes
  import opened InflateCodes
  import opened TableLayout

  const ENOUGH_LENS: nat := 852
  const ENOUGH_DISTS: nat := 592

  // ----- counting and sorting the lengths -----

  method CountLengths(lens: seq<nat>) returns (count: array<nat>)
    requires Lengths(lens)
    ensures fresh(count) && count.Length == MAXBITS + 1
    ensures forall n :: 0 <= n <= MAXBITS ==> count[n] == Count(lens, n)
  {
    count := new nat[MAXBITS + 1];
    for len := 0 to MAXBITS + 1
      invariant forall n :: 0 <= n < len ==> count[n] == 0
    {
      count[len] := 0;
    }
    for sym := 0 to |lens|
      invariant forall n :: 0 <= n <= MAXBITS ==> count[n] == Count(lens[..sym], n)
    {
      assert lens[..sym + 1][..sym] == lens[..sym];
      count[lens[sym]] := count[lens[sym]] + 1;
    }
    assert lens[..|lens|] == lens;
  }

  /** The longest length in use not above n, or 0. */
  function Longest(lens: seq<nat>, n: nat): (m: nat)
    ensures m <= n && (m > 0 ==> Count(lens, m) > 0)
    ensures forall i :: m < i <= n ==> Count(lens, i) == 0
  {
    if n == 0 || Count(lens, n) > 0 then n else Longest(lens, n - 1)
  }

  /** The shortest length in use from n on, or max. */
  function Shortest(lens: seq<nat>, n: nat, max: nat): (m: nat)
    requires n <= max
    ensures n <= m <= max && (m < max ==> Count(lens, m) > 0)
    ensures forall i :: n <= i < m ==> Count(lens, i) == 0
    decreases max - n
  {
    if n == max || Count(lens, n) > 0 then n else Shortest(lens, n + 1, max)
  }

  /** Root table index bits: those asked for, forced to be within the code lengths. */
  function RootBits(lens: seq<nat>, asked: nat): (root: nat)
    requires Longest(lens, MAXBITS) > 0
    ensures 1 <= Shortest(lens, 1, Longest(lens, MAXBITS)) <= root <= Longest(lens, MAXBITS)
  {
    var max := Longest(lens, MAXBITS);
    var min := Shortest(lens, 1, max);
    var cut := if asked > max then max else asked;
    if cut < min then min else cut
  }

  lemma {:induction false} LongestBounds(lens: seq<nat>, s: nat)
    requires Lengths(lens) && s < |lens|
    ensures lens[s] <= Longest(lens, MAXBITS)
  {
    CountMono(lens, lens[s], s, |lens|);
    assert lens[..|lens|] == lens;
  }

  method FindRoot(lens: seq<nat>, count: array<nat>, asked: nat) returns (root: nat, min: nat, max: nat)
    requires count.Length == MAXBITS + 1 && forall n :: 0 <= n <= MAXBITS ==> count[n] == Count(lens, n)
    ensures max == Longest(lens, MAXBITS)
    ensures max > 0 ==> root == RootBits(lens, asked) && min == Shortest(lens, 1, max)
  {
    hide Count;
    root := asked;
    max := MAXBITS;
    while max >= 1
      invariant max <= MAXBITS && Longest(lens, MAXBITS) == Longest(lens, max)
    {
      if count[max] != 0 { break; }
      max := max - 1;
    }
    if root > max { root := max; }
    min := 1;
    if max == 0 { return; }
    while min < max
      invariant 1 <= min <= max && Shortest(lens, 1, max) == Shortest(lens, min, max)
    {
      if count[min] != 0 { break; }
      min := min + 1;
    }
    if root < min { root := min; }
  }

  /** Lengths that ask for more codes than there are, or leave codes unused. A single one-bit code may stand alone. */
  predicate Rejected(kind: Kind, lens: seq<nat>) {
    || Taken(lens) > Pow2(MAXBITS)
    || (Taken(lens) < Pow2(MAXBITS) && (kind.CODES? || Longest(lens, MAXBITS) != 1))
  }

  lemma OverAtOnce(lens: seq<nat>, n: nat)
    requires 1 <= n <= MAXBITS && End(lens, n) > Pow2(n)
    ensures Taken(lens) > Pow2(MAXBITS)
  {
    if Taken(lens) <= Pow2(MAXBITS) { EndFits(lens, n); }
  }

  lemma LeftNext(lens: seq<nat>, n: nat)
    requires n >= 1
    ensures Pow2(n) == 2 * Pow2(n - 1)
    ensures End(lens, n) == 2 * (if n == 1 then 0 else End(lens, n - 1)) + Count(lens, n)
  {}

  lemma PowNone()
    ensures Pow2(0) == 1
  {}

  method CheckLengths(lens: seq<nat>, count: array<nat>, kind: Kind, max: nat) returns (ok: bool)
    requires count.Length == MAXBITS + 1 && forall n :: 0 <= n <= MAXBITS ==> count[n] == Count(lens, n)
    requires max == Longest(lens, MAXBITS)
    ensures ok <==> !Rejected(kind, lens)
  {
    hide Count, KraftSum, Longest, Pow2, First;
    assert Pow2(0) == 1 by { PowNone(); }
    var left: int := 1;
    for len := 1 to MAXBITS + 1
      invariant left == Pow2(len - 1) - (if len == 1 then 0 else End(lens, len - 1))
    {
      left := left * 2;
      left := left - count[len];
      LeftNext(lens, len);
      if left < 0 {
        OverAtOnce(lens, len);
        return false;
      }
    }
    KraftEnd(lens, MAXBITS);
    return !(left > 0 && (kind.CODES? || max != 1));
  }

  /** Where the symbols of length n start in the sorted list. */
  function Start(lens: seq<nat>, n: nat): (r: nat)
    requires n >= 1
  {
    ShorterMono(lens, 1, n);
    ShorterNext(lens, 0);
    NoneNegative(lens);
    Shorter(lens, n) - Count(lens, 0)
  }

  lemma {:induction false} NoneNegative(lens: seq<nat>)
    ensures Shorter(lens, 0) == 0
  {
    if lens != [] { NoneNegative(lens[..|lens| - 1]); }
  }

  lemma StartNext(lens: seq<nat>, n: nat)
    requires n >= 1
    ensures Start(lens, n + 1) == Start(lens, n) + Count(lens, n) && Start(lens, 1) == 0
  {
    ShorterNext(lens, n);
    ShorterNext(lens, 0);
    NoneNegative(lens);
  }

  /** A symbol's place in the list sorted by length, then number. */
  function Position(lens: seq<nat>, s: nat): nat
    requires Occurs(lens, s)
  {
    Start(lens, lens[s]) + Count(lens[..s], lens[s])
  }

  lemma PositionBound(lens: seq<nat>, s: nat)
    requires Occurs(lens, s)
    ensures Position(lens, s) < |lens|
  {
    CodeBelowEnd(lens, s);
    ShorterNext(lens, lens[s]);
  }

  ghost predicate Sorted(lens: seq<nat>, work: seq<nat>, n: nat) {
    forall s: nat :: s < n && Occurs(lens, s) ==> Position(lens, s) < |work| && work[Position(lens, s)] == s
  }

  method SortSymbols(lens: seq<nat>, count: array<nat>, work: array<nat>)
    requires Lengths(lens) && work.Length >= |lens| && work != count
    requires count.Length == MAXBITS + 1 && forall n :: 0 <= n <= MAXBITS ==> count[n] == Count(lens, n)
    modifies work
    ensures Sorted(lens, work[..], |lens|)
  {
    hide Count, Shorter, Position, Start;
    var offs := new nat[MAXBITS + 1];
    StartNext(lens, 1);
    offs[1] := 0;
    for len := 1 to MAXBITS
      invariant offs[1] == Start(lens, 1) == 0
      invariant forall n :: 1 <= n <= len ==> offs[n] == Start(lens, n)
    {
      StartNext(lens, len);
      offs[len + 1] := offs[len] + count[len];
    }
    assert forall n :: 1 <= n <= MAXBITS ==> offs[n] == Start(lens, n) + Count(lens[..0], n) by { NoCounts(lens); }
    for sym := 0 to |lens|
      invariant forall n :: 1 <= n <= MAXBITS ==> offs[n] == Start(lens, n) + Count(lens[..sym], n)
      invariant Sorted(lens, work[..], sym)
    {
      CountsNext(lens, sym);
      ghost var w := work[..];
      if lens[sym] != 0 {
        var l := lens[sym];
        PositionAt(lens, sym);
        PositionBound(lens, sym);
        work[offs[l]] := sym;
        assert work[..] == w[Position(lens, sym) := sym];
        offs[l] := offs[l] + 1;
      }
      SortedNext(lens, w, work[..], sym);
    }
  }

  lemma NoCounts(lens: seq<nat>)
    ensures forall n :: 1 <= n <= MAXBITS ==> Count(lens[..0], n) == 0
  {}

  lemma CountsNext(lens: seq<nat>, i: nat)
    requires i < |lens|
    ensures forall n :: 1 <= n <= MAXBITS ==> Count(lens[..i + 1], n) == Count(lens[..i], n) + if lens[i] == n then 1 else 0
  {
    assert lens[..i + 1][..i] == lens[..i];
  }

  lemma PositionAt(lens: seq<nat>, s: nat)
    requires Occurs(lens, s)
    ensures Position(lens, s) == Start(lens, lens[s]) + Count(lens[..s], lens[s])
  {}

  lemma SortedNext(lens: seq<nat>, w: seq<nat>, w': seq<nat>, sym: nat)
    requires sym < |lens| && Sorted(lens, w, sym) && |w'| == |w|
    requires Occurs(lens, sym) ==> Position(lens, sym) < |w| && w' == w[Position(lens, sym) := sym]
    requires !Occurs(lens, sym) ==> w' == w
    ensures Sorted(lens, w', sym + 1)
  {
    forall s: nat | s <= sym && Occurs(lens, s) ensures Position(lens, s) < |w'| && w'[Position(lens, s)] == s {
      if s < sym && Occurs(lens, sym) && Position(lens, s) == Position(lens, sym) { PlacesDiffer(lens, s, sym); }
    }
  }

  // ----- entering codes -----

  /** t is t0 with e at every index of the table at `at` whose low l bits are r. */
  ghost predicate Filled(t0: seq<Entry>, t: seq<Entry>, at: nat, w: nat, l: nat, r: nat, e: Entry) {
    |t| == |t0| &&
    forall a: nat :: a < |t| ==> t[a] == if at <= a < at + Pow2(w) && LowBits(a - at, l) == r then e else t0[a]
  }

  ghost predicate FilledFrom(t0: seq<Entry>, t: seq<Entry>, at: nat, w: nat, l: nat, r: nat, e: Entry, m: nat) {
    |t| == |t0| &&
    forall a: nat :: a < |t| ==>
      t[a] == if at <= a < at + Pow2(w) && LowBits(a - at, l) == r && Shr(a - at, l) >= m then e else t0[a]
  }

  lemma {:induction false} Assembled(m: nat, r: nat, l: nat)
    requires r < Pow2(l)
    ensures LowBits(Shl(m, l) + r, l) == r && Shr(Shl(m, l) + r, l) == m
  {
    if l > 0 {
      Assembled(m, r / 2, l - 1);
      assert (Shl(m, l) + r) / 2 == Shl(m, l - 1) + r / 2;
    }
  }

  lemma FilledNone(t: seq<Entry>, at: nat, w: nat, l: nat, r: nat, e: Entry)
    requires l <= w
    ensures FilledFrom(t, t, at, w, l, r, e, Pow2(w - l))
  {
    hide Shr, LowBits, Pow2;
    forall a: nat | a < |t|
      ensures t[a] == if at <= a < at + Pow2(w) && LowBits(a - at, l) == r && Shr(a - at, l) >= Pow2(w - l) then e else t[a]
    {
      if at <= a < at + Pow2(w) { ShrBound(a - at, w, l); }
    }
  }

  lemma FilledStep(t0: seq<Entry>, t: seq<Entry>, t': seq<Entry>, at: nat, w: nat, l: nat, r: nat, e: Entry, m: nat)
    requires FilledFrom(t0, t, at, w, l, r, e, m + 1) && l <= w && m < Pow2(w - l) && r < Pow2(l)
    requires Shl(m, l) + r < Pow2(w) && at + Pow2(w) <= |t| && t' == t[at + Shl(m, l) + r := e]
    ensures FilledFrom(t0, t', at, w, l, r, e, m)
  {
    hide Shr, LowBits, Pow2, Shl;
    Assembled(m, r, l);
    forall a: nat | a < |t|
      ensures t'[a] == if at <= a < at + Pow2(w) && LowBits(a - at, l) == r && Shr(a - at, l) >= m then e else t0[a]
    {
      if at <= a < at + Pow2(w) { HighLow(a - at, l); }
    }
  }

  lemma IndexBound(m: nat, w: nat, l: nat)
    requires l <= w && m < Pow2(w - l)
    ensures Shl(m + 1, l) == Shl(m, l) + Pow2(l) <= Pow2(w)
  {
    ShlSum(m, 1, l);
    ShlOne(l);
    ShlMono(m + 1, Pow2(w - l), l);
    ShlOne(w - l);
    ShlTwice(1, w - l, l);
    ShlOne(w);
  }

  lemma WholeTable(w: nat, l: nat)
    requires l <= w
    ensures Shl(Pow2(w - l), l) == Pow2(w)
  {
    ShlOne(w - l);
    ShlTwice(1, w - l, l);
    ShlOne(w);
  }

  /** Enter e at every index of a table of 2^w entries with low l bits r. */
  method Replicate(table: array<Entry>, start: nat, at: nat, w: nat, l: nat, r: nat, e: Entry)
    requires l <= w && r < Pow2(l) && start + at + Pow2(w) <= table.Length
    modifies table
    ensures table[..start] == old(table[..start])
    ensures Filled(old(table[start..]), table[start..], at, w, l, r, e)
  {
    hide Shr, LowBits, Pow2, Shl, FilledFrom;
    ghost var t0 := table[start..];
    var incr := Pow2(l);
    var fill := Pow2(w);
    ghost var m: nat := Pow2(w - l);
    FilledNone(t0, at, w, l, r, e);
    WholeTable(w, l);
    while fill != 0
      invariant fill == Shl(m, l) && m <= Pow2(w - l)
      invariant table[..start] == old(table[..start])
      invariant FilledFrom(t0, table[start..], at, w, l, r, e, m)
      decreases m
    {
      ShlZero(m, l);
      m := m - 1;
      IndexBound(m, w, l);
      fill := fill - incr;
      ghost var t := table[start..];
      table[start + at + r + fill] := e;
      assert table[start..] == t[at + Shl(m, l) + r := e] by { SizeKept(t0, t, at, w, l, r, e, m + 1); }
      FilledStep(t0, t, table[start..], at, w, l, r, e, m);
    }
    ShlZero(m, l);
    FilledAll(t0, table[start..], at, w, l, r, e);
  }

  lemma SizeKept(t0: seq<Entry>, t: seq<Entry>, at: nat, w: nat, l: nat, r: nat, e: Entry, m: nat)
    requires FilledFrom(t0, t, at, w, l, r, e, m)
    ensures |t| == |t0|
  {}

  lemma FilledAll(t0: seq<Entry>, t: seq<Entry>, at: nat, w: nat, l: nat, r: nat, e: Entry)
    requires FilledFrom(t0, t, at, w, l, r, e, 0)
    ensures Filled(t0, t, at, w, l, r, e)
  {}

  /** The code after the one whose reversal is huff, reversed: add one at the top and carry downwards. */
  method Increment(huff: nat, len: nat, ghost c: nat) returns (r: nat)
    requires len >= 1 && huff == Rev(c, len)
    ensures r == Rev(c + 1, len)
  {
    hide LowBits, Pow2, TestBit, Rev;
    var bit: int := len - 1;
    ghost var d := c;
    LowBitsAll(huff, len);
    while bit >= 0 && TestBit(huff, bit)
      invariant -1 <= bit < len && LowBits(huff, bit + 1) == Rev(d, bit + 1)
      invariant Rev(c + 1, len) == Rev(d + 1, bit + 1)
    {
      RevBit(huff, d, bit);
      bit := bit - 1;
      d := d / 2;
    }
    if bit >= 0 {
      RevBit(huff, d, bit);
      r := LowBits(huff, bit) + Pow2(bit);
    } else {
      RevNone(d + 1);
      r := 0;
    }
  }

  lemma RevNone(d: nat)
    ensures Rev(d, 0) == 0
  {}

  lemma {:induction false} LowBit(h: nat, b: nat)
    ensures LowBits(h, b + 1) == LowBits(h, b) + if TestBit(h, b) then Pow2(b) else 0
  {
    if b > 0 { LowBit(h / 2, b - 1); } else { assert LowBits(h / 2, 0) == 0; }
  }

  lemma RevBit(h: nat, d: nat, b: nat)
    requires LowBits(h, b + 1) == Rev(d, b + 1)
    ensures TestBit(h, b) <==> d % 2 == 1
    ensures LowBits(h, b) == Rev(d / 2, b)
    ensures Rev(d + 1, b + 1) == if d % 2 == 1 then Rev(d / 2 + 1, b) else Rev(d / 2, b) + Pow2(b)
  {
    hide LowBits, TestBit, Pow2;
    LowBit(h, b);
    if d % 2 == 1 { assert (d + 1) / 2 == d / 2 + 1; } else { assert (d + 1) / 2 == d / 2; }
  }

  // ----- sub-table sizes -----

  /** Index bits for the sub-table of root bits q, whose first code has length len, from the counts still to enter. */
  method NextWidth(count: array<nat>, len: nat, root: nat, max: nat, ghost lens: seq<nat>, ghost q: nat) returns (curr: nat)
    requires root < len <= max < count.Length
    requires count[len] == End(lens, len) - Shl(q, len - root)
    requires forall n :: len < n <= max ==> count[n] == Count(lens, n)
    ensures len <= curr + root <= max
    ensures curr + root < max ==> End(lens, curr + root) >= Shl(q + 1, curr)
    ensures curr + root > len ==> End(lens, curr + root - 1) < Shl(q + 1, curr - 1)
  {
    hide Count, Pow2;
    curr := len - root;
    var left: int := Pow2(curr);
    ShlSum(q, 1, curr);
    ShlOne(curr);
    while curr + root < max
      invariant len <= curr + root <= max
      invariant left - count[curr + root] == Shl(q + 1, curr) - End(lens, curr + root)
      invariant curr + root > len ==> End(lens, curr + root - 1) < Shl(q + 1, curr - 1)
    {
      left := left - count[curr + root];
      if left <= 0 { break; }
      curr := curr + 1;
      left := left * 2;
    }
  }

  /** That is exactly the width of the longest code there. */
  lemma WidthFound(lens: seq<nat>, root: nat, s: nat, d: nat, max: nat)
    requires Lengths(lens) && Taken(lens) <= Pow2(MAXBITS) && Occurs(lens, s) && 1 <= root < lens[s] <= d <= max
    requires max == Longest(lens, MAXBITS)
    requires var q := Stem(lens, root, s);
             && (d < max ==> End(lens, d) >= Shl(q + 1, d - root))
             && (d > lens[s] ==> End(lens, d - 1) < Shl(q + 1, d - 1 - root))
    ensures Deepest(lens, root, Stem(lens, root, s), |lens|) == d
  {
    hide Count, Shr, Shl, Taken, Lengths, Pow2, Stem, First, Longest, End;
    var q := Stem(lens, root, s);
    assert Under(lens, root, q, s);
    forall x: nat | Under(lens, root, q, x) ensures lens[x] <= d {
      if d < lens[x] { if d == max { LongestBounds(lens, x); } else { TooDeep(lens, root, q, d, x); } }
    }
    if d > lens[s] {
      var x := DeepOne(lens, root, s, d, max);
      assert Under(lens, root, q, x);
    }
  }

  /** Codes longer than d lie beyond q when the codes up to d use up its sub-table. */
  lemma TooDeep(lens: seq<nat>, root: nat, q: nat, d: nat, x: nat)
    requires 1 <= root <= d && Occurs(lens, x) && d < lens[x] && End(lens, d) >= Shl(q + 1, d - root)
    ensures Stem(lens, root, x) > q
  {
    hide Count, Shr, Shl, First;
    CodeBelowEnd(lens, x);
    FirstAbove(lens, d, lens[x]);
    ShrMono(First(lens, lens[x]), Code(lens, x), lens[x] - d);
    ShrCut(Code(lens, x), lens[x], d, root);
    ShrMono(Shl(q + 1, d - root), Shr(Code(lens, x), lens[x] - d), d - root);
    ShrShl(q + 1, d - root);
  }

  lemma {:induction false} ShrBetween(v: nat, q: nat, k: nat)
    requires Shl(q, k) <= v < Shl(q + 1, k)
    ensures Shr(v, k) == q
  {
    if k > 0 { ShrBetween(v / 2, q, k - 1); }
  }

  lemma DeepOne(lens: seq<nat>, root: nat, s: nat, d: nat, max: nat) returns (x: nat)
    requires Occurs(lens, s) && 1 <= root < lens[s] < d <= max && Count(lens, max) > 0
    requires var q := Stem(lens, root, s);
             && (d < max ==> End(lens, d) >= Shl(q + 1, d - root))
             && End(lens, d - 1) < Shl(q + 1, d - 1 - root)
    ensures Occurs(lens, x) && lens[x] == d && Stem(lens, root, x) == Stem(lens, root, s)
  {
    hide Count, Shr, First;
    var q, l := Stem(lens, root, s), lens[s];
    CodeBelowEnd(lens, s);
    HighLow(Code(lens, s), l - root);
    ShlMono(Shl(q, l - root), End(lens, l), d - 1 - l);
    ShlTwice(q, l - root, d - 1 - l);
    EndGrows(lens, l, d - 1);
    assert First(lens, d) == 2 * End(lens, d - 1) by { FirstTwice(lens, d); }
    ShrBetween(First(lens, d), q, d - root);
    x := NthSymbol(lens, d, 0);
  }

  lemma FirstTwice(lens: seq<nat>, d: nat)
    requires d >= 2
    ensures First(lens, d) == 2 * End(lens, d - 1)
  {}

  // ----- the main loop -----

  /** The k-th symbol with length n. */
  predicate Nth(lens: seq<nat>, n: nat, k: nat, s: nat) {
    Occurs(lens, s) && lens[s] == n && Count(lens[..s], n) == k
  }

  ghost predicate Entered(t: seq<Entry>, root: nat, kind: Kind, lens: seq<nat>, n: nat, k: nat)
    requires |lens| <= Symbols(kind)
  {
    forall x: nat :: Before(lens, n, k, x) ==> Placed(t, root, kind, lens, x)
  }

  lemma NthOnly(lens: seq<nat>, n: nat, k: nat, s: nat, x: nat)
    requires Nth(lens, n, k, s) && Nth(lens, n, k, x)
    ensures s == x
  {
    SameCode(lens, s, x);
  }

  /** Entering a symbol disturbs no symbol entered before. */
  lemma EnterSymbol(t: seq<Entry>, t': seq<Entry>, root: nat, kind: Kind, lens: seq<nat>, n: nat, k: nat, s: nat)
    requires |lens| <= Symbols(kind) && Lengths(lens) && Taken(lens) <= Pow2(MAXBITS) && 1 <= root <= MAXBITS
    requires Nth(lens, n, k, s) && Entered(t, root, kind, lens, n, k)
    requires Filled(t, t', Home(lens, root, s), Span(lens, root, s), Tail(lens, root, s),
                    Rev(Code(lens, s), Tail(lens, root, s)), Here(kind, s, Tail(lens, root, s)))
    requires Home(lens, root, s) + Pow2(Span(lens, root, s)) <= |t|
    requires n > root ==> Linked(t, root, lens, Stem(lens, root, s))
    ensures Entered(t', root, kind, lens, n, k + 1)
    ensures n > root ==> Linked(t', root, lens, Stem(lens, root, s))
  {
    hide Code, Rev, LowBits, Taken, Pow2, Lengths, Stem, Home, Span, Tail, Here, LinkTo, Placed;
    if n > root {
      LinkFree(lens, root, s, s);
      LinkKept(t, t', root, kind, lens, s, Stem(lens, root, s));
    }
    forall x: nat | Before(lens, n, k + 1, x) ensures Placed(t', root, kind, lens, x) {
      if Before(lens, n, k, x) {
        PlacedKept(t, t', root, kind, lens, n, k, s, x);
      } else {
        NthOnly(lens, n, k, s, x);
        PlacedNow(t, t', root, kind, lens, s);
      }
    }
  }

  lemma LinkKept(t: seq<Entry>, t': seq<Entry>, root: nat, kind: Kind, lens: seq<nat>, s: nat, q: nat)
    requires |lens| <= Symbols(kind) && Occurs(lens, s)
    requires Filled(t, t', Home(lens, root, s), Span(lens, root, s), Tail(lens, root, s),
                    Rev(Code(lens, s), Tail(lens, root, s)), Here(kind, s, Tail(lens, root, s)))
    requires Linked(t, root, lens, q) && !Slot(lens, root, s, Rev(q, root))
    ensures Linked(t', root, lens, q)
  {
    hide Code, LowBits, Pow2, Stem, Home, Span, Tail, Here, LinkTo, Rev;
  }

  lemma PlacedNow(t: seq<Entry>, t': seq<Entry>, root: nat, kind: Kind, lens: seq<nat>, s: nat)
    requires |lens| <= Symbols(kind) && Occurs(lens, s)
    requires Filled(t, t', Home(lens, root, s), Span(lens, root, s), Tail(lens, root, s),
                    Rev(Code(lens, s), Tail(lens, root, s)), Here(kind, s, Tail(lens, root, s)))
    requires Home(lens, root, s) + Pow2(Span(lens, root, s)) <= |t|
    requires lens[s] > root ==> Linked(t', root, lens, Stem(lens, root, s))
    ensures Placed(t', root, kind, lens, s)
  {
    hide Code, LowBits, Pow2, Stem, Home, Span, Tail, Here, Linked, Rev;
  }

  lemma PlacedKept(t: seq<Entry>, t': seq<Entry>, root: nat, kind: Kind, lens: seq<nat>, n: nat, k: nat, s: nat, x: nat)
    requires |lens| <= Symbols(kind) && Lengths(lens) && Taken(lens) <= Pow2(MAXBITS) && 1 <= root <= MAXBITS
    requires Nth(lens, n, k, s) && Before(lens, n, k, x) && Placed(t, root, kind, lens, x)
    requires Filled(t, t', Home(lens, root, s), Span(lens, root, s), Tail(lens, root, s),
                    Rev(Code(lens, s), Tail(lens, root, s)), Here(kind, s, Tail(lens, root, s)))
    ensures Placed(t', root, kind, lens, x)
  {
    hide Code, Rev, LowBits, Taken, Pow2, Lengths, Stem, Home, Span, Tail, Here, LinkTo, Linked;
    if lens[x] > root {
      LinkFree(lens, root, s, x);
      LinkKept(t, t', root, kind, lens, s, Stem(lens, root, x));
    }
    forall a: nat | Slot(lens, root, x, a) && a < |t| ensures t'[a] == Here(kind, x, Tail(lens, root, x)) {
      if Slot(lens, root, s, a) { SlotsDiffer(lens, root, x, s, a); }
    }
  }

  /** Linking new root bits to their sub-table disturbs no symbol entered before. */
  lemma LinkStem(t: seq<Entry>, root: nat, kind: Kind, lens: seq<nat>, n: nat, k: nat, s: nat)
    requires |lens| <= Symbols(kind) && Lengths(lens) && Taken(lens) <= Pow2(MAXBITS) && 1 <= root < n
    requires Nth(lens, n, k, s) && Entered(t, root, kind, lens, n, k) && n <= MAXBITS
    requires forall x: nat :: Before(lens, n, k, x) && lens[x] > root ==> Stem(lens, root, x) < Stem(lens, root, s)
    requires Rev(Stem(lens, root, s), root) < |t|
    ensures var q := Stem(lens, root, s);
            var t' := t[Rev(q, root) := LinkTo(lens, root, q)];
            Entered(t', root, kind, lens, n, k) && Linked(t', root, lens, q)
  {
    hide Code, Rev, LowBits, Taken, Pow2, Lengths, Stem, Home, Span, Tail, Here, LinkTo, Slot;
    var q := Stem(lens, root, s);
    var t' := t[Rev(q, root) := LinkTo(lens, root, q)];
    forall x: nat | Before(lens, n, k, x) ensures Placed(t', root, kind, lens, x) {
      LinkFree(lens, root, x, s);
      if lens[x] > root {
        StemBound(lens, root, x);
        StemBound(lens, root, s);
        if Rev(Stem(lens, root, x), root) == Rev(q, root) { RevInjective(Stem(lens, root, x), q, root); }
      }
    }
  }

  /** The symbol entered after the k-th of length n. */
  lemma Following(lens: seq<nat>, n: nat, k: nat, s: nat, max: nat) returns (m: nat, j: nat, x: nat)
    requires Nth(lens, n, k, s) && n <= max && Count(lens, max) > 0 && (k + 1 < Count(lens, n) || n < max)
    ensures if k + 1 < Count(lens, n) then m == n && j == k + 1 else m > n && j == 0
    ensures m <= max && Nth(lens, m, j, x) && Position(lens, x) == Position(lens, s) + 1
    ensures Code(lens, x) == Shl(Code(lens, s) + 1, m - n)
    ensures forall y: nat :: Before(lens, m, j, y) <==> Before(lens, n, k + 1, y)
  {
    hide Count, Start, First;
    if k + 1 < Count(lens, n) {
      m, j := n, k + 1;
      x := NthSymbol(lens, m, j);
    } else {
      CodeBelowEnd(lens, s);
      m, j := Shortest(lens, n + 1, max), 0;
      x := NthSymbol(lens, m, 0);
      Gap(lens, n, m);
      forall y: nat ensures Before(lens, m, j, y) <==> Before(lens, n, k + 1, y) {
        if y < |lens| {
          assert lens[..|lens|] == lens;
          CountMono(lens, lens[y], y, |lens|);
        }
      }
    }
  }

  /** Unused lengths only shift the running code. */
  lemma {:induction false} Gap(lens: seq<nat>, n: nat, m: nat)
    requires 1 <= n < m && forall i :: n < i < m ==> Count(lens, i) == 0
    ensures First(lens, m) == Shl(End(lens, n), m - n) && Start(lens, m) == Start(lens, n) + Count(lens, n)
    decreases m
  {
    hide Start, Count;
    if n == m - 1 {
      StartNext(lens, n);
    } else {
      Gap(lens, n, m - 1);
      StartNext(lens, m - 1);
    }
  }

  /** The table being filled is the home of the symbol. */
  predicate Window(t: seq<Entry>, root: nat, lens: seq<nat>, s: nat, next: nat, curr: nat, drop: nat, low: int)
    requires Occurs(lens, s)
  {
    if lens[s] <= root then drop == 0 && next == 0 && curr == root && low == -1
    else
      var q := Stem(lens, root, s);
      drop == root && next == Offset(lens, root, q) && curr == Width(lens, root, q) && low == Rev(q, root)
      && Linked(t, root, lens, q)
  }

  lemma WindowHome(t: seq<Entry>, root: nat, lens: seq<nat>, s: nat, next: nat, curr: nat, drop: nat, low: int)
    requires Occurs(lens, s) && Window(t, root, lens, s, next, curr, drop, low)
    requires Lengths(lens) && Taken(lens) <= Pow2(MAXBITS) && 1 <= root <= MAXBITS
    ensures next == Home(lens, root, s) && curr == Span(lens, root, s) && lens[s] - drop == Tail(lens, root, s) <= curr
    ensures lens[s] > root ==> Linked(t, root, lens, Stem(lens, root, s))
    ensures next + Pow2(curr) <= TableSize(lens, root) && drop == if lens[s] <= root then 0 else root
    ensures lens[s] <= root ==> next == 0
    ensures Shr(Rev(Code(lens, s), lens[s]), drop) == Rev(Code(lens, s), lens[s] - drop)
  {
    hide Code, Rev, Pow2, Shr, Stem, Offset, Width, Room, Linked;
    RevShr(Code(lens, s), lens[s], drop);
    if lens[s] > root {
      DeepEnough(lens, root, s);
      StemBound(lens, root, s);
      OffsetMono(lens, root, Stem(lens, root, s), Pow2(root));
    } else {
      OffsetStart(lens, root);
    }
  }

  lemma WindowFirst(t: seq<Entry>, root: nat, lens: seq<nat>, s: nat)
    requires Occurs(lens, s) && lens[s] <= root
    ensures Window(t, root, lens, s, 0, root, 0, -1)
  {}

  lemma WindowOpened(t: seq<Entry>, root: nat, lens: seq<nat>, s: nat)
    requires Occurs(lens, s) && lens[s] > root && Linked(t, root, lens, Stem(lens, root, s))
    ensures var q := Stem(lens, root, s);
            Window(t, root, lens, s, Offset(lens, root, q), Width(lens, root, q), root, LowBits(Rev(Code(lens, s), lens[s]), root))
  {
    RootBitsOf(lens, root, s);
  }

  lemma OffsetStart(lens: seq<nat>, root: nat)
    ensures Offset(lens, root, 0) == Pow2(root) <= TableSize(lens, root)
  {}

  /** Where the next sub-table goes. */
  lemma NextHome(lens: seq<nat>, root: nat, n: nat, k: nat, s: nat, m: nat, j: nat, x: nat)
    requires Lengths(lens) && Taken(lens) <= Pow2(MAXBITS) && 1 <= root < m
    requires Nth(lens, n, k, s) && Nth(lens, m, j, x)
    requires forall y: nat :: Before(lens, m, j, y) <==> Before(lens, n, k + 1, y)
    requires n > root ==> Stem(lens, root, s) != Stem(lens, root, x)
    ensures Home(lens, root, s) + Pow2(Span(lens, root, s)) == Offset(lens, root, Stem(lens, root, x))
    ensures forall y: nat :: Before(lens, m, j, y) && lens[y] > root ==> Stem(lens, root, y) < Stem(lens, root, x)
  {
    hide Code, Pow2, Shr, Stem, Offset, Width, Count;
    var q := Stem(lens, root, x);
    assert Before(lens, m, j, s);
    forall y: nat | Before(lens, m, j, y) && lens[y] > root ensures Stem(lens, root, y) < q {
      StemsUpTo(lens, root, n, k, s, y);
      StemMono(lens, root, s, x);
    }
    OffsetStart(lens, root);
    var p := if n > root then Stem(lens, root, s) + 1 else 0;
    if n > root {
      DeepEnough(lens, root, s);
      StemMono(lens, root, s, x);
      OffsetNext(lens, root, p - 1);
    }
    forall i | p <= i < q ensures Room(lens, root, i) == 0 {
      forall y: nat | Under(lens, root, i, y) ensures false {
        if Before(lens, m, j, y) {
          StemsUpTo(lens, root, n, k, s, y);
        } else {
          NotBefore(lens, root, m, j, x, y);
        }
      }
      NoRoom(lens, root, i);
    }
    OffsetSkip(lens, root, p, q);
  }

  lemma OffsetNext(lens: seq<nat>, root: nat, q: nat)
    ensures Offset(lens, root, q + 1) == Offset(lens, root, q) + Room(lens, root, q)
  {}

  lemma NoRoom(lens: seq<nat>, root: nat, q: nat)
    requires forall y: nat :: !Under(lens, root, q, y)
    ensures Room(lens, root, q) == 0
  {}

  lemma StemsUpTo(lens: seq<nat>, root: nat, n: nat, k: nat, s: nat, y: nat)
    requires Nth(lens, n, k, s) && Before(lens, n, k + 1, y) && lens[y] > root
    ensures n > root && Stem(lens, root, y) <= Stem(lens, root, s)
  {
    hide Stem;
    if Before(lens, n, k, y) { StemMono(lens, root, y, s); } else { NthOnly(lens, n, k, s, y); }
  }

  lemma NotBefore(lens: seq<nat>, root: nat, m: nat, j: nat, x: nat, y: nat)
    requires Nth(lens, m, j, x) && Occurs(lens, y) && !Before(lens, m, j, y) && root <= m
    ensures lens[y] >= m && Stem(lens, root, x) <= Stem(lens, root, y)
  {
    hide Stem;
    if lens[y] == m && Count(lens[..y], m) == j { NthOnly(lens, m, j, x, y); } else { StemMono(lens, root, x, y); }
  }

  /** More entries than provided for, or exactly as many. */
  predicate Full(kind: Kind, used: nat) {
    (kind == LENS && used >= ENOUGH_LENS) || (kind == DISTS && used >= ENOUGH_DISTS)
  }

  /** The space from start on: all that is needed, or what ENOUGH promises. */
  predicate Space(kind: Kind, size: nat, room: int) {
    size <= room || (kind == LENS && ENOUGH_LENS <= room) || (kind == DISTS && ENOUGH_DISTS <= room)
  }

  lemma FullMono(kind: Kind, a: nat, b: nat)
    requires a <= b && Full(kind, a)
    ensures Full(kind, b)
  {}

  lemma FirstSymbol(lens: seq<nat>, min: nat, max: nat, s: nat)
    requires 1 <= max && min == Shortest(lens, 1, max) && Nth(lens, min, 0, s)
    ensures Position(lens, s) == 0 && Code(lens, s) == 0
    ensures forall x: nat :: !Before(lens, min, 0, x)
  {
    hide Start;
    StartNext(lens, 1);
    NoShorterCode(lens, min);
    forall x: nat ensures !Before(lens, min, 0, x) {
      if Occurs(lens, x) {
        CountMono(lens, lens[x], x, |lens|);
        assert lens[..|lens|] == lens;
      }
    }
  }

  lemma {:induction false} NoShorterCode(lens: seq<nat>, n: nat)
    requires n >= 1 && forall i :: 1 <= i < n ==> Count(lens, i) == 0
    ensures First(lens, n) == 0 && Start(lens, n) == 0
  {
    hide Start, Count;
    if n == 1 {
      StartNext(lens, 1);
    } else {
      NoShorterCode(lens, n - 1);
      StartNext(lens, n - 1);
    }
  }

  lemma EnteredNone(t: seq<Entry>, root: nat, kind: Kind, lens: seq<nat>, n: nat)
    requires |lens| <= Symbols(kind) && forall x: nat :: !Before(lens, n, 0, x)
    ensures Entered(t, root, kind, lens, n, 0)
  {}

  lemma EnteredSame(t: seq<Entry>, root: nat, kind: Kind, lens: seq<nat>, n: nat, k: nat, m: nat, j: nat)
    requires |lens| <= Symbols(kind) && Entered(t, root, kind, lens, n, k)
    requires forall y: nat :: Before(lens, m, j, y) <==> Before(lens, n, k, y)
    ensures Entered(t, root, kind, lens, m, j)
  {}

  /** The last sub-table, or the root table, ends the table. */
  lemma LastTable(lens: seq<nat>, root: nat, max: nat, k: nat, s: nat)
    requires Lengths(lens) && Taken(lens) <= Pow2(MAXBITS) && 1 <= root <= max && max == Longest(lens, MAXBITS)
    requires Nth(lens, max, k, s) && k + 1 == Count(lens, max)
    ensures Home(lens, root, s) + Pow2(Span(lens, root, s)) == TableSize(lens, root)
  {
    hide Code, Pow2, Shr, Stem, Offset, Width, Count, Longest;
    OffsetStart(lens, root);
    var p := if max > root then Stem(lens, root, s) + 1 else 0;
    if max > root {
      DeepEnough(lens, root, s);
      StemBound(lens, root, s);
      OffsetNext(lens, root, p - 1);
    }
    forall i | p <= i < Pow2(root) ensures Room(lens, root, i) == 0 {
      forall y: nat | Under(lens, root, i, y) ensures false {
        AllBefore(lens, max, y);
        StemsUpTo(lens, root, max, k, s, y);
      }
      NoRoom(lens, root, i);
    }
    OffsetSkip(lens, root, p, Pow2(root));
  }

  lemma AllBefore(lens: seq<nat>, max: nat, y: nat)
    requires Lengths(lens) && max == Longest(lens, MAXBITS) && Occurs(lens, y)
    ensures Before(lens, max, Count(lens, max), y)
  {
    LongestBounds(lens, y);
    CountMono(lens, lens[y], y, |lens|);
    assert lens[..|lens|] == lens;
  }

  lemma SubTableSize(lens: seq<nat>, root: nat, s: nat)
    requires Lengths(lens) && Taken(lens) <= Pow2(MAXBITS) && 1 <= root && Occurs(lens, s) && root < lens[s]
    ensures var q := Stem(lens, root, s);
            Offset(lens, root, q) + Pow2(Width(lens, root, q)) <= TableSize(lens, root)
    ensures Rev(Stem(lens, root, s), root) < Pow2(root) <= Offset(lens, root, Stem(lens, root, s))
  {
    hide Code, Pow2, Shr, Stem, Offset, Width, Rev;
    DeepEnough(lens, root, s);
    StemBound(lens, root, s);
    OffsetMono(lens, root, Stem(lens, root, s), Pow2(root));
  }

  /** A code whose root bits are new begins their sub-table. */
  lemma StemStart(lens: seq<nat>, root: nat, s: nat, x: nat)
    requires Occurs(lens, s) && Occurs(lens, x) && 1 <= root < lens[x] && lens[s] <= lens[x]
    requires Code(lens, x) == Shl(Code(lens, s) + 1, lens[x] - lens[s])
    requires lens[s] > root ==> Stem(lens, root, s) != Stem(lens, root, x)
    ensures Code(lens, x) == Shl(Stem(lens, root, x), lens[x] - root)
  {
    hide Code, Shr, Shl;
    var n, m, c := lens[s], lens[x], Code(lens, s);
    if n <= root {
      ShlTwice(c + 1, root - n, m - root);
      ShrShl(Shl(c + 1, root - n), m - root);
    } else {
      ShrShl(c + 1, m - n);
      ShrCut(Code(lens, x), m, n, root);
      Carried(c, n - root);
      ShlTwice(Shr(c + 1, n - root), n - root, m - n);
    }
  }

  /** Adding one changes the high part only when the low part becomes zero. */
  lemma {:induction false} Carried(c: nat, k: nat)
    requires Shr(c, k) != Shr(c + 1, k)
    ensures c + 1 == Shl(Shr(c + 1, k), k)
  {
    if k > 0 {
      assert (c + 1) / 2 == c / 2 + c % 2;
      if c % 2 == 1 { Carried(c / 2, k - 1); }
    }
  }

  lemma RootBitsOf(lens: seq<nat>, root: nat, s: nat)
    requires Occurs(lens, s) && root <= lens[s]
    ensures LowBits(Rev(Code(lens, s), lens[s]), root) == Rev(Stem(lens, root, s), root)
  {
    RevLow(Code(lens, s), lens[s], root);
  }

  lemma SameStem(lens: seq<nat>, root: nat, s: nat, x: nat)
    requires Lengths(lens) && Taken(lens) <= Pow2(MAXBITS)
    requires Occurs(lens, s) && Occurs(lens, x) && root < lens[s] && root < lens[x]
    requires Rev(Stem(lens, root, s), root) == Rev(Stem(lens, root, x), root)
    ensures Stem(lens, root, s) == Stem(lens, root, x)
  {
    hide Code, Shr;
    StemBound(lens, root, s);
    StemBound(lens, root, x);
    RevInjective(Stem(lens, root, s), Stem(lens, root, x), root);
  }

  /** The last code of a complete set is all ones. */
  lemma LastEnd(lens: seq<nat>, max: nat)
    requires max == Longest(lens, MAXBITS) > 0
    ensures Shl(End(lens, max), MAXBITS - max) == Taken(lens)
    ensures Taken(lens) == Pow2(MAXBITS) ==> End(lens, max) == Pow2(max)
  {
    hide Count, KraftSum, Start, Longest, Shl, Pow2, First;
    KraftEnd(lens, MAXBITS);
    if max < MAXBITS { Gap(lens, max, MAXBITS); } else { ShlNothing(End(lens, max)); }
    ShlOne(max);
    ShlOne(MAXBITS);
    ShlTwice(1, max, MAXBITS - max);
    ShlMono(End(lens, max), Pow2(max), MAXBITS - max);
    ShlMono(Pow2(max), End(lens, max), MAXBITS - max);
  }

  lemma OneBitLeft(lens: seq<nat>)
    requires Lengths(lens) && Taken(lens) < Pow2(MAXBITS) && Longest(lens, MAXBITS) == 1
    ensures Count(lens, 1) == 1 && First(lens, 1) == 0
  {
    hide Count, Taken, Longest, Shl, First, Pow2;
    LastEnd(lens, 1);
    FirstNone(lens);
    ShlTwo();
    ShlMono(2, End(lens, 1), 14);
  }

  lemma {:induction false} RevZero(k: nat)
    ensures Rev(0, k) == 0
  {
    if k > 0 { RevZero(k - 1); }
  }

  /** Unless the code is a single bit, adding one to its last code wraps around. */
  lemma LastCode(lens: seq<nat>, kind: Kind, max: nat, k: nat, s: nat)
    requires Lengths(lens) && !Rejected(kind, lens) && max == Longest(lens, MAXBITS) > 0
    requires Nth(lens, max, k, s) && k + 1 == Count(lens, max)
    ensures if Taken(lens) == Pow2(MAXBITS) then Rev(Code(lens, s) + 1, max) == 0
            else max == 1 && k == 0 && Count(lens, 1) == 1 && Rev(Code(lens, s) + 1, max) == 1
  {
    hide Count, Taken, Longest, Shl, First, Rev, Pow2;
    LastEnd(lens, max);
    if Taken(lens) == Pow2(MAXBITS) {
      RevWrap(max);
    } else {
      OneBitLeft(lens);
      RevOne();
    }
  }

  lemma RevOne()
    ensures Rev(1, 1) == 1
  {
    assert Rev(0, 0) == 0;
  }

  lemma ShlTwo()
    ensures Shl(2, 14) == Pow2(15)
  {
    ShlTwice(1, 1, 14);
    ShlOne(15);
  }

  lemma FirstNone(lens: seq<nat>)
    ensures First(lens, 1) == 0
  {}

  lemma {:induction false} RevWrap(k: nat)
    ensures Rev(Pow2(k), k) == 0
  {
    if k > 0 { RevWrap(k - 1); }
  }

  /** Open the sub-table of a code's root bits, unless there is no space for it. */
  method OpenTable(kind: Kind, lens: seq<nat>, table: array<Entry>, start: nat, count: array<nat>, root: nat, max: nat,
                   len: nat, huff: nat, after: nat, ghost k: nat, ghost s: nat)
    returns (full: bool, curr: nat)
    requires |lens| <= Symbols(kind) && Lengths(lens) && Taken(lens) <= Pow2(MAXBITS)
    requires Nth(lens, len, k, s) && 1 <= root < len <= max == Longest(lens, MAXBITS)
    requires count.Length == MAXBITS + 1 && count[len] == End(lens, len) - Code(lens, s)
    requires forall n :: len < n <= max ==> count[n] == Count(lens, n)
    requires Code(lens, s) == Shl(Stem(lens, root, s), len - root) && huff == Rev(Code(lens, s), len)
    requires after == Offset(lens, root, Stem(lens, root, s))
    requires forall x: nat :: Before(lens, len, k, x) && lens[x] > root ==> Stem(lens, root, x) < Stem(lens, root, s)
    requires start <= table.Length && Space(kind, TableSize(lens, root), table.Length - start)
    requires Entered(table[start..], root, kind, lens, len, k)
    modifies table
    ensures table[..start] == old(table[..start])
    ensures curr == Width(lens, root, Stem(lens, root, s))
    ensures full == Full(kind, after + Pow2(curr)) && (full ==> Full(kind, TableSize(lens, root)))
    ensures !full ==> Entered(table[start..], root, kind, lens, len, k)
    ensures !full ==> Linked(table[start..], root, lens, Stem(lens, root, s))
  {
    hide Code, Rev, LowBits, Taken, Pow2, Lengths, Stem, Before, Shl, Count, First, Offset, Longest, Entered, TableSize;
    ghost var q := Stem(lens, root, s);
    curr := NextWidth(count, len, root, max, lens, q);
    WidthFound(lens, root, s, curr + root, max);
    SubTableSize(lens, root, s);
    if Full(kind, after + Pow2(curr)) { return true, curr; }
    full := false;
    RootBitsOf(lens, root, s);
    LinkStem(table[start..], root, kind, lens, len, k, s);
    var low := LowBits(huff, root);
    ghost var t := table[start..];
    table[start + low] := Entry(curr, root, after);
    assert table[start..] == t[low := LinkTo(lens, root, q)];
  }

  lemma Fits(kind: Kind, lens: seq<nat>, root: nat, used: nat, room: int)
    requires Space(kind, TableSize(lens, root), room) && used <= TableSize(lens, root) && !Full(kind, used)
    ensures used <= room
  {}

  lemma SortedAt(lens: seq<nat>, work: seq<nat>, s: nat)
    requires Sorted(lens, work, |lens|) && Occurs(lens, s)
    ensures Position(lens, s) < |work| && work[Position(lens, s)] == s
  {}

  /** Fill in the entries of the k-th symbol of length len. */
  method EnterOne(kind: Kind, lens: seq<nat>, table: array<Entry>, start: nat, root: nat, len: nat, huff: nat,
                  next: nat, curr: nat, drop: nat, s: nat, ghost k: nat, ghost low: int)
    requires |lens| <= Symbols(kind) && Lengths(lens) && Taken(lens) <= Pow2(MAXBITS) && 1 <= root <= MAXBITS
    requires Nth(lens, len, k, s) && huff == Rev(Code(lens, s), len)
    requires start <= table.Length && Space(kind, TableSize(lens, root), table.Length - start)
    requires Window(table[start..], root, lens, s, next, curr, drop, low) && !Full(kind, next + Pow2(curr))
    requires Entered(table[start..], root, kind, lens, len, k)
    modifies table
    ensures table[..start] == old(table[..start])
    ensures Entered(table[start..], root, kind, lens, len, k + 1)
    ensures Window(table[start..], root, lens, s, next, curr, drop, low)
  {
    hide Code, Rev, LowBits, Taken, Pow2, Lengths, Stem, Shr, Count, Offset, Entered, TableSize;
    hide Home, Span, Tail, Linked, Width, Filled, Here;
    WindowHome(table[start..], root, lens, s, next, curr, drop, low);
    Fits(kind, lens, root, next + Pow2(curr), table.Length - start);
    var here := Here(kind, s, len - drop);
    ghost var t := table[start..];
    Replicate(table, start, next, curr, len - drop, Shr(huff, drop), here);
    EnterSymbol(t, table[start..], root, kind, lens, len, k, s);
  }

  /** Step the code and its length to the next symbol. */
  method NextCode(lens: seq<nat>, work: array<nat>, count: array<nat>, len: nat, max: nat, huff: nat, sym: nat,
                  ghost k: nat, ghost s: nat)
    returns (done: bool, m: nat, huff': nat, ghost j: nat, ghost x: nat)
    requires Lengths(lens) && Nth(lens, len, k, s) && sym == Position(lens, s) && huff == Rev(Code(lens, s), len)
    requires len <= max == Longest(lens, MAXBITS) && work != count && Sorted(lens, work[..], |lens|)
    requires count.Length == MAXBITS + 1 && count[len] == Count(lens, len) - k
    requires forall n :: len < n <= max ==> count[n] == Count(lens, n)
    modifies count
    ensures huff' == Rev(Code(lens, s) + 1, len)
    ensures done <==> len == max && k + 1 == Count(lens, len)
    ensures done ==> m == max
    ensures !done ==> len <= m <= max && Nth(lens, m, j, x) && Position(lens, x) == sym + 1
    ensures !done ==> Code(lens, x) == Shl(Code(lens, s) + 1, m - len) && huff' == Rev(Code(lens, x), m)
    ensures !done ==> forall y: nat :: Before(lens, m, j, y) <==> Before(lens, len, k + 1, y)
    ensures !done ==> count[m] == Count(lens, m) - j && forall n :: m < n <= max ==> count[n] == Count(lens, n)
  {
    hide Code, Rev, Lengths, Before, Shl, Count, Longest, Sorted, Position;
    SymbolCounts(lens, len, k, s);
    huff' := Increment(huff, len, Code(lens, s));
    count[len] := count[len] - 1;
    done, m, j, x := false, len, 0, 0;
    if count[len] == 0 && len == max { return true, m, huff', 0, 0; }
    ghost var g: nat;
    g, j, x := Following(lens, len, k, s, max);
    SortedAt(lens, work[..], x);
    RevShl(Code(lens, s) + 1, len, g - len);
    if count[len] == 0 { m := lens[work[sym + 1]]; }
  }

  lemma SymbolCounts(lens: seq<nat>, n: nat, k: nat, s: nat)
    requires Lengths(lens) && Nth(lens, n, k, s)
    ensures 1 <= n <= MAXBITS && k < Count(lens, n) && Code(lens, s) == First(lens, n) + k
    ensures End(lens, n) == First(lens, n) + Count(lens, n)
  {
    CodeBelowEnd(lens, s);
  }

  /** Enter all codes in order of length. */
  method EnterCodes(kind: Kind, lens: seq<nat>, table: array<Entry>, start: nat, work: array<nat>, count: array<nat>,
                    root: nat, min: nat, max: nat)
    returns (full: bool, used: nat)
    requires |lens| <= Symbols(kind) && Lengths(lens) && !Rejected(kind, lens)
    requires 1 <= max == Longest(lens, MAXBITS) && min == Shortest(lens, 1, max) <= root <= max
    requires count.Length == MAXBITS + 1 && forall n :: 0 <= n <= MAXBITS ==> count[n] == Count(lens, n)
    requires work != count && Sorted(lens, work[..], |lens|)
    requires start <= table.Length && Space(kind, TableSize(lens, root), table.Length - start)
    modifies table, count
    ensures table[..start] == old(table[..start])
    ensures full <==> Full(kind, TableSize(lens, root))
    ensures !full ==> used == TableSize(lens, root) && Entered(table[start..], root, kind, lens, max, Count(lens, max))
    ensures !full && Taken(lens) < Pow2(MAXBITS) ==> max == 1 && |table[start..]| > 1 && table[start..][1] == Entry(INVALID, 1, 0)
  {
    hide Code, Rev, LowBits, Taken, Pow2, Lengths, Stem, Before, Shl, Shr, Count, First, Offset, Longest, Shortest, Entered, Symbols;
    hide Sorted, Position, Home, Span, Tail, Slot, Linked, Width, TableSize, End, Filled, Here, Space, Window, Full;
    ghost var k: nat := 0;
    ghost var s := NthSymbol(lens, min, 0);
    FirstSymbol(lens, min, max, s);
    var huff, sym, len := 0, 0, min;
    var next: nat, curr: nat, drop: nat := 0, root, 0;
    RevZero(min);
    var low: int := -1;
    used := Pow2(root);
    OffsetStart(lens, root);
    if Full(kind, used) {
      FullMono(kind, used, TableSize(lens, root));
      return true, used;
    }
    EnteredNone(table[start..], root, kind, lens, min);
    WindowFirst(table[start..], root, lens, s);
    while true
      invariant 1 <= len <= max && Nth(lens, len, k, s) && sym == Position(lens, s) && huff == Rev(Code(lens, s), len)
      invariant k < Count(lens, len) && count[len] == Count(lens, len) - k
      invariant forall n :: len < n <= max ==> count[n] == Count(lens, n)
      invariant Window(table[start..], root, lens, s, next, curr, drop, low)
      invariant used == next + Pow2(curr) && !Full(kind, used)
      invariant table[..start] == old(table[..start])
      invariant Entered(table[start..], root, kind, lens, len, k)
      decreases |lens| - sym
    {
      SortedAt(lens, work[..], s);
      PositionBound(lens, s);
      EnterOne(kind, lens, table, start, root, len, huff, next, curr, drop, work[sym], k, low);
      var done, m;
      ghost var j, x;
      done, m, huff, j, x := NextCode(lens, work, count, len, max, huff, sym, k, s);
      if done { break; }
      EnteredSame(table[start..], root, kind, lens, len, k + 1, m, j);
      sym := sym + 1;
      if m > root && LowBits(huff, root) != low {
        StemsDiffer(table[start..], root, lens, s, x, next, curr, drop, low);
        WindowHome(table[start..], root, lens, s, next, curr, drop, low);
        NextHome(lens, root, len, k, s, m, j, x);
        StemStart(lens, root, s, x);
        if drop == 0 { drop := root; }
        next := next + Pow2(curr);
        SymbolCounts(lens, m, j, x);
        full, curr := OpenTable(kind, lens, table, start, count, root, max, m, huff, next, j, x);
        used := used + Pow2(curr);
        if full { return; }
        low := LowBits(huff, root);
        WindowOpened(table[start..], root, lens, x);
      } else {
        WindowSame(table[start..], root, lens, s, x, next, curr, drop, low);
        SymbolCounts(lens, m, j, x);
      }
      len, k, s := m, j, x;
    }
    full := false;
    WindowHome(table[start..], root, lens, s, next, curr, drop, low);
    LastTable(lens, root, max, k, s);
    LastCode(lens, kind, max, k, s);
    Fits(kind, lens, root, used, table.Length - start);
    if huff != 0 {
      LastEntry(table[start..], root, kind, lens, s);
      ghost var t := table[start..];
      table[start + next + huff] := Entry(INVALID, len - drop, 0);
      assert table[start..] == t[1 := Entry(INVALID, 1, 0)];
    }
  }

  lemma StemsDiffer(t: seq<Entry>, root: nat, lens: seq<nat>, s: nat, x: nat,
                    next: nat, curr: nat, drop: nat, low: int)
    requires Occurs(lens, s) && Occurs(lens, x) && Window(t, root, lens, s, next, curr, drop, low)
    requires root < lens[x] && LowBits(Rev(Code(lens, x), lens[x]), root) != low
    ensures lens[s] > root ==> Stem(lens, root, s) != Stem(lens, root, x)
  {
    hide Code, Rev, LowBits, Shr, Stem;
    RootBitsOf(lens, root, x);
  }

  lemma WindowSame(t: seq<Entry>, root: nat, lens: seq<nat>, s: nat, x: nat,
                   next: nat, curr: nat, drop: nat, low: int)
    requires Lengths(lens) && Taken(lens) <= Pow2(MAXBITS)
    requires Occurs(lens, s) && Occurs(lens, x) && Window(t, root, lens, s, next, curr, drop, low)
    requires lens[s] <= lens[x] && (lens[x] <= root || LowBits(Rev(Code(lens, x), lens[x]), root) == low)
    ensures Window(t, root, lens, x, next, curr, drop, low)
  {
    hide Code, Rev, LowBits, Shr, Stem, Taken, Pow2, Lengths, Offset, Width;
    if lens[x] > root {
      RootBitsOf(lens, root, x);
      SameStem(lens, root, s, x);
    }
  }

  /** The unused half of a one-bit code. */
  lemma LastEntry(t: seq<Entry>, root: nat, kind: Kind, lens: seq<nat>, s: nat)
    requires |lens| <= Symbols(kind) && Lengths(lens) && Taken(lens) < Pow2(MAXBITS) && root == 1
    requires 1 == Longest(lens, MAXBITS) && Nth(lens, 1, 0, s) && Count(lens, 1) == 1
    requires Entered(t, root, kind, lens, 1, 1)
    ensures |t| > 1 && Entered(t[1 := Entry(INVALID, 1, 0)], root, kind, lens, 1, 1)
  {
    hide Here, Count, Taken, Longest, Linked, First, Stem, Width, Offset, Lengths;
    FirstNone(lens);
    assert Before(lens, 1, 1, s);
    RevZero(1);
    forall x: nat | Before(lens, 1, 1, x) ensures Placed(t[1 := Entry(INVALID, 1, 0)], root, kind, lens, x) {
      NthOnly(lens, 1, 0, s, x);
      assert LowBits(1, 1) == 1;
    }
  }

  /** Every bit buffer that starts with the unused one-bit code leads to the invalid code marker. */
  ghost predicate RestInvalid(t: seq<Entry>, root: nat) {
    forall hold: nat :: LowBits(hold, 1) == 1 ==> Lookup(t, root, hold) == Hit(INVALID, 0, 1)
  }

  /** Links to sub-tables drop all the root bits. */
  ghost predicate LinksFull(t: seq<Entry>, root: nat) {
    forall i: nat :: i < Pow2(root) ==> FullLink(t, root, i)
  }

  predicate FullLink(t: seq<Entry>, root: nat, i: nat) {
    i < |t| && (Link(t[i]) ==> t[i].bits == root)
  }

  lemma RootEntries(t: seq<Entry>, root: nat, kind: Kind, lens: seq<nat>)
    requires |lens| <= Symbols(kind) && Lengths(lens) && Taken(lens) == Pow2(MAXBITS) && 1 <= root <= MAXBITS
    requires Entered(t, root, kind, lens, Longest(lens, MAXBITS), Count(lens, Longest(lens, MAXBITS)))
    ensures LinksFull(t, root)
  {
    hide Code, LowBits, Count, Longest, Starts, Before, Here, Taken, Rev, Width, Offset;
    forall i: nat | i < Pow2(root) ensures FullLink(t, root, i) {
      var s := SomeCode(lens, i);
      AllBefore(lens, Longest(lens, MAXBITS), s);
      RootEntry(t, root, kind, lens, s, i);
    }
  }

  lemma RootEntry(t: seq<Entry>, root: nat, kind: Kind, lens: seq<nat>, s: nat, i: nat)
    requires |lens| <= Symbols(kind) && i < Pow2(root) && Occurs(lens, s) && Starts(lens, s, i) && Placed(t, root, kind, lens, s)
    ensures FullLink(t, root, i)
  {
    hide Starts, Placed, Pow2, Link;
    if lens[s] <= root { RootSymbol(t, root, kind, lens, s, i); } else { RootLink(t, root, kind, lens, s, i); }
  }

  /** A root table that no link leaves. */
  ghost predicate Flat(t: seq<Entry>, root: nat) {
    forall i: nat :: i < Pow2(root) ==> PlainAt(t, i)
  }

  predicate PlainAt(t: seq<Entry>, i: nat) {
    i < |t| && !Link(t[i])
  }

  lemma RootFlat(t: seq<Entry>, root: nat, kind: Kind, lens: seq<nat>)
    requires |lens| <= Symbols(kind) && Lengths(lens) && Taken(lens) == Pow2(MAXBITS) && Longest(lens, MAXBITS) == root
    requires Entered(t, root, kind, lens, Longest(lens, MAXBITS), Count(lens, Longest(lens, MAXBITS)))
    ensures Flat(t, root)
  {
    hide Code, LowBits, Count, Longest, Starts, Before, Here, Taken, Rev, Width, Offset, Placed;
    forall i: nat | i < Pow2(root) ensures PlainAt(t, i) {
      var s := SomeCode(lens, i);
      AllBefore(lens, Longest(lens, MAXBITS), s);
      LongestBounds(lens, s);
      RootSymbol(t, root, kind, lens, s, i);
    }
  }

  lemma NothingFlat(t: seq<Entry>)
    requires |t| >= 2 && t[0] == t[1] == Entry(INVALID, 1, 0)
    ensures Flat(t, 1)
  {
    assert Pow2(1) == 2;
  }

  lemma RootSymbol(t: seq<Entry>, root: nat, kind: Kind, lens: seq<nat>, s: nat, i: nat)
    requires |lens| <= Symbols(kind) && i < Pow2(root) && Occurs(lens, s) && Starts(lens, s, i) && Placed(t, root, kind, lens, s)
    requires lens[s] <= root
    ensures i < |t| && !Link(t[i])
  {
    hide Code, LowBits, Here, Rev, Width, Offset, Stem, Pow2, Linked, Link;
    assert Slot(lens, root, s, i);
    assert t[i] == Here(kind, s, lens[s]);
  }

  lemma RootLink(t: seq<Entry>, root: nat, kind: Kind, lens: seq<nat>, s: nat, i: nat)
    requires |lens| <= Symbols(kind) && i < Pow2(root) && Occurs(lens, s) && Starts(lens, s, i) && Placed(t, root, kind, lens, s)
    requires lens[s] > root
    ensures i < |t| && t[i].bits == root
  {
    hide Code, LowBits, Here, Rev, Width, Offset, Stem, Pow2, Linked, Slot;
    RootBitsOf(lens, root, s);
    LowBitsTwice(i, lens[s], root);
    LowBitsAll(i, root);
    LinkBits(t, root, lens, Stem(lens, root, s));
  }

  lemma LinkBits(t: seq<Entry>, root: nat, lens: seq<nat>, q: nat)
    requires Linked(t, root, lens, q)
    ensures Rev(q, root) < |t| && t[Rev(q, root)].bits == root
  {}

  lemma AllFound(t: seq<Entry>, root: nat, kind: Kind, lens: seq<nat>)
    requires |lens| <= Symbols(kind) && Lengths(lens) && 1 <= root <= MAXBITS
    requires Entered(t, root, kind, lens, Longest(lens, MAXBITS), Count(lens, Longest(lens, MAXBITS)))
    ensures Finds(t, root, kind, lens)
  {
    hide Code, LowBits, Count, Longest, Lookup, Starts, Before, Placed, Here;
    forall s: nat, hold: nat | Occurs(lens, s) && Starts(lens, s, hold)
      ensures Lookup(t, root, hold) == Hit(Here(kind, s, 0).op, Here(kind, s, 0).val, lens[s])
    {
      AllBefore(lens, Longest(lens, MAXBITS), s);
      PlacedFound(t, root, kind, lens, s, hold);
    }
  }

  /** A table from which every symbol is found by its code, and nothing else is. */
  ghost predicate Decoding(t: seq<Entry>, root: nat, kind: Kind, lens: seq<nat>) {
    && |lens| <= Symbols(kind) && Lengths(lens)
    && if Longest(lens, MAXBITS) == 0 then root == 1 && |t| >= 2 && t[0] == t[1] == Entry(INVALID, 1, 0)
       else
         && !Rejected(kind, lens) && Finds(t, root, kind, lens) && LinksFull(t, root)
         && (Taken(lens) < Pow2(MAXBITS) ==> RestInvalid(t, root))
  }

  /** Build a decoding table at start. The result is 0, -1 for a set of lengths that is not a code, 1 when the table would not fit. */
  method InflateTable(kind: Kind, lens: seq<nat>, table: array<Entry>, start: nat, asked: nat, work: array<nat>)
    returns (ret: int, next: nat, root: nat)
    requires |lens| <= Symbols(kind) && Lengths(lens) && work.Length >= |lens|
    requires start + 2 <= table.Length
    requires Longest(lens, MAXBITS) > 0 && !Rejected(kind, lens) ==> Space(kind, TableSize(lens, RootBits(lens, asked)), table.Length - start)
    modifies table, work
    ensures table[..start] == old(table[..start])
    ensures Longest(lens, MAXBITS) == 0 ==> ret == 0 && next == start + 2 && root == 1
    ensures Longest(lens, MAXBITS) > 0 ==> (ret == -1 <==> Rejected(kind, lens))
    ensures Longest(lens, MAXBITS) > 0 && !Rejected(kind, lens) ==>
      ret == if Full(kind, TableSize(lens, RootBits(lens, asked))) then 1 else 0
    ensures Longest(lens, MAXBITS) > 0 && ret == 0 ==> root == RootBits(lens, asked) && next == start + TableSize(lens, root)
    ensures ret == 0 ==> Decoding(table[start..], root, kind, lens)
    ensures ret == 0 && kind == CODES && Longest(lens, MAXBITS) <= asked ==> Flat(table[start..], root)
  {
    hide Flat, Longest, Shortest, Taken, Pow2, Count, TableSize, Sorted, Entered, Space, Finds, RestInvalid, Rejected;
    var count := CountLengths(lens);
    var min, max;
    root, min, max := FindRoot(lens, count, asked);
    next := start;
    if max == 0 {
      table[next] := Entry(INVALID, 1, 0);
      next := next + 1;
      table[next] := Entry(INVALID, 1, 0);
      next := next + 1;
      assert table[start..][0] == table[start] && table[start..][1] == table[start + 1];
      NothingFlat(table[start..]);
      return 0, next, 1;
    }
    var ok := CheckLengths(lens, count, kind, max);
    if !ok { return -1, next, root; }
    SortSymbols(lens, count, work);
    var full, used := EnterCodes(kind, lens, table, start, work, count, root, min, max);
    if full { return 1, next, root; }
    AllFound(table[start..], root, kind, lens);
    if Taken(lens) < Pow2(MAXBITS) {
      LeftInvalid(table[start..], kind, lens);
      NotCodes(kind, lens);
    } else {
      assert Taken(lens) == Pow2(MAXBITS) by { NotOver(kind, lens); }
      RootEntries(table[start..], root, kind, lens);
      if max == root { RootFlat(table[start..], root, kind, lens); }
    }
    return 0, next + used, root;
  }

  lemma LeftInvalid(t: seq<Entry>, kind: Kind, lens: seq<nat>)
    requires |lens| <= Symbols(kind) && Lengths(lens) && Taken(lens) < Pow2(MAXBITS) && Longest(lens, MAXBITS) == 1
    requires |t| > 1 && t[1] == Entry(INVALID, 1, 0) && Entered(t, 1, kind, lens, 1, Count(lens, 1))
    ensures RestInvalid(t, 1) && LinksFull(t, 1)
  {
    hide Count, Here, Taken, Longest, First, Slot, Linked, Pow2;
    OneBitLeft(lens);
    var s := NthSymbol(lens, 1, 0);
    assert Before(lens, 1, 1, s);
    assert Pow2(1) == 2 by { RevOneBit(); }
    assert Slot(lens, 1, s, 0) by { FirstSlot(lens, s); }
  }

  lemma NotCodes(kind: Kind, lens: seq<nat>)
    requires !Rejected(kind, lens) && Taken(lens) < Pow2(MAXBITS)
    ensures kind != CODES
  {}

  lemma NotOver(kind: Kind, lens: seq<nat>)
    requires !Rejected(kind, lens)
    ensures Taken(lens) <= Pow2(MAXBITS)
  {}

  lemma RevOneBit()
    ensures Pow2(1) == 2 && Rev(0, 1) == 0 && LowBits(0, 1) == 0
  {
    RevZero(1);
  }

  lemma FirstSlot(lens: seq<nat>, s: nat)
    requires Occurs(lens, s) && lens[s] == 1 && First(lens, 1) == 0 && Count(lens[..s], 1) == 0
    ensures Slot(lens, 1, s, 0)
  {
    hide First, Count;
    RevOneBit();
  }

  // ----- what inflate relies on -----

  /** With a complete code every bit buffer is decoded, to the symbol whose code it starts with and no other. */
  lemma Decodes(t: seq<Entry>, root: nat, kind: Kind, lens: seq<nat>, hold: nat) returns (s: nat)
    requires |lens| <= Symbols(kind) && Lengths(lens) && Taken(lens) == Pow2(MAXBITS) && Finds(t, root, kind, lens)
    ensures Occurs(lens, s) && Starts(lens, s, hold)
    ensures Lookup(t, root, hold) == Hit(Here(kind, s, 0).op, Here(kind, s, 0).val, lens[s])
    ensures forall x: nat :: Occurs(lens, x) && Starts(lens, x, hold) ==> x == s
  {
    hide Lookup, Here, Starts, Taken, Pow2;
    s := SomeCode(lens, hold);
    forall x: nat | Occurs(lens, x) && Starts(lens, x, hold) ensures x == s {
      if lens[x] <= lens[s] { OneCode(lens, x, s, hold); } else { OneCode(lens, s, x, hold); }
    }
  }

  /** A bit stream that begins with the code of s leads to the entry of s and drops exactly that code. */
  lemma FindsCode(t: seq<Entry>, root: nat, kind: Kind, lens: seq<nat>, s: nat, rest: bits)
    requires |lens| <= Symbols(kind) && Finds(t, root, kind, lens) && Occurs(lens, s)
    ensures var hold := Hold(CodeBits(lens, s) + rest);
            && Lookup(t, root, hold) == Hit(Here(kind, s, 0).op, Here(kind, s, 0).val, lens[s])
            && Shr(hold, lens[s]) == Hold(rest)
  {
    hide Lookup, Here, Code;
    StartsBits(lens, s, rest);
    HoldParts(CodeBits(lens, s), rest);
  }
}
