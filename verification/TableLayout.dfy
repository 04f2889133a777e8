/** Inflate's two-level decoding table: what a lookup means, and where each code's entries belong. */
module TableLayout {
  import opened Words
  import opened Codes
  import opened InflateCodes

  datatype Kind = CODES | LENS | DISTS

  datatype Entry = Entry(op: nat, bits: nat, val: nat)

  const LBASE: seq<nat> := [3, 4, 5, 6, 7, 8, 9, 10, 11, 13, 15, 17, 19, 23, 27, 31,
                            35, 43, 51, 59, 67, 83, 99, 115, 131, 163, 195, 227, 258, 0, 0]
  const LEXT: seq<nat> := [16, 16, 16, 16, 16, 16, 16, 16, 17, 17, 17, 17, 18, 18, 18, 18,
                           19, 19, 19, 19, 20, 20, 20, 20, 21, 21, 21, 21, 16, 78, 68]
  const DBASE: seq<nat> := [1, 2, 3, 4, 5, 7, 9, 13, 17, 25, 33, 49, 65, 97, 129, 193,
                            257, 385, 513, 769, 1025, 1537, 2049, 3073, 4097, 6145,
                            8193, 12289, 16385, 24577, 0, 0]
  const DEXT: seq<nat> := [16, 16, 16, 16, 17, 17, 18, 18, 19, 19, 20, 20, 21, 21, 22, 22,
                           23, 23, 24, 24, 25, 25, 26, 26, 27, 27, 28, 28, 29, 29, 64, 64]

  const END_OF_BLOCK: nat := 96
  const INVALID: nat := 64

  /** The symbols the base and extra tables have room for. */
  function Symbols(kind: Kind): nat {
    match kind
    case CODES => 19
    case LENS => 288
    case DISTS => 32
  }

  /** The entry of a symbol of which the table holds the last n bits. */
  function Here(kind: Kind, s: nat, n: nat): (e: Entry)
    requires s < Symbols(kind)
    ensures e.bits == n && !Link(e)
  {
    match kind
    case CODES => Entry(0, n, s)
    case LENS =>
      if s < 256 then Entry(0, n, s)
      else if s == 256 then Entry(END_OF_BLOCK, n, 0)
      else Entry(LEXT[s - 257], n, LBASE[s - 257])
    case DISTS => Entry(DEXT[s], n, DBASE[s])
  }

  /** A root entry that leads to a sub-table: op is neither 0 nor does it have a high bit set. */
  predicate Link(e: Entry) {
    0 < e.op < 16
  }

  datatype Hit = Hit(op: nat, val: nat, bits: nat) | Stray

  /** The entry the bit buffer leads to, and how many bits to drop. */
  function Lookup(t: seq<Entry>, root: nat, hold: nat): Hit {
    var i := LowBits(hold, root);
    if i >= |t| then Stray
    else if !Link(t[i]) then Hit(t[i].op, t[i].val, t[i].bits)
    else
      var j := t[i].val + LowBits(Shr(hold, t[i].bits), t[i].op);
      if j >= |t| then Stray else Hit(t[j].op, t[j].val, t[i].bits + t[j].bits)
  }

  /** The table finds every symbol by its code. */
  ghost predicate Finds(t: seq<Entry>, root: nat, kind: Kind, lens: seq<nat>)
    requires |lens| <= Symbols(kind)
  {
    forall s: nat, hold: nat :: Occurs(lens, s) && Starts(lens, s, hold) ==>
      Lookup(t, root, hold) == Hit(Here(kind, s, 0).op, Here(kind, s, 0).val, lens[s])
  }

  // ----- layout -----

  /** The first root bits of a code at least that long. */
  function Stem(lens: seq<nat>, root: nat, s: nat): nat
    requires Occurs(lens, s) && root <= lens[s]
  {
    Shr(Code(lens, s), lens[s] - root)
  }

  predicate Under(lens: seq<nat>, root: nat, q: nat, s: nat) {
    Occurs(lens, s) && lens[s] > root && Stem(lens, root, s) == q
  }

  /** The longest of the codes, among the first i symbols, longer than root and starting with the root bits q. */
  function Deepest(lens: seq<nat>, root: nat, q: nat, i: nat): (d: nat)
    requires i <= |lens|
    ensures d == 0 || d > root
    ensures forall s :: 0 <= s < i && Under(lens, root, q, s) ==> lens[s] <= d
    ensures d > 0 ==> exists s :: 0 <= s < i && Under(lens, root, q, s) && lens[s] == d
  {
    if i == 0 then 0
    else
      var d := Deepest(lens, root, q, i - 1);
      if Under(lens, root, q, i - 1) && lens[i - 1] > d then lens[i - 1] else d
  }

  /** Index bits of the sub-table for root bits q: just enough for the longest code there. */
  function Width(lens: seq<nat>, root: nat, q: nat): nat {
    var d := Deepest(lens, root, q, |lens|);
    if d == 0 then 0 else d - root
  }

  /** Entries of the sub-table for root bits q. */
  function Room(lens: seq<nat>, root: nat, q: nat): nat {
    if Deepest(lens, root, q, |lens|) == 0 then 0 else Pow2(Width(lens, root, q))
  }

  /** Where the sub-table for root bits q is: after the root table and the sub-tables before it. */
  function Offset(lens: seq<nat>, root: nat, q: nat): (b: nat)
    ensures b >= Pow2(root)
  {
    if q == 0 then Pow2(root) else Offset(lens, root, q - 1) + Room(lens, root, q - 1)
  }

  function TableSize(lens: seq<nat>, root: nat): nat {
    Offset(lens, root, Pow2(root))
  }

  /** Where the table with the last bits of a code begins. */
  function Home(lens: seq<nat>, root: nat, s: nat): nat
    requires Occurs(lens, s)
  {
    if lens[s] <= root then 0 else Offset(lens, root, Stem(lens, root, s))
  }

  /** Its index bits. */
  function Span(lens: seq<nat>, root: nat, s: nat): nat
    requires Occurs(lens, s)
  {
    if lens[s] <= root then root else Width(lens, root, Stem(lens, root, s))
  }

  /** The bits of the code it decides. */
  function Tail(lens: seq<nat>, root: nat, s: nat): nat
    requires Occurs(lens, s)
  {
    if lens[s] <= root then lens[s] else lens[s] - root
  }

  /** An index whose low bits are the last bits of the code. */
  predicate Slot(lens: seq<nat>, root: nat, s: nat, a: nat)
    requires Occurs(lens, s)
  {
    var home, tail := Home(lens, root, s), Tail(lens, root, s);
    home <= a < home + Pow2(Span(lens, root, s)) && LowBits(a - home, tail) == Rev(Code(lens, s), tail)
  }

  function LinkTo(lens: seq<nat>, root: nat, q: nat): Entry {
    Entry(Width(lens, root, q), root, Offset(lens, root, q))
  }

  predicate Linked(t: seq<Entry>, root: nat, lens: seq<nat>, q: nat) {
    Rev(q, root) < |t| && t[Rev(q, root)] == LinkTo(lens, root, q)
  }

  /** All the entries of a symbol are in the table. */
  ghost predicate Placed(t: seq<Entry>, root: nat, kind: Kind, lens: seq<nat>, s: nat)
    requires |lens| <= Symbols(kind) && Occurs(lens, s)
  {
    && (lens[s] > root ==> Linked(t, root, lens, Stem(lens, root, s)))
    && Home(lens, root, s) + Pow2(Span(lens, root, s)) <= |t|
    && forall a: nat :: Slot(lens, root, s, a) && a < |t| ==> t[a] == Here(kind, s, Tail(lens, root, s))
  }

  lemma DeepEnough(lens: seq<nat>, root: nat, s: nat)
    requires Lengths(lens) && Occurs(lens, s) && lens[s] > root
    ensures lens[s] - root <= Width(lens, root, Stem(lens, root, s)) <= MAXBITS - root
    ensures Room(lens, root, Stem(lens, root, s)) == Pow2(Width(lens, root, Stem(lens, root, s)))
  {
    hide Code, Shr, Stem;
    assert Under(lens, root, Stem(lens, root, s), s);
  }

  lemma {:induction false} ShrLow(h: nat, k: nat, j: nat)
    requires j <= k
    ensures Shr(LowBits(h, k), j) == LowBits(Shr(h, j), k - j)
  {
    if j > 0 {
      ShrLow(h / 2, k - 1, j - 1);
      assert LowBits(h, k) / 2 == LowBits(h / 2, k - 1);
    }
  }

  /** A placed symbol is found by its code. */
  lemma PlacedFound(t: seq<Entry>, root: nat, kind: Kind, lens: seq<nat>, s: nat, hold: nat)
    requires |lens| <= Symbols(kind) && Lengths(lens) && 1 <= root <= MAXBITS
    requires Occurs(lens, s) && Placed(t, root, kind, lens, s) && Starts(lens, s, hold)
    ensures Lookup(t, root, hold) == Hit(Here(kind, s, 0).op, Here(kind, s, 0).val, lens[s])
  {
    hide Code, Rev, LowBits, Shr, Pow2, Offset, Width;
    var l := lens[s];
    if l <= root {
      LowBitsTwice(hold, root, l);
      assert Slot(lens, root, s, LowBits(hold, root));
    } else {
      var q, c := Stem(lens, root, s), Code(lens, s);
      DeepEnough(lens, root, s);
      var w := Width(lens, root, q);
      LowBitsTwice(hold, l, root);
      RevLow(c, l, root);
      assert LowBits(hold, root) == Rev(q, root);
      ShrLow(hold, l, root);
      RevShr(c, l, root);
      LowBitsTwice(Shr(hold, root), w, l - root);
      assert Slot(lens, root, s, Offset(lens, root, q) + LowBits(Shr(hold, root), w));
    }
  }

  // ----- no two symbols share an entry -----

  lemma {:induction false} OffsetMono(lens: seq<nat>, root: nat, p: nat, q: nat)
    requires p < q
    ensures Offset(lens, root, p) + Room(lens, root, p) <= Offset(lens, root, q)
    decreases q
  {
    hide Room, Width, Deepest, Stem, Code, Pow2;
    if p < q - 1 { OffsetMono(lens, root, p, q - 1); }
  }

  lemma {:induction false} OffsetSkip(lens: seq<nat>, root: nat, p: nat, q: nat)
    requires p <= q && forall i :: p <= i < q ==> Room(lens, root, i) == 0
    ensures Offset(lens, root, p) == Offset(lens, root, q)
    decreases q
  {
    hide Room, Width, Deepest, Stem, Code, Pow2;
    if p < q { OffsetSkip(lens, root, p, q - 1); }
  }

  lemma {:induction false} RevSame(a: nat, b: nat, k: nat)
    requires Rev(a, k) == Rev(b, k)
    ensures LowBits(a, k) == LowBits(b, k)
  {
    if k > 0 { RevSame(a / 2, b / 2, k - 1); }
  }

  lemma {:induction false} ShrCut(c: nat, l: nat, m: nat, r: nat)
    requires r <= m <= l
    ensures Shr(Shr(c, l - m), m - r) == Shr(c, l - r)
  {
    ShrTwice(c, l - m, m - r);
  }

  /** Codes under the same root bits never share an index of their sub-table. */
  lemma TailsDiffer(lens: seq<nat>, root: nat, s: nat, t: nat, j: nat)
    requires Lengths(lens) && Taken(lens) <= Pow2(MAXBITS)
    requires Occurs(lens, s) && Occurs(lens, t) && root < lens[s] <= lens[t]
    requires Stem(lens, root, s) == Stem(lens, root, t)
    requires LowBits(j, lens[s] - root) == Rev(Code(lens, s), lens[s] - root)
    requires LowBits(j, lens[t] - root) == Rev(Code(lens, t), lens[t] - root)
    ensures s == t
  {
    hide Code, Rev, LowBits, Shr, Taken, Pow2, Lengths;
    var a, b, c, d := lens[s], lens[t], Code(lens, s), Code(lens, t);
    LowBitsTwice(j, b - root, a - root);
    RevLow(d, b - root, a - root);
    RevSame(c, Shr(d, b - a), a - root);
    ShrCut(d, b, a, root);
    HighLow(c, a - root);
    HighLow(Shr(d, b - a), a - root);
    if a < b {
      CodeAbove(lens, s, t);
    } else {
      ShrNone(d);
      SameCode(lens, s, t);
    }
  }

  lemma SlotsDiffer(lens: seq<nat>, root: nat, s: nat, t: nat, a: nat)
    requires Lengths(lens) && Taken(lens) <= Pow2(MAXBITS) && 1 <= root <= MAXBITS
    requires Occurs(lens, s) && Occurs(lens, t) && lens[s] <= lens[t]
    requires Slot(lens, root, s, a) && Slot(lens, root, t, a)
    ensures s == t
  {
    hide Code, Rev, LowBits, Shr, Taken, Pow2, Lengths, Stem, Offset, Width, Room;
    if lens[t] <= root {
      OneCode(lens, s, t, a);
    } else if lens[s] > root {
      DeepEnough(lens, root, s);
      DeepEnough(lens, root, t);
      var p, q := Stem(lens, root, s), Stem(lens, root, t);
      if p < q { OffsetMono(lens, root, p, q); }
      if q < p { OffsetMono(lens, root, q, p); }
      TailsDiffer(lens, root, s, t, a - Offset(lens, root, p));
    }
  }

  lemma StemBound(lens: seq<nat>, root: nat, s: nat)
    requires Lengths(lens) && Taken(lens) <= Pow2(MAXBITS) && Occurs(lens, s) && root <= lens[s]
    ensures Stem(lens, root, s) < Pow2(root)
  {
    hide Code, Taken, Pow2;
    CodeBelow(lens, s);
    ShrBound(Code(lens, s), lens[s], lens[s] - root);
  }

  /** Root entries with links hold no symbol. */
  lemma LinkFree(lens: seq<nat>, root: nat, s: nat, t: nat)
    requires Lengths(lens) && Taken(lens) <= Pow2(MAXBITS) && 1 <= root <= MAXBITS
    requires Occurs(lens, s) && Occurs(lens, t) && lens[t] > root
    ensures !Slot(lens, root, s, Rev(Stem(lens, root, t), root))
  {
    hide Code, Rev, LowBits, Shr, Taken, Pow2, Lengths, Offset, Width;
    var i := Rev(Stem(lens, root, t), root);
    if lens[s] <= root && Slot(lens, root, s, i) {
      var l, c := lens[t], Code(lens, t);
      RevLow(c, l, root);
      LowBitsTwice(Rev(c, l), root, lens[s]);
      LowBitsAll(Rev(c, l), l);
      assert Starts(lens, s, Rev(c, l)) && Starts(lens, t, Rev(c, l));
      OneCode(lens, s, t, Rev(c, l));
    }
  }

  // ----- the order in which codes are entered -----

  /** The symbols whose codes come before the k-th code of length n. */
  predicate Before(lens: seq<nat>, n: nat, k: nat, s: nat) {
    Occurs(lens, s) && (lens[s] < n || (lens[s] == n && Count(lens[..s], n) < k))
  }

  /** Root bits never decrease from code to code. */
  lemma StemMono(lens: seq<nat>, root: nat, s: nat, t: nat)
    requires Occurs(lens, s) && Occurs(lens, t) && root <= lens[s] && Before(lens, lens[t], Count(lens[..t], lens[t]), s)
    ensures Stem(lens, root, s) <= Stem(lens, root, t)
  {
    hide First, Count, Shr;
    var a, b := lens[s], lens[t];
    if a < b {
      CodeAbove(lens, s, t);
      ShrCut(Code(lens, t), b, a, root);
      ShrMono(Code(lens, s), Shr(Code(lens, t), b - a), a - root);
    } else {
      ShrMono(Code(lens, s), Code(lens, t), a - root);
    }
  }
}
