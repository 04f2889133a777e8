/** Canonical codes of RFC 1951, section 3.2.2, as inflate meets them: the first bit of a code least significant. */
module InflateCodes {
  import opened Words
  import opened Bits
  import opened Codes

  const MAXBITS: nat := 15

  /** The bit buffer holding b: bits enter at the top and leave at the bottom. */
  function Hold(b: bits): nat {
    if b == [] then 0 else (if b[0] then 1 else 0) + 2 * Hold(b[1..])
  }

  /** The low k bits of c, reversed. */
  function Rev(c: nat, k: nat): (r: nat)
    ensures r < Pow2(k)
  {
    if k == 0 then 0 else Rev(c / 2, k - 1) + if c % 2 == 1 then Pow2(k - 1) else 0
  }

  lemma {:induction false} HoldParts(a: bits, b: bits)
    ensures LowBits(Hold(a + b), |a|) == Hold(a) && Shr(Hold(a + b), |a|) == Hold(b)
  {
    if a == [] {
      assert a + b == b;
    } else {
      HoldParts(a[1..], b);
      assert (a + b)[1..] == a[1..] + b;
    }
  }

  lemma {:induction false} HoldMore(a: bits, x: bool)
    ensures Hold(a + [x]) == Hold(a) + if x then Pow2(|a|) else 0
  {
    if a == [] {
      assert a + [x] == [x];
    } else {
      HoldMore(a[1..], x);
      assert (a + [x])[1..] == a[1..] + [x];
    }
  }

  /** A code sent most significant bit first arrives reversed. */
  lemma {:induction false} HoldCode(c: nat, k: nat)
    ensures Hold(BitsOf(c, k)) == Rev(c, k)
  {
    if k > 0 {
      HoldCode(c / 2, k - 1);
      HoldMore(BitsOf(c / 2, k - 1), c % 2 == 1);
    }
  }

  lemma {:induction false} LowBitsAbove(v: nat, m: nat, j: nat)
    requires j <= m
    ensures LowBits(v + Pow2(m), j) == LowBits(v, j)
  {
    if j > 0 {
      assert (v + Pow2(m)) / 2 == v / 2 + Pow2(m - 1);
      LowBitsAbove(v / 2, m - 1, j - 1);
    }
  }

  lemma {:induction false} ShrAbove(v: nat, m: nat, j: nat)
    requires j <= m
    ensures Shr(v + Pow2(m), j) == Shr(v, j) + Pow2(m - j)
  {
    if j > 0 {
      assert (v + Pow2(m)) / 2 == v / 2 + Pow2(m - 1);
      ShrAbove(v / 2, m - 1, j - 1);
    }
  }

  lemma {:induction false} LowBitsAll(v: nat, k: nat)
    requires v < Pow2(k)
    ensures LowBits(v, k) == v && Shr(v, k) == 0
  {
    if k > 0 { LowBitsAll(v / 2, k - 1); }
  }

  /** Cutting a reversed code keeps the first bits of the code. */
  lemma {:induction false} RevLow(c: nat, k: nat, j: nat)
    requires j <= k
    ensures LowBits(Rev(c, k), j) == Rev(Shr(c, k - j), j)
    decreases k
  {
    hide LowBits, Pow2;
    if j == k {
      LowBitsAll(Rev(c, k), k);
    } else {
      RevLow(c / 2, k - 1, j);
      LowBitsAbove(Rev(c / 2, k - 1), k - 1, j);
    }
  }

  /** Dropping bits from a reversed code drops the first bits of the code. */
  lemma {:induction false} RevShr(c: nat, k: nat, j: nat)
    requires j <= k
    ensures Shr(Rev(c, k), j) == Rev(c, k - j)
    decreases k
  {
    if j == k {
      LowBitsAll(Rev(c, k), k);
    } else {
      RevShr(c / 2, k - 1, j);
      ShrAbove(Rev(c / 2, k - 1), k - 1, j);
    }
  }

  lemma {:induction false} RevShl(c: nat, k: nat, j: nat)
    ensures Rev(Shl(c, j), k + j) == Rev(c, k)
  {
    if j > 0 {
      RevShl(c, k, j - 1);
      assert Shl(c, j) / 2 == Shl(c, j - 1);
    }
  }

  lemma {:induction false} RevInjective(a: nat, b: nat, k: nat)
    requires a < Pow2(k) && b < Pow2(k) && Rev(a, k) == Rev(b, k)
    ensures a == b
  {
    if k > 0 { RevInjective(a / 2, b / 2, k - 1); }
  }

  lemma {:induction false} ShrBound(c: nat, k: nat, j: nat)
    requires j <= k && c < Pow2(k)
    ensures Shr(c, j) < Pow2(k - j)
  {
    if j > 0 { ShrBound(c / 2, k - 1, j - 1); }
  }

  lemma {:induction false} ShrShl(c: nat, j: nat)
    ensures Shr(Shl(c, j), j) == c
  {
    if j > 0 {
      assert Shl(c, j) / 2 == Shl(c, j - 1);
      ShrShl(c, j - 1);
    }
  }

  lemma {:induction false} ShlTwice(c: nat, j: nat, k: nat)
    ensures Shl(Shl(c, j), k) == Shl(c, j + k)
  {
    if k > 0 { ShlTwice(c, j, k - 1); }
  }

  lemma {:induction false} ShlSum(a: nat, b: nat, k: nat)
    ensures Shl(a + b, k) == Shl(a, k) + Shl(b, k)
  {
    if k > 0 { ShlSum(a, b, k - 1); }
  }

  lemma {:induction false} ShlOne(k: nat)
    ensures Shl(1, k) == Pow2(k)
  {
    if k > 0 { ShlOne(k - 1); }
  }

  /** A number is its high part and its low part. */
  lemma {:induction false} HighLow(v: nat, k: nat)
    ensures v == Shl(Shr(v, k), k) + LowBits(v, k)
  {
    if k > 0 { HighLow(v / 2, k - 1); }
  }

  // ----- code lengths -----

  /** Code lengths as inflate_table takes them: zero for a symbol that does not occur. */
  predicate Lengths(lens: seq<nat>) {
    forall s :: 0 <= s < |lens| ==> lens[s] <= MAXBITS
  }

  /** The code space, in units of the longest codes, that the lengths ask for. */
  function Taken(lens: seq<nat>): nat {
    KraftSum(lens, MAXBITS)
  }

  predicate Occurs(lens: seq<nat>, s: nat) {
    s < |lens| && lens[s] > 0
  }

  lemma {:induction false} EndGrows(lens: seq<nat>, m: nat, n: nat)
    requires 1 <= m <= n
    ensures Shl(End(lens, m), n - m) <= End(lens, n)
    decreases n
  {
    if m < n { EndGrows(lens, m, n - 1); }
  }

  lemma {:induction false} ShlMono(a: nat, b: nat, k: nat)
    ensures Shl(a, k) <= Shl(b, k) <==> a <= b
  {
    if k > 0 { ShlMono(a, b, k - 1); }
  }

  /** When the lengths ask for no more than there is, the codes of each length fit it. */
  lemma EndFits(lens: seq<nat>, n: nat)
    requires Taken(lens) <= Pow2(MAXBITS) && 1 <= n <= MAXBITS
    ensures End(lens, n) <= Pow2(n)
  {
    hide End, KraftSum, Pow2, Shl;
    KraftEnd(lens, MAXBITS);
    EndGrows(lens, n, MAXBITS);
    ShlOne(n);
    ShlOne(MAXBITS);
    ShlTwice(1, n, MAXBITS - n);
    ShlMono(End(lens, n), Pow2(n), MAXBITS - n);
  }

  lemma CodeBelow(lens: seq<nat>, s: nat)
    requires Occurs(lens, s) && Lengths(lens) && Taken(lens) <= Pow2(MAXBITS)
    ensures First(lens, lens[s]) <= Code(lens, s) < End(lens, lens[s]) <= Pow2(lens[s])
  {
    hide First, Count, Taken, Pow2;
    EndFits(lens, lens[s]);
    CodeBelowEnd(lens, s);
  }

  /** The bit buffer starts with the code of s. */
  predicate Starts(lens: seq<nat>, s: nat, hold: nat)
    requires s < |lens|
  {
    LowBits(hold, lens[s]) == Rev(Code(lens, s), lens[s])
  }

  lemma StartsBits(lens: seq<nat>, s: nat, rest: bits)
    requires s < |lens|
    ensures Starts(lens, s, Hold(CodeBits(lens, s) + rest))
  {
    HoldParts(CodeBits(lens, s), rest);
    HoldCode(Code(lens, s), lens[s]);
  }

  /** A longer code starts above every shorter one. */
  lemma CodeAbove(lens: seq<nat>, s: nat, t: nat)
    requires Occurs(lens, s) && Occurs(lens, t) && lens[s] < lens[t]
    ensures Shr(Code(lens, t), lens[t] - lens[s]) > Code(lens, s)
  {
    hide First, Count, Shr;
    CodeBelowEnd(lens, s);
    CodeBelowEnd(lens, t);
    FirstAbove(lens, lens[s], lens[t]);
    ShrMono(First(lens, lens[t]), Code(lens, t), lens[t] - lens[s]);
  }

  lemma SameCode(lens: seq<nat>, s: nat, t: nat)
    requires Occurs(lens, s) && Occurs(lens, t) && lens[s] == lens[t] && Code(lens, s) == Code(lens, t)
    ensures s == t
  {
    if s < t { CountMono(lens, lens[s], s, t); }
    if t < s { CountMono(lens, lens[s], t, s); }
  }

  /** No bit buffer starts with two codes. */
  lemma OneCode(lens: seq<nat>, s: nat, t: nat, hold: nat)
    requires Lengths(lens) && Taken(lens) <= Pow2(MAXBITS)
    requires Occurs(lens, s) && Occurs(lens, t) && lens[s] <= lens[t]
    requires Starts(lens, s, hold) && Starts(lens, t, hold)
    ensures s == t
  {
    hide Code, Rev, LowBits, Shr, Taken, Pow2, Lengths;
    var a, b := lens[s], lens[t];
    CodeBelow(lens, s);
    CodeBelow(lens, t);
    LowBitsTwice(hold, b, a);
    RevLow(Code(lens, t), b, a);
    ShrBound(Code(lens, t), b, b - a);
    RevInjective(Code(lens, s), Shr(Code(lens, t), b - a), a);
    if a < b {
      CodeAbove(lens, s, t);
    } else {
      ShrNone(Code(lens, t));
      SameCode(lens, s, t);
    }
  }

  lemma ShrNone(c: nat)
    ensures Shr(c, 0) == c
  {}

  lemma {:induction false} NthSymbol(lens: seq<nat>, n: nat, k: nat) returns (s: nat)
    requires k < Count(lens, n)
    ensures s < |lens| && lens[s] == n && Count(lens[..s], n) == k
  {
    var last := |lens| - 1;
    if k < Count(lens[..last], n) {
      s := NthSymbol(lens[..last], n, k);
      assert lens[..last][..s] == lens[..s];
    } else {
      s := last;
    }
  }

  lemma {:induction false} RevTwice(h: nat, k: nat)
    ensures Rev(Rev(h, k), k) == LowBits(h, k)
  {
    if k > 0 {
      RevTwice(h / 2, k - 1);
      RevTop(Rev(h / 2, k - 1), k - 1);
    }
  }

  lemma {:induction false} RevTop(c: nat, k: nat)
    requires c < Pow2(k)
    ensures Rev(c + Pow2(k), k + 1) == 2 * Rev(c, k) + 1 && Rev(c, k + 1) == 2 * Rev(c, k)
  {
    if k > 0 {
      RevTop(c / 2, k - 1);
      assert (c + Pow2(k)) / 2 == c / 2 + Pow2(k - 1);
    }
  }

  /** When the lengths ask for all there is, every bit buffer starts with a code. */
  lemma SomeCode(lens: seq<nat>, hold: nat) returns (s: nat)
    requires Lengths(lens) && Taken(lens) == Pow2(MAXBITS)
    ensures Occurs(lens, s) && Starts(lens, s, hold)
  {
    hide Rev, LowBits, Pow2, KraftSum, Count, First, Shr;
    var p := Rev(hold, MAXBITS);
    KraftEnd(lens, MAXBITS);
    ShrNone(p);
    var n := FirstBelow(lens, p, MAXBITS);
    var c := Shr(p, MAXBITS - n);
    s := NthSymbol(lens, n, c - First(lens, n));
    RevLow(p, MAXBITS, n);
    RevTwice(hold, MAXBITS);
    LowBitsTwice(hold, MAXBITS, n);
  }

  lemma {:induction false} FirstBelow(lens: seq<nat>, p: nat, m: nat) returns (n: nat)
    requires 1 <= m <= MAXBITS && Shr(p, MAXBITS - m) < End(lens, m)
    ensures 1 <= n <= m && First(lens, n) <= Shr(p, MAXBITS - n) < End(lens, n)
    decreases m
  {
    if First(lens, m) <= Shr(p, MAXBITS - m) {
      n := m;
    } else {
      ShrTwice(p, MAXBITS - m, 1);
      n := FirstBelow(lens, p, m - 1);
    }
  }
}
