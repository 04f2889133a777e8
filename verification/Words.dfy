/** Unsigned machine words as natural numbers. */
module Words {

  function Pow2(k: nat): (r: nat)
    ensures r >= 1
  {
    if k == 0 then 1 else 2 * Pow2(k - 1)
  }

  lemma {:induction false} Pow2Sum(a: nat, b: nat)
    ensures Pow2(a + b) == Pow2(a) * Pow2(b)
  {
    if a > 0 { Pow2Sum(a - 1, b); }
  }

  lemma {:induction false} Pow2Mono(a: nat, b: nat)
    requires a <= b
    ensures Pow2(a) <= Pow2(b)
  {
    if a < b { Pow2Mono(a, b - 1); }
  }

  lemma SmallPowers()
    ensures Pow2(0) == 1 && Pow2(1) == 2 && Pow2(2) == 4 && Pow2(3) == 8 && Pow2(4) == 16 && Pow2(5) == 32 && Pow2(6) == 64
  {}

  lemma LargePowers()
    ensures Pow2(7) == 128 && Pow2(8) == 256 && Pow2(9) == 512 && Pow2(10) == 1024
    ensures Pow2(11) == 2048 && Pow2(12) == 4096 && Pow2(13) == 8192
  {
    assert Pow2(6) == 64;
  }

  /** Bitwise or. */
  function Or(a: nat, b: nat): nat
    decreases a + b
  {
    if a == 0 && b == 0 then 0
    else 2 * Or(a / 2, b / 2) + (if a % 2 == 1 || b % 2 == 1 then 1 else 0)
  }

  /** v << k. */
  function Shl(v: nat, k: nat): nat {
    if k == 0 then v else 2 * Shl(v, k - 1)
  }

  /** v >> k. */
  function Shr(v: nat, k: nat): nat {
    if k == 0 then v else Shr(v / 2, k - 1)
  }

  /** v & ((1 << k) - 1). */
  function LowBits(v: nat, k: nat): (r: nat)
    ensures r < Pow2(k)
  {
    if k == 0 then 0 else 2 * LowBits(v / 2, k - 1) + v % 2
  }

  /** Oring a field below bit k into a word whose low k bits are clear adds it. */
  lemma {:induction false} OrDisjoint(a: nat, b: nat, k: nat)
    requires a < Pow2(k)
    ensures Or(a, Shl(b, k)) == Or(Shl(b, k), a) == a + Shl(b, k)
  {
    if k == 0 { OrZero(b); } else { OrDisjoint(a / 2, b, k - 1); }
  }

  lemma {:induction false} OrZero(a: nat)
    ensures Or(a, 0) == Or(0, a) == a
  {
    if a > 0 { OrZero(a / 2); }
  }

  lemma ShlFour(v: nat, k: nat)
    ensures Shl(v, k + 4) == 16 * Shl(v, k)
  {
    assert Shl(v, k + 2) == 4 * Shl(v, k);
  }

  lemma OrNibble(lo: nat, hi: nat)
    requires lo < 16
    ensures Or(lo, hi * 16) == Or(hi * 16, lo) == lo + hi * 16
  {
    assert Pow2(4) == 16;
    ShlFour(hi, 0);
    OrDisjoint(lo, hi, 4);
  }

  lemma OrByte(lo: nat, hi: nat)
    requires lo < 256
    ensures Or(lo, hi * 256) == Or(hi * 256, lo) == lo + hi * 256
  {
    assert Pow2(8) == 256;
    ShlFour(hi, 0);
    ShlFour(hi, 4);
    OrDisjoint(lo, hi, 8);
  }

  /** Bitwise and with the complement of b. */
  function AndNot(a: nat, b: nat): nat
    decreases a
  {
    if a == 0 then 0
    else 2 * AndNot(a / 2, b / 2) + (if a % 2 == 1 && b % 2 == 0 then 1 else 0)
  }

  predicate TestBit(w: nat, b: nat) {
    if b == 0 then w % 2 == 1 else TestBit(w / 2, b - 1)
  }

  lemma {:induction false} OrBit(w: nat, b: nat, c: nat)
    ensures TestBit(Or(w, Pow2(b)), c) == (b == c || TestBit(w, c))
  {
    if b == 0 {
      OrZero(w / 2);
      if c > 0 { assert Or(w, 1) / 2 == w / 2; }
    } else if c > 0 {
      OrBit(w / 2, b - 1, c - 1);
      assert Or(w, Pow2(b)) / 2 == Or(w / 2, Pow2(b - 1));
    }
  }

  lemma {:induction false} AndNotZero(a: nat)
    ensures AndNot(a, 0) == a
  {
    if a > 0 { AndNotZero(a / 2); }
  }

  lemma {:induction false} AndNotBit(w: nat, b: nat, c: nat)
    ensures TestBit(AndNot(w, Pow2(b)), c) == (b != c && TestBit(w, c))
    decreases c
  {
    if w == 0 {
      NoBits(c);
    } else if b == 0 {
      AndNotZero(w / 2);
      if c > 0 { assert AndNot(w, 1) / 2 == w / 2; }
    } else if c > 0 {
      AndNotBit(w / 2, b - 1, c - 1);
      assert AndNot(w, Pow2(b)) / 2 == AndNot(w / 2, Pow2(b - 1));
    }
  }

  lemma {:induction false} NoBits(c: nat)
    ensures !TestBit(0, c)
  {
    if c > 0 { NoBits(c - 1); }
  }

  lemma {:induction false} AllBits(k: nat, c: nat)
    requires c < k
    ensures TestBit(Pow2(k) - 1, c)
  {
    if c > 0 {
      AllBits(k - 1, c - 1);
      assert (Pow2(k) - 1) / 2 == Pow2(k - 1) - 1;
    }
  }

  lemma FullWord(c: nat)
    requires c < 32
    ensures TestBit(0xffff_ffff, c)
  {
    AllBits(32, c);
    assert Pow2(8) == 256;
    Pow2Sum(8, 8);
    Pow2Sum(16, 16);
  }

  /** Bitwise exclusive or. */
  function Xor(a: nat, b: nat): nat
    decreases a + b
  {
    if a == 0 && b == 0 then 0
    else 2 * Xor(a / 2, b / 2) + (if a % 2 != b % 2 then 1 else 0)
  }

  lemma {:induction false} XorBound(a: nat, b: nat, k: nat)
    requires a < Pow2(k) && b < Pow2(k)
    ensures Xor(a, b) < Pow2(k)
  {
    if k > 0 { XorBound(a / 2, b / 2, k - 1); }
  }

  lemma {:induction false} XorComm(a: nat, b: nat)
    ensures Xor(a, b) == Xor(b, a)
    decreases a + b
  {
    if a + b > 0 { XorComm(a / 2, b / 2); }
  }

  lemma XorParts(a: nat, b: nat)
    ensures Xor(a, b) / 2 == Xor(a / 2, b / 2)
    ensures Xor(a, b) % 2 == if a % 2 != b % 2 then 1 else 0
  {}

  lemma {:induction false} XorAssoc(a: nat, b: nat, c: nat)
    ensures Xor(Xor(a, b), c) == Xor(a, Xor(b, c))
    decreases a + b + c
  {
    if a + b + c > 0 {
      hide Xor;
      XorAssoc(a / 2, b / 2, c / 2);
      XorParts(a, b);
      XorParts(b, c);
      XorParts(Xor(a, b), c);
      XorParts(a, Xor(b, c));
    }
  }

  lemma {:induction false} XorZero(a: nat)
    ensures Xor(a, 0) == a && Xor(0, a) == a
  {
    if a > 0 { XorZero(a / 2); }
  }

  lemma {:induction false} XorSelf(a: nat)
    ensures Xor(a, a) == 0
  {
    if a > 0 { XorSelf(a / 2); }
  }

  lemma {:induction false} ShlZero(v: nat, k: nat)
    ensures Shl(v, k) == 0 <==> v == 0
  {
    if k > 0 { ShlZero(v, k - 1); }
  }

  lemma ShlNothing(x: nat)
    ensures Shl(x, 0) == x
  {}

  lemma {:induction false} LowBitsTwice(v: nat, k: nat, j: nat)
    requires j <= k
    ensures LowBits(LowBits(v, k), j) == LowBits(v, j)
  {
    if j > 0 {
      LowBitsTwice(v / 2, k - 1, j - 1);
      assert LowBits(v, k) / 2 == LowBits(v / 2, k - 1);
    }
  }

  lemma {:induction false} ShrTwice(c: nat, j: nat, k: nat)
    ensures Shr(c, j + k) == Shr(Shr(c, j), k)
  {
    if j > 0 { ShrTwice(c / 2, j - 1, k); }
  }

  /** Exclusive or twice with the same word. */
  lemma XorTwice(a: nat, b: nat)
    ensures Xor(Xor(a, b), b) == a
  {
    XorAssoc(a, b, b);
    XorSelf(b);
    XorZero(a);
  }

  /** Swapping the middle two of four. */
  lemma XorSwap(a: nat, b: nat, c: nat, d: nat)
    ensures Xor(Xor(a, b), Xor(c, d)) == Xor(Xor(a, c), Xor(b, d))
  {
    XorAssoc(a, b, Xor(c, d));
    XorAssoc(b, c, d);
    XorComm(b, c);
    XorAssoc(c, b, d);
    XorAssoc(a, c, Xor(b, d));
  }

  /** A word is the exclusive or of its low bits and the rest. */
  lemma {:induction false} XorDisjoint(a: nat, b: nat, k: nat)
    requires a < Pow2(k)
    ensures Xor(a, Shl(b, k)) == a + Shl(b, k)
  {
    if k == 0 { XorZero(b); } else { XorDisjoint(a / 2, b, k - 1); }
  }
}
