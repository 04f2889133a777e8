/** Bit sequences, most significant bit first, and the numbers they spell. */
module Bits {
  import opened Rotations
  import opened Words

  type bits = seq<bool>

  /** The low n bits of v. */
  function BitsOf(v: nat, n: nat): (r: bits)
    ensures |r| == n
  {
    if n == 0 then [] else BitsOf(v / 2, n - 1) + [v % 2 == 1]
  }

  function Value(b: bits): (v: nat)
    ensures v < Pow2(|b|)
  {
    if b == [] then 0 else 2 * Value(b[..|b| - 1]) + (if b[|b| - 1] then 1 else 0)
  }

  lemma {:induction false} BitsOfValue(b: bits)
    ensures BitsOf(Value(b), |b|) == b
  {
    if b != [] { BitsOfValue(b[..|b| - 1]); }
  }

  lemma {:induction false} ValueOfBits(v: nat, n: nat)
    requires v < Pow2(n)
    ensures Value(BitsOf(v, n)) == v
  {
    if n > 0 {
      ValueOfBits(v / 2, n - 1);
      assert BitsOf(v, n)[..n - 1] == BitsOf(v / 2, n - 1);
    }
  }

  lemma ValueOne(b: bits, x: bool)
    ensures Value(b + [x]) == 2 * Value(b) + if x then 1 else 0
  {
    assert (b + [x])[..|b|] == b;
  }

  /** Concatenation shifts the first part left. */
  lemma {:induction false} ValueConcat(a: bits, b: bits)
    ensures Value(a + b) == Shl(Value(a), |b|) + Value(b)
  {
    if b == [] {
      assert a + b == a;
    } else {
      var c, x := b[..|b| - 1], b[|b| - 1];
      ValueConcat(a, c);
      ValueOne(a + c, x);
      assert a + b == (a + c) + [x];
    }
  }

  lemma ShiftOne(v: nat, x: bool, n: nat)
    ensures var w := 2 * v + if x then 1 else 0;
            Shr(w, n + 1) == Shr(v, n) && LowBits(w, n + 1) == 2 * LowBits(v, n) + if x then 1 else 0
  {
    var w := 2 * v + if x then 1 else 0;
    assert w / 2 == v && w % 2 == if x then 1 else 0;
  }

  /** Shifting right drops the low bits; masking keeps them. */
  lemma {:induction false} ValueSplit(a: bits, b: bits)
    ensures Shr(Value(a + b), |b|) == Value(a) && LowBits(Value(a + b), |b|) == Value(b)
  {
    if b == [] {
      assert a + b == a;
    } else {
      hide Shr, LowBits, Pow2;
      var c, x := b[..|b| - 1], b[|b| - 1];
      ValueSplit(a, c);
      ValueOne(a + c, x);
      ShiftOne(Value(a + c), x, |c|);
      assert a + b == (a + c) + [x];
    }
  }

  lemma {:induction false} BitsOfLow(v: nat, k: nat, n: nat)
    requires n <= k
    ensures BitsOf(LowBits(v, k), n) == BitsOf(v, n)
  {
    if n > 0 { BitsOfLow(v / 2, k - 1, n - 1); }
  }

  function Clear(k: nat): (r: bits)
    ensures |r| == k
  {
    seq(k, _ => false)
  }

  lemma {:induction false} ValueClear(k: nat)
    ensures Value(Clear(k)) == 0
  {
    if k > 0 {
      assert Clear(k)[..k - 1] == Clear(k - 1);
      ValueClear(k - 1);
    }
  }

  /** The bits of a byte string. */
  function ByteBits(s: seq<Byte>): (r: bits)
    ensures |r| == 8 * |s|
  {
    if s == [] then [] else ByteBits(s[..|s| - 1]) + BitsOf(s[|s| - 1], 8)
  }

  lemma ByteBitsOne(s: seq<Byte>, x: Byte)
    ensures ByteBits(s + [x]) == ByteBits(s) + BitsOf(x, 8)
  {
    assert (s + [x])[..|s|] == s;
  }

  lemma {:induction false} ByteBitsConcat(s: seq<Byte>, t: seq<Byte>)
    ensures ByteBits(s + t) == ByteBits(s) + ByteBits(t)
  {
    hide BitsOf;
    if t == [] {
      assert s + t == s;
    } else {
      ByteBitsConcat(s, t[..|t| - 1]);
      assert (s + t)[..|s + t| - 1] == s + t[..|t| - 1];
    }
  }

  lemma ByteBitsFront(s: seq<Byte>)
    requires s != []
    ensures ByteBits(s) == BitsOf(s[0], 8) + ByteBits(s[1..])
  {
    hide BitsOf, ByteBits;
    ByteBitsConcat(s[..1], s[1..]);
    ByteBitsOne([], s[0]);
    NoByteBits();
    assert s == s[..1] + s[1..] && s[..1] == [] + [s[0]];
  }

  lemma NoByteBits()
    ensures ByteBits([]) == []
  {}

  lemma Pow2Byte()
    ensures Pow2(8) == 256
  {}
}
