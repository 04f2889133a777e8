/** The checksum of the uncompressed bytes of a block and of the stream: a CRC computed from the top bit down. */
module BlockCrc {
  import opened Rotations
  import opened Words

  lemma {:induction false} ShrBound(a: nat, j: nat, k: nat)
    requires a < Pow2(j + k)
    ensures Shr(a, k) < Pow2(j)
  {
    if k > 0 { ShrBound(a / 2, j, k - 1); }
  }

  const POLYNOMIAL: nat := 0x04c1_1db7

  /** One bit shifted out at the top. */
  function ShiftOut(c: nat): nat {
    var d := LowBits(Shl(c, 1), 32);
    if Shr(c, 31) % 2 == 1 then Xor(d, POLYNOMIAL) else d
  }

  /** Table entry for the byte at the top of c: the effect of shifting it out. */
  function Entry(c: nat, k: nat): nat {
    if k == 0 then c else ShiftOut(Entry(c, k - 1))
  }

  const INITIAL: nat := 0xffff_ffff

  function Update(crc: nat, cha: Byte): nat {
    Xor(LowBits(Shl(crc, 8), 32), Entry(Shl(Xor(Shr(crc, 24), cha), 24), 8))
  }

  function UpdateAll(crc: nat, s: seq<Byte>): nat {
    if s == [] then crc else Update(UpdateAll(crc, s[..|s| - 1]), s[|s| - 1])
  }

  lemma UpdateOne(crc: nat, s: seq<Byte>, c: Byte)
    ensures UpdateAll(crc, s + [c]) == Update(UpdateAll(crc, s), c)
  {
    assert (s + [c])[..|s|] == s;
  }

  lemma {:induction false} UpdateConcat(crc: nat, a: seq<Byte>, b: seq<Byte>)
    ensures UpdateAll(crc, a + b) == UpdateAll(UpdateAll(crc, a), b)
  {
    if b == [] {
      assert a + b == a;
    } else {
      UpdateConcat(crc, a, b[..|b| - 1]);
      assert (a + b)[..|a + b| - 1] == a + b[..|b| - 1];
    }
  }

  function Finalise(crc: nat): nat {
    Xor(crc, INITIAL)
  }

  /** Checksum of the bytes of a block. */
  function BlockSum(s: seq<Byte>): nat {
    Finalise(UpdateAll(INITIAL, s))
  }

  /** The stream's checksum after one more block. */
  function Combine(combined: nat, block: nat): nat {
    Xor(Or(LowBits(Shl(combined, 1), 32), Shr(combined, 31)), block)
  }

  lemma ShiftOutBound(c: nat)
    ensures ShiftOut(c) < Pow2(32)
  {
    PolynomialFits();
    XorBound(LowBits(Shl(c, 1), 32), POLYNOMIAL, 32);
  }

  lemma PolynomialFits()
    ensures POLYNOMIAL < Pow2(32) && INITIAL < Pow2(32)
  {
    assert Pow2(8) == 256;
    Pow2Sum(8, 8);
    Pow2Sum(16, 16);
  }

  lemma UpdateBound(crc: nat, cha: Byte)
    ensures Update(crc, cha) < Pow2(32)
  {
    hide Xor, LowBits, Shl, Shr, ShiftOut, Pow2;
    var c := Shl(Xor(Shr(crc, 24), cha), 24);
    ShiftOutBound(Entry(c, 7));
    XorBound(LowBits(Shl(crc, 8), 32), Entry(c, 8), 32);
  }

  /** Every block checksum is a 32-bit number. */
  lemma BlockSumBound(s: seq<Byte>)
    ensures BlockSum(s) < Pow2(32)
  {
    hide Xor, Update, Pow2;
    PolynomialFits();
    if s != [] { UpdateBound(UpdateAll(INITIAL, s[..|s| - 1]), s[|s| - 1]); }
    XorBound(UpdateAll(INITIAL, s), INITIAL, 32);
  }

  lemma {:induction false} OrBound(a: nat, b: nat, k: nat)
    requires a < Pow2(k) && b < Pow2(k)
    ensures Or(a, b) < Pow2(k)
  {
    if k > 0 { OrBound(a / 2, b / 2, k - 1); }
  }

  lemma CombineBound(combined: nat, block: nat)
    requires combined < Pow2(32) && block < Pow2(32)
    ensures Combine(combined, block) < Pow2(32)
  {
    hide Xor, Or, LowBits, Shl, Shr, Pow2;
    ShrBound(combined, 1, 31);
    Pow2Mono(1, 32);
    OrBound(LowBits(Shl(combined, 1), 32), Shr(combined, 31), 32);
    XorBound(Or(LowBits(Shl(combined, 1), 32), Shr(combined, 31)), block, 32);
  }
}
