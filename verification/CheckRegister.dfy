/** The checksum of bzip2 as a shift register clocked bit by bit, and how it relates to the CRC of gzip and zlib. */
module CheckRegister {
  import opened Rotations
  import opened Words
  import opened Bits
  import B = BlockCrc
  import Z = Crc32

  /** The powers of x in the generator polynomial, but for the highest. */
  const TERMS: set<int> := {0, 1, 2, 4, 5, 7, 8, 10, 11, 12, 16, 22, 23, 26}

  /** Bit i of a register stands for the power 31 - i. */
  function Generator(): (r: bits)
    ensures |r| == 32
  {
    seq(32, i requires 0 <= i < 32 => 31 - i in TERMS)
  }

  function Differ(a: bits, b: bits): (r: bits)
    requires |a| == |b|
    ensures |r| == |a|
  {
    seq(|a|, i requires 0 <= i < |a| => a[i] != b[i])
  }

  /** One bit goes in: the register moves up, and what leaves at the top, unless it equals the bit, feeds back. */
  function Clock(reg: bits, x: bool): (r: bits)
    requires |reg| == 32
    ensures |r| == 32
  {
    var moved := reg[1..] + [false];
    if reg[0] != x then Differ(moved, Generator()) else moved
  }

  function Clocked(reg: bits, input: bits): (r: bits)
    requires |reg| == 32
    ensures |r| == 32
    decreases |input|
  {
    if input == [] then reg else Clocked(Clock(reg, input[0]), input[1..])
  }

  function Ones(): (r: bits)
    ensures |r| == 32
  {
    seq(32, _ => true)
  }

  // ----- words as registers -----

  lemma {:induction false} BitsOfXor(a: nat, b: nat, n: nat)
    ensures BitsOf(Xor(a, b), n) == Differ(BitsOf(a, n), BitsOf(b, n))
  {
    if n > 0 {
      hide Xor;
      XorParts(a, b);
      BitsOfXor(a / 2, b / 2, n - 1);
    }
  }

  /** Bits in two parts. */
  lemma {:induction false} BitsOfParts(v: nat, n: nat, k: nat)
    ensures BitsOf(v, n + k) == BitsOf(Shr(v, k), n) + BitsOf(v, k)
  {
    if k > 0 { BitsOfParts(v / 2, n, k - 1); }
  }

  lemma {:induction false} BitsOfShl(v: nat, n: nat, k: nat)
    ensures BitsOf(Shl(v, k), n + k) == BitsOf(v, n) + Clear(k)
  {
    if k > 0 {
      BitsOfShl(v, n, k - 1);
      assert Clear(k) == Clear(k - 1) + [false];
    }
  }

  lemma {:induction false} BitsOfSmall(v: nat, n: nat, k: nat)
    requires v < Pow2(k)
    ensures BitsOf(v, n + k) == Clear(n) + BitsOf(v, k)
  {
    if k == 0 { BitsOfNothing(n); } else { BitsOfSmall(v / 2, n, k - 1); }
  }

  lemma {:induction false} BitsOfNothing(n: nat)
    ensures BitsOf(0, n) == Clear(n)
  {
    if n > 0 { BitsOfNothing(n - 1); }
  }

  /** The four bits of a hexadecimal digit. */
  function Nibble(d: nat): (r: bits)
    ensures |r| == 4
  {
    [d / 8 % 2 == 1, d / 4 % 2 == 1, d / 2 % 2 == 1, d % 2 == 1]
  }

  lemma OneDigit(h: nat, d: nat, n: nat)
    requires d < 16
    ensures BitsOf(16 * h + d, n + 4) == BitsOf(h, n) + Nibble(d)
  {
    var v := 16 * h + d;
    assert v / 2 == 8 * h + d / 2 && v / 2 / 2 == 4 * h + d / 4 && v / 2 / 2 / 2 == 2 * h + d / 8 && v / 2 / 2 / 2 / 2 == h;
    assert BitsOf(v, n + 4) == BitsOf(v / 2, n + 3) + [v % 2 == 1];
    assert BitsOf(v / 2, n + 3) == BitsOf(v / 2 / 2, n + 2) + [v / 2 % 2 == 1];
    assert BitsOf(v / 2 / 2, n + 2) == BitsOf(v / 2 / 2 / 2, n + 1) + [v / 2 / 2 % 2 == 1];
    assert BitsOf(v / 2 / 2 / 2, n + 1) == BitsOf(h, n) + [v / 2 / 2 / 2 % 2 == 1];
  }

  lemma FourDigits(h: nat, a: nat, b: nat, c: nat, d: nat, n: nat)
    requires a < 16 && b < 16 && c < 16 && d < 16
    ensures BitsOf((((h * 16 + a) * 16 + b) * 16 + c) * 16 + d, n + 16) ==
            BitsOf(h, n) + (Nibble(a) + Nibble(b) + Nibble(c) + Nibble(d))
  {
    hide BitsOf, Nibble;
    OneDigit(h, a, n);
    OneDigit(h * 16 + a, b, n + 4);
    OneDigit((h * 16 + a) * 16 + b, c, n + 8);
    OneDigit(((h * 16 + a) * 16 + b) * 16 + c, d, n + 12);
  }

  lemma NoDigit()
    ensures BitsOf(0, 0) == []
  {}

  function Flip(a: bits): (r: bits)
    ensures |r| == |a|
  {
    seq(|a|, i requires 0 <= i < |a| => a[|a| - 1 - i])
  }

  /** The constants of both libraries are that polynomial, and its mirror image. */
  lemma Constants()
    ensures BitsOf(B.POLYNOMIAL, 32) == Generator() && BitsOf(Z.POLY, 32) == Flip(Generator())
    ensures BitsOf(B.INITIAL, 32) == Ones() && BitsOf(Z.ONES, 32) == Ones()
  {
    hide BitsOf;
    NoDigit();
    FourDigits(0, 0, 4, 12, 1, 0);
    FourDigits(0x04c1, 1, 13, 11, 7, 16);
    FourDigits(0, 14, 13, 11, 8, 0);
    FourDigits(0xedb8, 8, 3, 2, 0, 16);
    FourDigits(0, 15, 15, 15, 15, 0);
    FourDigits(0xffff, 15, 15, 15, 15, 16);
  }

  // ----- one bit -----

  /** A zero bit goes in. */
  function Out(reg: bits): (r: bits)
    requires |reg| == 32
    ensures |r| == 32
  {
    Clock(reg, false)
  }

  function Outs(reg: bits, k: nat): (r: bits)
    requires |reg| == 32
    ensures |r| == 32
  {
    if k == 0 then reg else Out(Outs(reg, k - 1))
  }

  lemma {:induction false} OutsFirst(reg: bits, k: nat)
    requires |reg| == 32 && k > 0
    ensures Outs(reg, k) == Outs(Out(reg), k - 1)
  {
    if k > 1 { OutsFirst(reg, k - 1); }
  }

  lemma {:induction false} TopBit(c: nat, n: nat)
    requires n > 0
    ensures (Shr(c, n - 1) % 2 == 1) == BitsOf(c, n)[0]
  {
    if n > 1 { TopBit(c / 2, n - 1); }
  }

  lemma ShiftOutBits(c: nat)
    ensures BitsOf(B.ShiftOut(c), 32) == Out(BitsOf(c, 32))
  {
    hide Xor, Shl, Shr, LowBits, BitsOf;
    TopBit(c, 32);
    var d := LowBits(Shl(c, 1), 32);
    BitsOfLow(Shl(c, 1), 32, 32);
    BitsOfShl(c, 31, 1);
    TopOff(c, 31);
    assert BitsOf(d, 32) == BitsOf(c, 32)[1..] + [false];
    Constants();
    BitsOfXor(d, B.POLYNOMIAL, 32);
  }

  lemma {:induction false} TopOff(c: nat, n: nat)
    ensures BitsOf(c, n + 1)[1..] == BitsOf(c, n)
  {
    if n > 0 { TopOff(c / 2, n - 1); }
  }

  lemma {:induction false} EntryBits(c: nat, k: nat)
    ensures BitsOf(B.Entry(c, k), 32) == Outs(BitsOf(c, 32), k)
  {
    hide B.ShiftOut, Out, BitsOf;
    if k > 0 {
      EntryBits(c, k - 1);
      ShiftOutBits(B.Entry(c, k - 1));
    }
  }

  // ----- linearity -----

  lemma OutLinear(a: bits, b: bits)
    requires |a| == |b| == 32
    ensures Out(Differ(a, b)) == Differ(Out(a), Out(b))
  {}

  lemma {:induction false} OutsLinear(a: bits, b: bits, k: nat)
    requires |a| == |b| == 32
    ensures Outs(Differ(a, b), k) == Differ(Outs(a, k), Outs(b, k))
  {
    hide Out, Differ;
    if k > 0 {
      OutsLinear(a, b, k - 1);
      OutLinear(Outs(a, k - 1), Outs(b, k - 1));
    }
  }

  /** Zeros leave at the top without feeding back. */
  lemma {:induction false} OutsZeros(a: bits, k: nat)
    requires |a| + k == 32
    ensures Outs(Clear(k) + a, k) == a + Clear(k)
    decreases k
  {
    if k == 0 {
      assert Clear(0) + a == a && a + Clear(0) == a;
    } else {
      hide Outs;
      OutsFirst(Clear(k) + a, k);
      assert (Clear(k) + a)[1..] + [false] == Clear(k - 1) + (a + [false]);
      OutsZeros(a + [false], k - 1);
      assert a + [false] + Clear(k - 1) == a + Clear(k);
    }
  }

  /** Clocking bits in is the same as adding them at the top and clocking zeros. */
  lemma {:induction false} ClockedOuts(reg: bits, xs: bits)
    requires |reg| == 32 && |xs| <= 32
    ensures Clocked(reg, xs) == Outs(Differ(reg, xs + Clear(32 - |xs|)), |xs|)
    decreases |xs|
  {
    var k := |xs|;
    if k == 0 {
      assert Differ(reg, [] + Clear(32)) == reg;
    } else {
      hide Outs, Clocked;
      var later := xs[1..];
      var all := Differ(reg, xs + Clear(32 - k));
      ClockedFirst(reg, xs);
      OutsFirst(all, k);
      ClockedOuts(Clock(reg, xs[0]), later);
      ClockFirst(reg, xs[0], later);
      assert [xs[0]] + later == xs;
    }
  }

  lemma ClockedFirst(reg: bits, xs: bits)
    requires |reg| == 32 && xs != []
    ensures Clocked(reg, xs) == Clocked(Clock(reg, xs[0]), xs[1..])
  {}

  lemma ClockFirst(reg: bits, x: bool, later: bits)
    requires |reg| == 32 && |later| <= 31
    ensures Out(Differ(reg, [x] + later + Clear(31 - |later|))) == Differ(Clock(reg, x), later + Clear(32 - |later|))
  {}

  // ----- bytes -----

  /** A byte of the block clocks the register once for each of its bits, the top bit first. */
  lemma UpdateClocks(crc: nat, b: Byte)
    ensures BitsOf(B.Update(crc, b), 32) == Clocked(BitsOf(crc, 32), BitsOf(b, 8))
  {
    hide Xor, Shl, Shr, LowBits, BitsOf, Outs, Clocked, B.Entry;
    var reg, xs := BitsOf(crc, 32), BitsOf(b, 8);
    var high, low := reg[..8], reg[8..];
    BitsOfParts(crc, 8, 24);
    assert high == BitsOf(Shr(crc, 24), 8) && low == BitsOf(crc, 24);
    BitsOfLow(Shl(crc, 8), 32, 32);
    BitsOfShl(crc, 24, 8);
    var top := Xor(Shr(crc, 24), b);
    BitsOfXor(Shr(crc, 24), b, 8);
    BitsOfShl(top, 8, 24);
    EntryBits(Shl(top, 24), 8);
    BitsOfXor(LowBits(Shl(crc, 8), 32), B.Entry(Shl(top, 24), 8), 32);
    OutsZeros(low, 8);
    OutsLinear(Clear(8) + low, Differ(high, xs) + Clear(24), 8);
    assert Differ(Clear(8) + low, Differ(high, xs) + Clear(24)) == Differ(reg, xs + Clear(24));
    ClockedOuts(reg, xs);
  }

  lemma {:induction false} ClockedConcat(reg: bits, a: bits, b: bits)
    requires |reg| == 32
    ensures Clocked(reg, a + b) == Clocked(Clocked(reg, a), b)
    decreases |a|
  {
    hide Clock;
    if a == [] {
      assert a + b == b;
    } else {
      ClockedConcat(Clock(reg, a[0]), a[1..], b);
      assert (a + b)[0] == a[0] && (a + b)[1..] == a[1..] + b;
    }
  }

  lemma {:induction false} AllClocks(crc: nat, s: seq<Byte>)
    ensures BitsOf(B.UpdateAll(crc, s), 32) == Clocked(BitsOf(crc, 32), ByteBits(s))
  {
    hide Clocked, BitsOf, B.Update;
    if s == [] {
      NothingClocked(BitsOf(crc, 32));
    } else {
      var front, c := s[..|s| - 1], s[|s| - 1];
      AllClocks(crc, front);
      UpdateClocks(B.UpdateAll(crc, front), c);
      ClockedConcat(BitsOf(crc, 32), ByteBits(front), BitsOf(c, 8));
    }
  }

  lemma NothingClocked(reg: bits)
    requires |reg| == 32
    ensures Clocked(reg, []) == reg
  {}

  /** The checksum of a block: all bits of the block clocked in, the ones before and after as always. */
  lemma BlockSumClocks(s: seq<Byte>)
    ensures BitsOf(B.BlockSum(s), 32) == Differ(Clocked(Ones(), ByteBits(s)), Ones())
  {
    hide Clocked, BitsOf, B.UpdateAll, Xor;
    Constants();
    AllClocks(B.INITIAL, s);
    BitsOfXor(B.UpdateAll(B.INITIAL, s), B.INITIAL, 32);
  }

  /** Block checksums are added to that of the stream after a rotation by one. */
  lemma CombineRotates(combined: nat, block: nat)
    requires combined < Pow2(32)
    ensures var c := BitsOf(combined, 32);
            BitsOf(B.Combine(combined, block), 32) == Differ(c[1..] + c[..1], BitsOf(block, 32))
  {
    hide Xor, Or, Shl, Shr, LowBits, BitsOf, Pow2;
    var c := BitsOf(combined, 32);
    var moved, out := LowBits(Shl(combined, 1), 32), Shr(combined, 31);
    BitsOfLow(Shl(combined, 1), 32, 32);
    BitsOfShl(combined, 31, 1);
    TopOff(combined, 31);
    BitsOfParts(combined, 1, 31);
    OutBit(combined);
    BitsOfSmall(out, 31, 1);
    BitsOfOr(moved, out, 32);
    assert BitsOf(Or(moved, out), 32) == c[1..] + c[..1];
    BitsOfXor(Or(moved, out), block, 32);
  }

  lemma OutBit(c: nat)
    requires c < Pow2(32)
    ensures Shr(c, 31) < Pow2(1)
  {
    B.ShrBound(c, 1, 31);
  }

  function Either(a: bits, b: bits): (r: bits)
    requires |a| == |b|
    ensures |r| == |a|
  {
    seq(|a|, i requires 0 <= i < |a| => a[i] || b[i])
  }

  lemma {:induction false} BitsOfOr(a: nat, b: nat, n: nat)
    ensures BitsOf(Or(a, b), n) == Either(BitsOf(a, n), BitsOf(b, n))
  {
    if n > 0 {
      OrParts(a, b);
      hide Or;
      BitsOfOr(a / 2, b / 2, n - 1);
    }
  }

  lemma OrParts(a: nat, b: nat)
    ensures Or(a, b) / 2 == Or(a / 2, b / 2)
    ensures Or(a, b) % 2 == if a % 2 == 1 || b % 2 == 1 then 1 else 0
  {}

  // ----- the other CRC -----

  /** A byte with its bits in the opposite order. */
  function FlipByte(b: Byte): Byte {
    Pow2Byte();
    Value(Flip(BitsOf(b, 8)))
  }

  function FlipBytes(s: seq<Byte>): (r: seq<Byte>)
    ensures |r| == |s|
  {
    seq(|s|, i requires 0 <= i < |s| => FlipByte(s[i]))
  }

  lemma StepBits(c: nat)
    requires c < Pow2(32)
    ensures BitsOf(Z.Step(c), 32) == Flip(Out(Flip(BitsOf(c, 32)))) && Z.Step(c) < Pow2(32)
  {
    hide Xor, BitsOf;
    LastBit(c);
    Constants();
    BitsOfXor(Z.POLY, c / 2, 32);
    HalfBits(c);
    PolyFits();
    XorBound(Z.POLY, c / 2, 32);
  }

  lemma PolyFits()
    ensures Z.POLY < Pow2(32) && Z.ONES < Pow2(32)
  {
    B.PolynomialFits();
  }

  lemma LastBit(c: nat)
    ensures BitsOf(c, 32)[31] == (c % 2 == 1)
  {}

  lemma HalfBits(c: nat)
    requires c < Pow2(32)
    ensures BitsOf(c / 2, 32) == [false] + BitsOf(c, 32)[..31]
  {
    BitsOfSmall(c / 2, 1, 31);
    assert Clear(1) == [false];
  }

  lemma FlipTwice(a: bits)
    ensures Flip(Flip(a)) == a
  {}

  lemma {:induction false} StepsBits(c: nat, k: nat)
    requires c < Pow2(32)
    ensures BitsOf(Z.Steps(c, k), 32) == Flip(Outs(Flip(BitsOf(c, 32)), k)) && Z.Steps(c, k) < Pow2(32)
  {
    hide Z.Step, Out, BitsOf, Flip, Pow2;
    if k == 0 {
      FlipTwice(BitsOf(c, 32));
    } else {
      StepsBits(c, k - 1);
      StepBits(Z.Steps(c, k - 1));
      FlipTwice(Outs(Flip(BitsOf(c, 32)), k - 1));
    }
  }

  /** Registers that are mirror images of each other stay so. */
  lemma UpdateMirrors(c: nat, d: nat, b: Byte)
    requires d < Pow2(32) && BitsOf(c, 32) == Flip(BitsOf(d, 32))
    ensures BitsOf(B.Update(c, b), 32) == Flip(BitsOf(Z.Update(d, FlipByte(b)), 32)) && Z.Update(d, FlipByte(b)) < Pow2(32)
  {
    hide Xor, BitsOf, Outs, Clocked, Pow2, B.Update, Flip, FlipByte, Z.Steps;
    UpdateClocks(c, b);
    ClockedOuts(BitsOf(c, 32), BitsOf(b, 8));
    var e := FlipByte(b);
    ByteFits(e);
    XorBound(d, e, 32);
    BitsOfXor(d, e, 32);
    StepsBits(Xor(d, e), 8);
    ByteFlipped(b);
    FlipDiffer(BitsOf(d, 32), BitsOf(e, 32));
    FlipTwice(Outs(Flip(BitsOf(Xor(d, e), 32)), 8));
  }

  lemma ByteFits(b: Byte)
    ensures b < Pow2(32) && b < Pow2(8)
  {
    Pow2Byte();
    Pow2Mono(8, 32);
  }

  lemma FlipDiffer(a: bits, b: bits)
    requires |a| == |b|
    ensures Flip(Differ(a, b)) == Differ(Flip(a), Flip(b))
  {}

  lemma ByteFlipped(b: Byte)
    ensures Flip(BitsOf(FlipByte(b), 32)) == BitsOf(b, 8) + Clear(24)
  {
    hide BitsOf;
    var e := FlipByte(b);
    ByteFits(e);
    BitsOfSmall(e, 24, 8);
    BitsOfValue(Flip(BitsOf(b, 8)));
  }

  lemma {:induction false} AllMirror(c: nat, d: nat, s: seq<Byte>)
    requires d < Pow2(32) && BitsOf(c, 32) == Flip(BitsOf(d, 32))
    ensures BitsOf(B.UpdateAll(c, s), 32) == Flip(BitsOf(Z.UpdateAll(d, FlipBytes(s)), 32)) && Z.UpdateAll(d, FlipBytes(s)) < Pow2(32)
  {
    hide BitsOf, Pow2, B.Update, Z.Update, Flip, FlipByte;
    if s != [] {
      var front := s[..|s| - 1];
      AllMirror(c, d, front);
      assert FlipBytes(s)[..|s| - 1] == FlipBytes(front);
      UpdateMirrors(B.UpdateAll(c, front), Z.UpdateAll(d, FlipBytes(front)), s[|s| - 1]);
    }
  }

  /** The checksum of a block is, bit by bit from the other end, the CRC of zlib of its bytes, each likewise turned round. */
  lemma BlockSumMirrors(s: seq<Byte>)
    ensures BitsOf(B.BlockSum(s), 32) == Flip(BitsOf(Z.Checksum(FlipBytes(s)), 32))
  {
    hide BitsOf, Pow2, B.UpdateAll, Z.UpdateAll, FlipBytes, Xor;
    Constants();
    PolyFits();
    assert Flip(Ones()) == Ones();
    AllMirror(B.INITIAL, Z.ONES, s);
    BitsOfXor(B.UpdateAll(B.INITIAL, s), B.INITIAL, 32);
    BitsOfXor(Z.UpdateAll(Z.ONES, FlipBytes(s)), Z.ONES, 32);
    FlipDiffer(BitsOf(Z.UpdateAll(Z.ONES, FlipBytes(s)), 32), Ones());
  }
}
