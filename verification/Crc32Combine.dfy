/** Combining checksums: appending zero bits is linear over GF(2), so it is a 32 by 32 matrix, and n zero bytes
    are reached by squaring. */
module Crc32Combine {
  import opened Rotations
  import opened Words
  import opened Crc32

  const GF2_DIM: nat := 32

  /** Row i is the operator for k zero bits applied to bit i. */
  ghost predicate Operator(mat: seq<nat>, k: nat) {
    |mat| == GF2_DIM && forall i :: 0 <= i < GF2_DIM ==> mat[i] == Steps(Pow2(i), k)
  }

  /** A word shifted left, one bit split off. */
  lemma SplitBit(v: nat, i: nat)
    ensures Shl(v, i) == if v % 2 == 1 then Xor(Pow2(i), Shl(v / 2, i + 1)) else Shl(v / 2, i + 1)
  {
    hide Xor;
    ShlDouble(v / 2, i);
    if v % 2 == 1 {
      assert Pow2(i) < Pow2(i + 1);
      XorDisjoint(Pow2(i), v / 2, i + 1);
      ShlSum(v / 2, 1, i);
      assert Shl(v / 2, 1) + 1 == v;
    }
  }

  lemma ShlDouble(v: nat, i: nat)
    ensures Shl(2 * v, i) == Shl(v, i + 1)
  {
    ShlSum(v, 1, i);
    assert Shl(v, 1) == 2 * Shl(v, 0);
  }

  /** A matrix times a vector is the operator applied to it. */
  method MatrixTimes(mat: seq<nat>, vec: nat, ghost k: nat) returns (sum: nat)
    requires Operator(mat, k) && vec < 0x1_0000_0000
    ensures sum == Steps(vec, k)
  {
    hide Xor, Steps, Shl, Pow2;
    sum := 0;
    var v, i := vec, 0;
    NoShift(vec);
    XorZero(Steps(vec, k));
    ThirtyTwo();
    while v != 0
      invariant 0 <= i <= 32 && 0 <= v < Pow2(32 - i) && Xor(sum, Steps(Shl(v, i), k)) == Steps(vec, k)
      decreases v
    {
      VectorFits(v, i);
      SplitBit(v, i);
      StepsLinear(Pow2(i), Shl(v / 2, i + 1), k);
      XorAssoc(sum, mat[i], Steps(Shl(v / 2, i + 1), k));
      if v % 2 == 1 { sum := Xor(sum, mat[i]); }
      v := v / 2;
      i := i + 1;
    }
    ShlZero(0, i);
    StepsZero(k);
    XorZero(sum);
  }

  lemma NoShift(v: nat)
    ensures Shl(v, 0) == v
  {}

  lemma VectorFits(v: nat, i: nat)
    requires i <= 32 && 0 < v < Pow2(32 - i)
    ensures i < 32 && v / 2 < Pow2(32 - (i + 1))
  {}

  lemma {:induction false} StepsZero(k: nat)
    ensures Steps(0, k) == 0
  {
    if k > 0 { StepsZero(k - 1); }
  }

  /** Squaring the matrix doubles the number of zero bits. */
  method MatrixSquare(mat: seq<nat>, ghost k: nat) returns (square: seq<nat>)
    requires Operator(mat, k)
    ensures Operator(square, 2 * k)
  {
    hide Steps, Pow2;
    square := [];
    for n := 0 to GF2_DIM
      invariant |square| == n && forall i :: 0 <= i < n ==> square[i] == Steps(Pow2(i), 2 * k)
    {
      BitFits(n);
      StepsFit(Pow2(n), k);
      StepsAdd(Pow2(n), k, k);
      var row := MatrixTimes(mat, mat[n], k);
      square := square + [row];
    }
  }

  lemma BitFits(n: nat)
    requires n < 32
    ensures Pow2(n) < 0x1_0000_0000
  {
    hide Pow2;
    ThirtyTwo();
    Pow2Mono(n, 31);
  }

  /** The operator for one zero bit: the polynomial, then every bit moved down by one. */
  method OneZeroBit() returns (odd: seq<nat>)
    ensures Operator(odd, 1)
  {
    hide Steps;
    odd := [POLY];
    OneBit();
    var row := 1;
    for n := 1 to GF2_DIM
      invariant |odd| == n && row == Pow2(n - 1) && forall i :: 0 <= i < n ==> odd[i] == Steps(Pow2(i), 1)
    {
      FirstStep(Pow2(n));
      StepEven(Pow2(n - 1));
      odd := odd + [row];
      row := 2 * row;
    }
  }

  lemma OneBit()
    ensures Steps(Pow2(0), 1) == POLY
  {
    hide Xor;
    FirstStep(1);
    XorZero(POLY);
  }

  // ----- combination -----

  /** A change in the register before a string shows as the same number of zero bits applied to the change. */
  lemma {:induction false} Difference(x: nat, y: nat, s: seq<Byte>)
    ensures UpdateAll(Xor(x, y), s) == Xor(UpdateAll(x, s), Steps(y, 8 * |s|))
  {
    hide Xor, Steps;
    if s == [] {
      NoZeros(y);
    } else {
      var t, b := s[..|s| - 1], s[|s| - 1];
      Difference(x, y, t);
      var u, z := UpdateAll(x, t), Steps(y, 8 * |t|);
      XorAssoc(u, z, b);
      XorComm(z, b);
      XorAssoc(u, b, z);
      StepsLinear(Xor(u, b), z, 8);
      StepsAdd(y, 8 * |t|, 8);
    }
  }

  lemma NoZeros(y: nat)
    ensures Steps(y, 0) == y
  {}

  /** The checksum of a whole from the checksums of its two parts. */
  lemma Combined(s: seq<Byte>, t: seq<Byte>)
    ensures Checksum(s + t) == Xor(Steps(Checksum(s), 8 * |t|), Checksum(t))
  {
    hide Xor, UpdateAll, Steps;
    var a, b, z := UpdateAll(ONES, s), UpdateAll(ONES, t), Steps(Checksum(s), 8 * |t|);
    UpdateConcat(ONES, s, t);
    XorComm(ONES, Checksum(s));
    XorTwice(a, ONES);
    Difference(ONES, Checksum(s), t);
    XorComm(b, z);
    XorAssoc(z, b, ONES);
  }

  lemma Halve(n: nat, u: nat)
    ensures n * u == n / 2 * (2 * u) + n % 2 * u
  {
    assert n == n / 2 * 2 + n % 2;
    assert n / 2 * (2 * u) == n / 2 * 2 * u;
  }

  /** Applies the operator for unit zero bytes if the lowest bit of n is set. */
  method ApplyBit(mat: seq<nat>, crc: nat, n: nat, ghost unit: nat, ghost crc1: nat, ghost done: nat) returns (r: nat, m: nat)
    requires Operator(mat, 8 * unit) && crc == Steps(crc1, 8 * done) < 0x1_0000_0000 && crc1 < 0x1_0000_0000
    ensures m == n / 2 && r == Steps(crc1, 8 * (done + n % 2 * unit)) < 0x1_0000_0000
  {
    hide Steps;
    r := crc;
    if n % 2 == 1 {
      r := MatrixTimes(mat, crc, 8 * unit);
      StepsAdd(crc1, 8 * done, 8 * unit);
      StepsFit(crc1, 8 * (done + unit));
    }
    m := n / 2;
  }

  /** crc32_combine: zeros for the second length applied to the first checksum, by repeated squaring. */
  method Combine(crc1: nat, crc2: nat, len2: int, ghost s: seq<Byte>, ghost t: seq<Byte>) returns (r: nat)
    requires crc1 < 0x1_0000_0000
    ensures len2 <= 0 ==> r == crc1
    ensures len2 > 0 ==> r == Xor(Steps(crc1, 8 * len2), crc2)
    ensures crc1 == Checksum(s) && crc2 == Checksum(t) && len2 == |t| ==> r == Checksum(s + t)
  {
    hide Xor, Steps, UpdateAll;
    Combined(s, t);
    if len2 <= 0 {
      if |t| == 0 { EmptySecond(s, t); }
      return crc1;
    }
    var odd := OneZeroBit();
    var even := MatrixSquare(odd, 1);
    odd := MatrixSquare(even, 2);
    var crc, n := crc1, len2;
    ghost var unit: nat, done: nat := 1, 0;
    NoZeros(crc1);
    while true
      invariant n > 0 && unit >= 1 && Operator(odd, 4 * unit) && done + n * unit == len2
      invariant crc == Steps(crc1, 8 * done) < 0x1_0000_0000
      decreases n
    {
      Halve(n, unit);
      Halve(n / 2, 2 * unit);
      even := MatrixSquare(odd, 4 * unit);
      ghost var bit := n % 2;
      crc, n := ApplyBit(even, crc, n, unit, crc1, done);
      done := done + bit * unit;
      if n == 0 { break; }
      odd := MatrixSquare(even, 8 * unit);
      bit := n % 2;
      crc, n := ApplyBit(odd, crc, n, 2 * unit, crc1, done);
      done := done + bit * (2 * unit);
      unit := 4 * unit;
      if n == 0 { break; }
    }
    r := Xor(crc, crc2);
  }

  lemma EmptySecond(s: seq<Byte>, t: seq<Byte>)
    requires t == []
    ensures s + t == s
  {}
}
