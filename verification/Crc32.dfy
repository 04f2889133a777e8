/** CRC-32 as in section 8 of RFC 1952: bit by bit, a byte at a time by table, four bytes at a time by four
    tables, and the checksum of two pieces combined by powers of the one-zero-bit operator over GF(2). */
module Crc32 {
  import opened Rotations
  import opened Words

  const POLY: nat := 0xedb8_8320
  const ONES: nat := 0xffff_ffff

  // ----- the shift register -----

  /** One zero bit. */
  function Step(c: nat): nat {
    if c % 2 == 1 then Xor(POLY, c / 2) else c / 2
  }

  /** k zero bits. */
  function Steps(c: nat, k: nat): nat {
    if k == 0 then c else Step(Steps(c, k - 1))
  }

  /** One byte, lowest bit first. */
  function Update(c: nat, b: Byte): nat {
    Steps(Xor(c, b), 8)
  }

  function UpdateAll(c: nat, s: seq<Byte>): nat {
    if s == [] then c else Update(UpdateAll(c, s[..|s| - 1]), s[|s| - 1])
  }

  /** The checksum of a byte string. */
  function Checksum(s: seq<Byte>): nat {
    Xor(UpdateAll(ONES, s), ONES)
  }

  lemma StepLinear(a: nat, b: nat)
    ensures Step(Xor(a, b)) == Xor(Step(a), Step(b))
  {
    hide Xor;
    var x, y := a / 2, b / 2;
    XorParts(a, b);
    if a % 2 == 1 && b % 2 == 1 {
      XorSwap(POLY, x, POLY, y);
      XorSelf(POLY);
      XorZero(Xor(x, y));
    } else if a % 2 == 1 {
      XorAssoc(POLY, x, y);
    } else if b % 2 == 1 {
      XorAssoc(POLY, x, y);
      XorComm(POLY, x);
      XorAssoc(x, POLY, y);
    }
  }

  lemma {:induction false} StepsLinear(a: nat, b: nat, k: nat)
    ensures Steps(Xor(a, b), k) == Xor(Steps(a, k), Steps(b, k))
  {
    hide Xor, Step;
    if k > 0 {
      StepsLinear(a, b, k - 1);
      StepLinear(Steps(a, k - 1), Steps(b, k - 1));
    }
  }

  lemma {:induction false} StepsAdd(c: nat, j: nat, k: nat)
    ensures Steps(Steps(c, j), k) == Steps(c, j + k)
  {
    hide Step;
    if k > 0 { StepsAdd(c, j, k - 1); }
  }

  lemma {:induction false} UpdateConcat(c: nat, s: seq<Byte>, t: seq<Byte>)
    ensures UpdateAll(c, s + t) == UpdateAll(UpdateAll(c, s), t)
  {
    hide Update;
    if t == [] {
      assert s + t == s;
    } else {
      UpdateConcat(c, s, t[..|t| - 1]);
      assert (s + t)[..|s + t| - 1] == s + t[..|t| - 1];
    }
  }

  /** Zero bits into a register whose low bits are clear only shift it. */
  lemma {:induction false} LowClear(c: nat, k: nat)
    ensures Steps(Shl(c, k), k) == c
    decreases k
  {
    if k > 0 {
      hide Xor, Step;
      StepEven(Shl(c, k - 1));
      StepsAdd(Shl(c, k), 1, k - 1);
      FirstStep(Shl(c, k));
      LowClear(c, k - 1);
    }
  }

  lemma StepEven(c: nat)
    ensures Step(2 * c) == c
  {}

  lemma FirstStep(c: nat)
    ensures Steps(c, 1) == Step(c) && Steps(c, 0) == c
  {
    assert Steps(c, 1) == Step(Steps(c, 0));
  }

  lemma LowByte(c: nat)
    ensures Xor(c % 256, Shl(c / 256, 8)) == c && Shl(c / 256, 8) == 256 * (c / 256)
  {
    assert Pow2(8) == 256;
    ShlFour(c / 256, 0);
    ShlFour(c / 256, 4);
    XorDisjoint(c % 256, c / 256, 8);
  }

  /** The table step: look up the low byte, shift the rest. */
  lemma ByteStep(c: nat)
    ensures Steps(c, 8) == Xor(Steps(c % 256, 8), c / 256)
  {
    hide Steps, Xor, Shl;
    LowByte(c);
    StepsLinear(c % 256, Shl(c / 256, 8), 8);
    LowClear(c / 256, 8);
  }

  // ----- tables -----

  /** tables[k][n] is the effect of byte n followed by k zero bytes. */
  ghost predicate Tables(t: seq<seq<nat>>) {
    |t| == 4 && forall k :: 0 <= k < 4 ==> Table(t[k], k)
  }

  ghost predicate Table(t: seq<nat>, k: nat) {
    |t| == 256 && forall n :: 0 <= n < 256 ==> t[n] == Steps(n, 8 * (k + 1))
  }

  /** Powers of the polynomial below the highest, lowest power first. */
  function Term(n: nat): (r: nat)
    ensures r <= 26 && (n > 0 && n < 14 ==> Term(n - 1) < r)
  {
    if n == 0 then 0 else if n == 1 then 1 else if n == 2 then 2 else if n == 3 then 4 else if n == 4 then 5
    else if n == 5 then 7 else if n == 6 then 8 else if n == 7 then 10 else if n == 8 then 11 else if n == 9 then 12
    else if n == 10 then 16 else if n == 11 then 22 else if n == 12 then 23 else 26
  }

  function TermSum(n: nat): nat {
    if n == 0 then 0 else TermSum(n - 1) + Pow2(31 - Term(n - 1))
  }

  /** The exclusive-or pattern: a bit for every term of the polynomial but the highest. */
  method Pattern() returns (poly: nat)
    ensures poly == POLY
  {
    hide Or, Shl, Pow2, Term;
    poly := 0;
    ghost var b: nat, j: nat := 0, 32;
    ShlZero(0, 32);
    for n := 0 to 14
      invariant poly == TermSum(n) == Shl(b, j) && j == (if n == 0 then 32 else 31 - Term(n - 1))
    {
      AddTerm(b, j, 31 - Term(n));
      poly := Or(poly, Shl(1, 31 - Term(n)));
      b, j := Shl(b, j - (31 - Term(n))) + 1, 31 - Term(n);
    }
    TermsMakePattern();
  }

  /** A bit below all those set. */
  lemma AddTerm(b: nat, j: nat, k: nat)
    requires k < j
    ensures Or(Shl(b, j), Shl(1, k)) == Shl(b, j) + Pow2(k) == Shl(Shl(b, j - k) + 1, k)
  {
    ShlSum(b, j - k, k);
    ShlSum(1, 0, k);
    Pow2Mono(k + 1, j);
    OrDisjoint(Pow2(k), b, j);
  }

  /** Shifts add up, and a one shifted is a power of two. */
  lemma {:induction false} ShlSum(v: nat, i: nat, k: nat)
    ensures Shl(Shl(v, i), k) == Shl(v, i + k)
    ensures Shl(Shl(v, i) + 1, k) == Shl(v, i + k) + Pow2(k)
    ensures Shl(1, k) == Pow2(k)
  {
    if k > 0 { ShlSum(v, i, k - 1); }
  }

  lemma TermsMakePattern()
    ensures TermSum(14) == POLY
  {
    hide Pow2;
    HighPowers();
    assert TermSum(1) == 0x8000_0000;
    assert TermSum(2) == 0xc000_0000;
    assert TermSum(3) == 0xe000_0000;
    assert TermSum(4) == 0xe800_0000;
    assert TermSum(5) == 0xec00_0000;
    assert TermSum(6) == 0xed00_0000;
    assert TermSum(7) == 0xed80_0000;
    assert TermSum(8) == 0xeda0_0000;
    assert TermSum(9) == 0xedb0_0000;
    assert TermSum(10) == 0xedb8_0000;
    assert TermSum(11) == 0xedb8_8000;
    assert TermSum(12) == 0xedb8_8200;
    assert TermSum(13) == 0xedb8_8300;
  }

  lemma HighPowers()
    ensures Pow2(31) == 0x8000_0000
    ensures Pow2(30) == 0x4000_0000
    ensures Pow2(29) == 0x2000_0000
    ensures Pow2(27) == 0x0800_0000
    ensures Pow2(26) == 0x0400_0000
    ensures Pow2(24) == 0x0100_0000
    ensures Pow2(23) == 0x0080_0000
    ensures Pow2(21) == 0x0020_0000
    ensures Pow2(20) == 0x0010_0000
    ensures Pow2(19) == 0x0008_0000
    ensures Pow2(15) == 0x0000_8000
    ensures Pow2(9) == 0x0000_0200
    ensures Pow2(8) == 0x0000_0100
    ensures Pow2(5) == 0x0000_0020
  {
    assert Pow2(5) == 32 && Pow2(9) == 512;
    assert Pow2(15) == 64 * Pow2(9);
    assert Pow2(19) == 16 * Pow2(15) && Pow2(21) == 4 * Pow2(19);
    assert Pow2(24) == 8 * Pow2(21) && Pow2(27) == 8 * Pow2(24);
    assert Pow2(30) == 8 * Pow2(27);
  }

  method MakeCrcTable() returns (t: seq<seq<nat>>)
    ensures Tables(t)
  {
    hide Steps, Xor;
    var poly := Pattern();
    var row := new nat[256];
    for n := 0 to 256
      invariant forall i :: 0 <= i < n ==> row[i] == Steps(i, 8)
    {
      var c: nat := n;
      FirstStep(c);
      for k := 0 to 8
        invariant c == Steps(n, k)
        modifies {}
      {
        OneStep(n, k);
        c := if c % 2 == 1 then Xor(poly, c / 2) else c / 2;
      }
      row[n] := c;
    }
    t := [row[..]];
    assert Table(t[0], 0);
    for k := 1 to 4
      invariant |t| == k && forall j :: 0 <= j < k ==> Table(t[j], j)
    {
      var next := NextTable(t[0], t[k - 1], k);
      t := t + [next];
    }
  }

  /** The table for one more zero byte. */
  method NextTable(first: seq<nat>, last: seq<nat>, k: nat) returns (next: seq<nat>)
    requires k >= 1 && Table(first, 0) && Table(last, k - 1)
    ensures Table(next, k)
  {
    hide Steps, Xor;
    next := [];
    for n := 0 to 256
      invariant |next| == n && forall i :: 0 <= i < n ==> next[i] == Steps(i, 8 * (k + 1))
    {
      var c := last[n];
      ByteStep(c);
      StepsAdd(n, 8 * k, 8);
      next := next + [Xor(first[c % 256], c / 256)];
    }
  }

  lemma OneStep(c: nat, k: nat)
    ensures Steps(c, k + 1) == Step(Steps(c, k))
  {}

  // ----- bytewise and four bytes at a time -----

  /** DO1. */
  method AddByte(t: seq<seq<nat>>, c: nat, b: Byte) returns (r: nat)
    requires Tables(t)
    ensures r == Update(c, b)
  {
    hide Steps, Xor;
    ByteStep(Xor(c, b));
    r := Xor(t[0][Xor(c, b) % 256], ShiftedByte(c, b));
  }

  /** c >> 8: exclusive or with a byte leaves the upper bits alone. */
  function ShiftedByte(c: nat, b: Byte): (r: nat)
    ensures r == Xor(c, b) / 256
  {
    UpperBits(c, b);
    c / 256
  }

  lemma UpperBits(c: nat, b: Byte)
    ensures Xor(c, b) / 256 == c / 256
  {
    hide Xor;
    XorParts(c, b);
    XorParts(c / 2, b / 2);
    XorParts(c / 4, b / 4);
    XorParts(c / 8, b / 8);
    XorParts(c / 16, b / 16);
    XorParts(c / 32, b / 32);
    XorParts(c / 64, b / 64);
    XorParts(c / 128, b / 128);
    XorZero(c / 256);
    Halves(c);
    Halves(b);
    Halves(Xor(c, b));
  }

  lemma Halves(x: nat)
    ensures x / 2 / 2 == x / 4 && x / 4 / 2 == x / 8 && x / 8 / 2 == x / 16 && x / 16 / 2 == x / 32
    ensures x / 32 / 2 == x / 64 && x / 64 / 2 == x / 128 && x / 128 / 2 == x / 256
  {}

  /** The bytewise loop. */
  method AddBytes(t: seq<seq<nat>>, c0: nat, buf: seq<Byte>, i: nat, n: nat) returns (c: nat)
    requires Tables(t) && i + n <= |buf|
    ensures c == UpdateAll(c0, buf[i..i + n])
  {
    hide Update, Tables;
    c := c0;
    NoBytes(c0);
    assert buf[i..i] == [];
    for k := i to i + n
      invariant c == UpdateAll(c0, buf[i..k])
    {
      NextByte(c0, buf, i, k);
      c := AddByte(t, c, buf[k]);
    }
  }

  lemma NoBytes(c: nat)
    ensures UpdateAll(c, []) == c
  {}

  lemma NextByte(c: nat, buf: seq<Byte>, i: nat, k: nat)
    requires i <= k < |buf|
    ensures UpdateAll(c, buf[i..k + 1]) == Update(UpdateAll(c, buf[i..k]), buf[k])
  {
    assert buf[i..k + 1][..k - i] == buf[i..k];
  }

  /** Four bytes as a little-endian word. */
  function Word(b0: Byte, b1: Byte, b2: Byte, b3: Byte): nat {
    b0 + 256 * (b1 + 256 * (b2 + 256 * b3))
  }

  lemma {:induction false} XorHigh(a: nat, b: nat, x: nat, y: nat, k: nat)
    requires a < Pow2(k) && b < Pow2(k)
    ensures Xor(a + Shl(x, k), b + Shl(y, k)) == Xor(a, b) + Shl(Xor(x, y), k)
  {
    if k == 0 {
      XorZero(0);
    } else {
      assert (a + Shl(x, k)) / 2 == a / 2 + Shl(x, k - 1) && (b + Shl(y, k)) / 2 == b / 2 + Shl(y, k - 1);
      XorHigh(a / 2, b / 2, x, y, k - 1);
    }
  }

  lemma ShlByte(v: nat)
    ensures Shl(v, 8) == 256 * v && Pow2(8) == 256
  {
    ShlFour(v, 0);
    ShlFour(v, 4);
  }

  /** One byte, with bytes still waiting in the word above it. */
  lemma WordStep(c: nat, b: Byte, rest: nat)
    ensures Steps(Xor(c, b + 256 * rest), 8) == Xor(Update(c, b), rest)
  {
    hide Xor, Steps, Shl;
    ShlByte(rest);
    assert Pow2(8) == 256;
    XorDisjoint(b, rest, 8);
    XorAssoc(c, b, Shl(rest, 8));
    StepsLinear(Xor(c, b), Shl(rest, 8), 8);
    LowClear(rest, 8);
  }

  /** Four bytes folded in at once are four bytes one after another. */
  lemma WordUpdates(c: nat, b0: Byte, b1: Byte, b2: Byte, b3: Byte)
    ensures Steps(Xor(c, Word(b0, b1, b2, b3)), 32) == Update(Update(Update(Update(c, b0), b1), b2), b3)
  {
    hide Xor, Steps, Update;
    var r2 := b2 + 256 * b3;
    var r1 := b1 + 256 * r2;
    var x := Xor(c, b0 + 256 * r1);
    WordStep(c, b0, r1);
    WordStep(Update(c, b0), b1, r2);
    WordStep(Update(Update(c, b0), b1), b2, b3);
    LastByte(Update(Update(Update(c, b0), b1), b2), b3);
    StepsAdd(x, 8, 8);
    StepsAdd(x, 16, 8);
    StepsAdd(x, 24, 8);
  }

  lemma LastByte(c: nat, b: Byte)
    ensures Steps(Xor(c, b), 8) == Update(c, b)
  {}

  /** Thirty-two zero bits are the four table entries of the four bytes. */
  lemma FourTables(c: nat)
    requires c < 0x1_0000_0000
    ensures Steps(c, 32) ==
      Xor(Xor(Xor(Steps(c % 256, 32), Steps(c / 256 % 256, 24)), Steps(c / 65536 % 256, 16)), Steps(c / 0x100_0000, 8))
  {
    hide Xor, Steps;
    Peel(c, 3);
    Peel(c / 256, 2);
    Peel(c / 65536, 1);
    assert c / 256 / 256 == c / 65536 && c / 65536 / 256 == c / 0x100_0000;
    var t0, t1, t2, t3 := Steps(c % 256, 32), Steps(c / 256 % 256, 24), Steps(c / 65536 % 256, 16), Steps(c / 0x100_0000, 8);
    XorAssoc(t0, t1, Xor(t2, t3));
    XorAssoc(Xor(t0, t1), t2, t3);
  }

  /** The low byte goes through all the steps, the rest through eight fewer. */
  lemma Peel(c: nat, k: nat)
    ensures Steps(c, 8 * (k + 1)) == Xor(Steps(c % 256, 8 * (k + 1)), Steps(c / 256, 8 * k))
  {
    hide Xor, Steps, Shl;
    LowByte(c);
    StepsLinear(c % 256, Shl(c / 256, 8), 8 * (k + 1));
    StepsAdd(Shl(c / 256, 8), 8, 8 * k);
    LowClear(c / 256, 8);
  }

  /** DOLIT4. */
  method AddWord(t: seq<seq<nat>>, c0: nat, b0: Byte, b1: Byte, b2: Byte, b3: Byte) returns (c: nat)
    requires Tables(t) && c0 < 0x1_0000_0000
    ensures c == Update(Update(Update(Update(c0, b0), b1), b2), b3)
  {
    hide Xor, Steps, Update;
    c := Xor(c0, Word(b0, b1, b2, b3));
    WordUpdates(c0, b0, b1, b2, b3);
    WordFits(c0, b0, b1, b2, b3);
    FourTables(c);
    assert Table(t[0], 0) && Table(t[1], 1) && Table(t[2], 2) && Table(t[3], 3);
    c := Xor(Xor(Xor(t[3][c % 256], t[2][c / 256 % 256]), t[1][c / 65536 % 256]), t[0][c / 0x100_0000]);
  }

  lemma WordFits(c: nat, b0: Byte, b1: Byte, b2: Byte, b3: Byte)
    requires c < 0x1_0000_0000
    ensures Xor(c, Word(b0, b1, b2, b3)) < 0x1_0000_0000
  {
    hide Xor;
    ThirtyTwo();
    XorBound(c, Word(b0, b1, b2, b3), 32);
  }

  lemma ThirtyTwo()
    ensures Pow2(32) == 0x1_0000_0000 && Pow2(31) == 0x8000_0000
  {
    HighPowers();
    assert Pow2(32) == 2 * Pow2(31);
  }

  lemma StepFits(c: nat)
    requires c < 0x1_0000_0000
    ensures Step(c) < 0x1_0000_0000
  {
    hide Xor, Pow2;
    ThirtyTwo();
    XorBound(POLY, c / 2, 32);
  }

  lemma {:induction false} StepsFit(c: nat, k: nat)
    requires c < 0x1_0000_0000
    ensures Steps(c, k) < 0x1_0000_0000
  {
    hide Step;
    if k > 0 {
      StepsFit(c, k - 1);
      StepFits(Steps(c, k - 1));
    }
  }

  /** The register always fits 32 bits. */
  lemma {:induction false} RegisterFits(c: nat, s: seq<Byte>)
    requires c < 0x1_0000_0000
    ensures UpdateAll(c, s) < 0x1_0000_0000
  {
    if s != [] {
      hide Xor, Steps, Pow2;
      RegisterFits(c, s[..|s| - 1]);
      ThirtyTwo();
      XorBound(UpdateAll(c, s[..|s| - 1]), s[|s| - 1], 32);
      StepsFit(Xor(UpdateAll(c, s[..|s| - 1]), s[|s| - 1]), 8);
    }
  }

  /** Single bytes up to a word boundary, words, and the bytes left over; misaligned says how many bytes the
      buffer starts past a word boundary. */
  method Crc32Little(t: seq<seq<nat>>, crc: nat, buf: seq<Byte>, misaligned: nat, ghost before: seq<Byte>) returns (r: nat)
    requires Tables(t) && misaligned < 4 && crc == Checksum(before)
    ensures r == Checksum(before + buf)
  {
    hide Update, Tables, UpdateAll, Xor;
    ghost var start := UpdateAll(ONES, before);
    RegisterFits(ONES, before);
    UpdateConcat(ONES, before, buf);
    XorTwice(start, ONES);
    var c := Xor(crc, ONES);
    var len := |buf|;
    var i := if misaligned == 0 then 0 else if len < 4 - misaligned then len else 4 - misaligned;
    c := AddBytes(t, c, buf, 0, i);
    assert buf[0..i] == buf[..i];
    while len - i >= 4
      invariant 0 <= i <= len && c == UpdateAll(start, buf[..i])
    {
      RegisterFits(start, buf[..i]);
      FourBytes(start, buf, i);
      c := AddWord(t, c, buf[i], buf[i + 1], buf[i + 2], buf[i + 3]);
      i := i + 4;
    }
    c := AddBytes(t, c, buf, i, len - i);
    UpdateConcat(start, buf[..i], buf[i..i + (len - i)]);
    assert buf[..i] + buf[i..i + (len - i)] == buf;
    r := Xor(c, ONES);
  }

  lemma FourBytes(c: nat, buf: seq<Byte>, i: nat)
    requires i + 4 <= |buf|
    ensures UpdateAll(c, buf[..i + 4]) ==
      Update(Update(Update(Update(UpdateAll(c, buf[..i]), buf[i]), buf[i + 1]), buf[i + 2]), buf[i + 3])
  {
    hide Update, UpdateAll;
    assert buf[..i] == buf[0..i];
    NextByte(c, buf, 0, i);
    NextByte(c, buf, 0, i + 1);
    NextByte(c, buf, 0, i + 2);
    NextByte(c, buf, 0, i + 3);
    assert buf[..i + 4] == buf[0..i + 4];
  }

  /** The loop for machines without word access. */
  method Crc32(t: seq<seq<nat>>, crc: nat, buf: seq<Byte>, ghost before: seq<Byte>) returns (r: nat)
    requires Tables(t) && crc == Checksum(before)
    ensures r == Checksum(before + buf)
  {
    hide Tables, UpdateAll, Xor;
    UpdateConcat(ONES, before, buf);
    XorTwice(UpdateAll(ONES, before), ONES);
    var c := AddBytes(t, Xor(crc, ONES), buf, 0, |buf|);
    assert buf[0..|buf|] == buf;
    r := Xor(c, ONES);
  }
}
