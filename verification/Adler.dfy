/** Adler-32 (section 2.2 of RFC 1950): two sums modulo 65521, the second of the first. */
module Adler {
  import opened Rotations

  const BASE: nat := 65521
  const NMAX: nat := 5552
  const WORD: nat := 0x1_0000_0000

  // ----- the modulus -----

  ghost predicate Prime(p: nat) {
    p >= 2 && forall a: nat, b: nat :: a >= 2 && b >= 2 ==> Times(a, b) != p
  }

  function Times(a: nat, b: nat): nat { a * b }

  /** No number from lo on and below n divides p. */
  predicate NoneDivides(p: nat, lo: nat, n: nat)
    requires lo >= 1
  {
    n <= lo || (p % (n - 1) != 0 && NoneDivides(p, lo, n - 1))
  }

  lemma {:induction false} NotDivisor(p: nat, lo: nat, n: nat, a: nat)
    requires lo >= 1 && NoneDivides(p, lo, n) && lo <= a < n
    ensures p % a != 0
  {
    if a < n - 1 { NotDivisor(p, lo, n - 1, a); }
  }

  lemma Multiple(a: nat, x: nat)
    requires x >= 1
    ensures a * x >= a
  {}

  lemma Difference(a: nat, x: nat, y: nat)
    requires x >= y
    ensures a * (x - y) == a * x - a * y
  {}

  lemma NoRemainder(a: nat, b: nat, q: nat, r: nat)
    requires a * b == a * q + r && r < a
    ensures r == 0
  {
    if q < b {
      Multiple(a, b - q);
      Difference(a, b, q);
    } else if q > b {
      Multiple(a, q - b);
      Difference(a, q, b);
    }
  }

  lemma Euclid(p: nat, a: nat)
    requires a >= 1
    ensures p == a * (p / a) + p % a && p % a < a
  {}

  lemma Divides(a: nat, b: nat)
    requires a >= 1
    ensures (a * b) % a == 0
  {
    Euclid(a * b, a);
    NoRemainder(a, b, a * b / a, a * b % a);
  }

  lemma LargeProduct(a: nat, b: nat)
    requires a >= 256 && b >= 256
    ensures a * b >= 65536
  {
    assert a * b >= 256 * b;
  }

  /** Of two factors one is small. */
  lemma SmallFactor(a: nat, b: nat)
    requires a * b == BASE
    ensures a < 256 || b < 256
  {
    if a >= 256 && b >= 256 { LargeProduct(a, b); }
  }

  /** The modulus is the largest prime number below 65536. */
  lemma LargestPrime()
    ensures Prime(BASE) && forall m :: BASE < m < 65536 ==> !Prime(m)
  {
    forall a: nat, b: nat | a >= 2 && b >= 2 ensures Times(a, b) != BASE {
      if a * b == BASE {
        SmallFactor(a, b);
        Divides(a, b);
        Divides(b, a);
        FewDivide(if a < 256 then a else b);
      }
    }
    NoneAbove();
  }

  lemma Divisors0()
    ensures NoneDivides(65521, 2, 32)
  {
    assert NoneDivides(65521, 2, 16);
  }

  lemma Divisors1()
    ensures NoneDivides(65521, 32, 64)
  {
    assert NoneDivides(65521, 32, 48);
  }

  lemma Divisors2()
    ensures NoneDivides(65521, 64, 96)
  {
    assert NoneDivides(65521, 64, 80);
  }

  lemma Divisors3()
    ensures NoneDivides(65521, 96, 128)
  {
    assert NoneDivides(65521, 96, 112);
  }

  lemma Divisors4()
    ensures NoneDivides(65521, 128, 160)
  {
    assert NoneDivides(65521, 128, 144);
  }

  lemma Divisors5()
    ensures NoneDivides(65521, 160, 192)
  {
    assert NoneDivides(65521, 160, 176);
  }

  lemma Divisors6()
    ensures NoneDivides(65521, 192, 224)
  {
    assert NoneDivides(65521, 192, 208);
  }

  lemma Divisors7()
    ensures NoneDivides(65521, 224, 256)
  {
    assert NoneDivides(65521, 224, 240);
  }

  lemma FewDivide(a: nat)
    requires 2 <= a < 256
    ensures 65521 % a != 0
  {
    Divisors0();
    Divisors1();
    Divisors2();
    Divisors3();
    Divisors4();
    Divisors5();
    Divisors6();
    Divisors7();
    NotDivisor(65521, if a < 32 then 2 else a / 32 * 32, a / 32 * 32 + 32, a);
  }

  lemma NoneAbove()
    ensures forall m :: BASE < m < 65536 ==> !Prime(m)
  {
    assert Times(2, 32761) == 65522 && Times(2, 32762) == 65524 && Times(2, 32763) == 65526 && Times(2, 32764) == 65528;
    assert Times(2, 32765) == 65530 && Times(2, 32766) == 65532 && Times(2, 32767) == 65534 && Times(3, 21841) == 65523;
    assert Times(5, 13105) == 65525 && Times(7, 9361) == 65527 && Times(3, 21843) == 65529 && Times(19, 3449) == 65531;
    assert Times(13, 5041) == 65533 && Times(3, 21845) == 65535;
  }

  // ----- the definition -----

  /** a plus the bytes. */
  function Lo(a: nat, s: seq<Byte>): (r: nat)
    ensures r >= a
  {
    if s == [] then a else Lo(a, s[..|s| - 1]) + s[|s| - 1]
  }

  /** b plus all values the first sum takes. */
  function Hi(a: nat, b: nat, s: seq<Byte>): (r: nat)
    ensures r >= b
  {
    if s == [] then b else Hi(a, b, s[..|s| - 1]) + Lo(a, s)
  }

  /** The two sums in one word. */
  function Pack(s1: nat, s2: nat): nat { s1 + 65536 * s2 }

  /** The checksum of a byte string. */
  function Checksum(s: seq<Byte>): (r: nat)
    ensures r < WORD
  {
    Pack(Lo(1, s) % BASE, Hi(1, 0, s) % BASE)
  }

  lemma LoOne(a: nat, s: seq<Byte>, i: nat, j: nat)
    requires i <= j < |s|
    ensures Lo(a, s[i..j + 1]) == Lo(a, s[i..j]) + s[j]
    ensures forall b :: Hi(a, b, s[i..j + 1]) == Hi(a, b, s[i..j]) + Lo(a, s[i..j + 1])
  {
    assert s[i..j + 1][..j - i] == s[i..j];
  }

  lemma {:induction false} Concat(a: nat, b: nat, s: seq<Byte>, t: seq<Byte>)
    ensures Lo(a, s + t) == Lo(Lo(a, s), t)
    ensures Hi(a, b, s + t) == Hi(Lo(a, s), Hi(a, b, s), t)
  {
    if t == [] {
      assert s + t == s;
    } else {
      Concat(a, b, s, t[..|t| - 1]);
      assert (s + t)[..|s + t| - 1] == s + t[..|t| - 1];
    }
  }

  /** Equal modulo the base. */
  predicate Cong(x: int, y: int) { (x - y) % BASE == 0 }

  /** Reducing the sums early does not change what they are modulo the base. */
  lemma {:induction false} SumsCong(a: nat, b: nat, a': nat, b': nat, s: seq<Byte>)
    requires Cong(a, a') && Cong(b, b')
    ensures Cong(Lo(a, s), Lo(a', s)) && Cong(Hi(a, b, s), Hi(a', b', s))
  {
    if s != [] { SumsCong(a, b, a', b', s[..|s| - 1]); }
  }

  lemma CongMod(x: nat, y: nat)
    ensures Cong(x, y) <==> x % BASE == y % BASE
    ensures Cong(x % BASE, x)
  {}

  // ----- deferred reduction -----

  /** How far the sums can have grown after n more bytes. */
  function Growth(n: nat): nat { 255 * n }

  function GrowthHi(n: nat): nat {
    if n == 0 then 0 else GrowthHi(n - 1) + (BASE - 1) + Growth(n)
  }

  lemma {:induction false} GrowthMono(m: nat, n: nat)
    requires m <= n
    ensures GrowthHi(m) <= GrowthHi(n)
  {
    if m < n { GrowthMono(m, n - 1); }
  }

  lemma {:induction false} GrowthIs(n: nat)
    ensures 2 * GrowthHi(n) == n * (2 * (BASE - 1) + 255 * (n + 1))
  {
    if n > 0 {
      GrowthIs(n - 1);
      assert n * (2 * (BASE - 1) + 255 * (n + 1)) == (n - 1) * (2 * (BASE - 1) + 255 * n) + 2 * (BASE - 1) + 2 * Growth(n) by {
        assert (n - 1) * (2 * (BASE - 1) + 255 * n) == n * (2 * (BASE - 1) + 255 * n) - 2 * (BASE - 1) - 255 * n;
        assert n * (2 * (BASE - 1) + 255 * (n + 1)) == n * (2 * (BASE - 1) + 255 * n) + 255 * n;
      }
    }
  }

  /** NMAX is the largest number of bytes for which the reduction may wait. */
  lemma WaitLimit(n: nat)
    ensures n <= NMAX <==> BASE - 1 + GrowthHi(n) < WORD
  {
    GrowthIs(NMAX);
    GrowthIs(NMAX + 1);
    if n <= NMAX { GrowthMono(n, NMAX); } else { GrowthMono(NMAX + 1, n); }
  }

  lemma {:induction false} SumsGrow(a: nat, b: nat, s: seq<Byte>)
    requires a < BASE && b < BASE
    ensures Lo(a, s) <= BASE - 1 + Growth(|s|) && Hi(a, b, s) <= BASE - 1 + GrowthHi(|s|)
  {
    if s != [] { SumsGrow(a, b, s[..|s| - 1]); }
  }

  /** Within NMAX bytes neither sum leaves 32 bits. */
  lemma NoOverflow(a: nat, b: nat, s: seq<Byte>)
    requires a < BASE && b < BASE && |s| <= NMAX
    ensures Lo(a, s) < WORD && Hi(a, b, s) < WORD
  {
    SumsGrow(a, b, s);
    WaitLimit(|s|);
    assert Growth(|s|) <= 255 * NMAX;
  }

  // ----- reductions without division -----

  function Chop(a: nat): nat { a % 65536 + (a / 65536 * 16 - a / 65536) }

  function Mod28(a: nat): nat {
    var c := Chop(a);
    if c >= BASE then c - BASE else c
  }

  function Mod(a: nat): nat { Mod28(Chop(a)) }

  function Mod63(a: nat): nat {
    var t := a / 0x1_0000_0000;
    var b := a % 0x1_0000_0000 + (t * 256 - t * 32 + t);
    var d := Chop(Chop(b));
    if d >= BASE then d - BASE else d
  }

  lemma ChopCong(a: nat)
    ensures Cong(Chop(a), a)
  {
    assert a == a / 65536 * 65536 + a % 65536;
  }

  lemma ModCorrect(a: nat)
    requires a < WORD
    ensures Mod(a) == a % BASE
  {
    hide Cong, Chop;
    ChopBound(a, 65536);
    ChopBound(Chop(a), 16);
    ChopCong(a);
    ChopCong(Chop(a));
    CongTrans(Chop(Chop(a)), Chop(a), a);
    Reduced(Chop(Chop(a)), a);
  }

  lemma Mod28Correct(a: nat)
    requires a < 0x1000_0000
    ensures Mod28(a) == a % BASE
  {
    ChopCong(a);
  }

  lemma ChopBound(a: nat, k: nat)
    requires a < 65536 * k
    ensures Chop(a) < 65536 + 15 * k
  {}

  lemma Mod63Correct(a: nat)
    requires a < 0x8000_0000_0000_0000
    ensures Mod63(a) == a % BASE
  {
    hide Cong, Chop;
    var t := a / 0x1_0000_0000;
    var b := a % 0x1_0000_0000 + (t * 256 - t * 32 + t);
    MultipleCong(b, a, t * 65551);
    ChopBound(b, 0x100_0000);
    ChopBound(Chop(b), 3842);
    ChopCong(b);
    ChopCong(Chop(b));
    CongTrans(Chop(b), b, a);
    CongTrans(Chop(Chop(b)), Chop(b), a);
    Reduced(Chop(Chop(b)), a);
  }

  lemma MultipleCong(x: int, y: int, k: int)
    requires y - x == k * BASE
    ensures Cong(x, y)
  {
    assert (x - y) == (-k) * BASE;
  }

  lemma CongTrans(x: int, y: int, z: int)
    requires Cong(x, y) && Cong(y, z)
    ensures Cong(x, z)
  {}

  /** At most one subtraction away from the remainder. */
  lemma Reduced(x: nat, y: nat)
    requires Cong(x, y) && x < 2 * BASE
    ensures y % BASE == if x >= BASE then x - BASE else x
  {}

  // ----- the function -----

  /** Continues a checksum over more bytes, reducing as rarely as 32 bits allow. */
  method Adler32(adler0: nat, buf: seq<Byte>, ghost before: seq<Byte>) returns (r: nat)
    requires adler0 == Checksum(before)
    ensures r == Checksum(before + buf)
  {
    hide Lo, Hi, Cong, Checksum, Pack;
    var sum2 := adler0 / 65536 % 65536;
    var adler := adler0 % 65536;
    Unpack(before);
    Continue(before, buf, adler, sum2);
    if |buf| == 1 {
      adler, sum2 := AddOne(buf, adler, sum2);
    } else if |buf| < 16 {
      adler, sum2 := AddShort(buf, adler, sum2);
    } else {
      adler, sum2 := AddBlocks(buf, adler, sum2);
    }
    r := Pack(adler, sum2);
  }

  method AddOne(buf: seq<Byte>, a0: nat, b0: nat) returns (adler: nat, sum2: nat)
    requires |buf| == 1 && a0 < BASE && b0 < BASE
    ensures adler == Lo(a0, buf) % BASE && sum2 == Hi(a0, b0, buf) % BASE
  {
    hide Lo, Hi;
    SingleByte(a0, b0, buf);
    adler := a0 + buf[0];
    if adler >= BASE { adler := adler - BASE; }
    sum2 := b0 + adler;
    if sum2 >= BASE { sum2 := sum2 - BASE; }
  }

  /** Fewer than sixteen bytes: one subtraction and a short reduction are enough. */
  method AddShort(buf: seq<Byte>, a0: nat, b0: nat) returns (adler: nat, sum2: nat)
    requires |buf| < 16 && a0 < BASE && b0 < BASE
    ensures adler == Lo(a0, buf) % BASE && sum2 == Hi(a0, b0, buf) % BASE
  {
    hide Lo, Hi, Mod28;
    adler, sum2 := AddRun(buf, 0, |buf|, a0, b0);
    assert buf[0..|buf|] == buf;
    ShortSums(a0, b0, buf);
    if adler >= BASE { adler := adler - BASE; }
    sum2 := Mod28(sum2);
  }

  lemma Unpack(s: seq<Byte>)
    ensures Checksum(s) % 65536 == Lo(1, s) % BASE && Checksum(s) / 65536 % 65536 == Hi(1, 0, s) % BASE
  {
    hide Lo, Hi;
  }

  /** Blocks of NMAX bytes, then what is left. */
  method AddBlocks(buf: seq<Byte>, a0: nat, b0: nat) returns (adler: nat, sum2: nat)
    requires a0 < BASE && b0 < BASE
    ensures adler == Lo(a0, buf) % BASE && sum2 == Hi(a0, b0, buf) % BASE
  {
    hide Lo, Hi, Cong, Mod;
    var len, i := |buf|, 0;
    adler, sum2 := a0, b0;
    NoSums(buf, a0, b0);
    while len - i >= NMAX
      invariant 0 <= i <= len
      invariant adler == Lo(a0, buf[..i]) % BASE && sum2 == Hi(a0, b0, buf[..i]) % BASE
      decreases len - i
    {
      adler, sum2 := AddBlock(buf, i, NMAX, adler, sum2, a0, b0);
      i := i + NMAX;
    }
    if len > i {
      adler, sum2 := AddBlock(buf, i, len - i, adler, sum2, a0, b0);
    }
    assert buf[..len] == buf;
  }

  /** At most NMAX bytes and one reduction. */
  method AddBlock(buf: seq<Byte>, i: nat, n: nat, adler0: nat, sum20: nat, ghost a0: nat, ghost b0: nat) returns (adler: nat, sum2: nat)
    requires i + n <= |buf| && n <= NMAX
    requires adler0 == Lo(a0, buf[..i]) % BASE && sum20 == Hi(a0, b0, buf[..i]) % BASE
    ensures adler == Lo(a0, buf[..i + n]) % BASE && sum2 == Hi(a0, b0, buf[..i + n]) % BASE
  {
    hide Lo, Hi, Cong, Mod;
    adler, sum2 := AddRun(buf, i, n, adler0, sum20);
    StepSums(buf, i, n, a0, b0, adler0, sum20);
    ModCorrect(adler);
    ModCorrect(sum2);
    adler, sum2 := Mod(adler), Mod(sum2);
  }

  /** n bytes with no reduction; no sum reaches 32 bits on the way. */
  method AddRun(buf: seq<Byte>, i: nat, n: nat, adler0: nat, sum20: nat) returns (adler: nat, sum2: nat)
    requires i + n <= |buf| && n <= NMAX && adler0 < BASE && sum20 < BASE
    ensures adler == Lo(adler0, buf[i..i + n]) < WORD && sum2 == Hi(adler0, sum20, buf[i..i + n]) < WORD
  {
    hide Lo, Hi;
    adler, sum2 := adler0, sum20;
    assert buf[i..i] == [];
    NoSums([], adler0, sum20);
    for k := i to i + n
      invariant adler == Lo(adler0, buf[i..k]) && sum2 == Hi(adler0, sum20, buf[i..k])
      invariant adler < WORD && sum2 < WORD
    {
      LoOne(adler0, buf, i, k);
      NoOverflow(adler0, sum20, buf[i..k + 1]);
      adler := adler + buf[k];
      sum2 := sum2 + adler;
    }
  }

  lemma NoSums(buf: seq<Byte>, a: nat, b: nat)
    ensures Lo(a, []) == a && Hi(a, b, []) == b && buf[..0] == []
    ensures a < BASE && b < BASE ==> Lo(a, buf[..0]) % BASE == a && Hi(a, b, buf[..0]) % BASE == b
  {}

  /** The checksum of the whole from the reduced sums of the part before. */
  lemma Continue(before: seq<Byte>, buf: seq<Byte>, a0: nat, b0: nat)
    requires a0 == Lo(1, before) % BASE && b0 == Hi(1, 0, before) % BASE
    ensures Checksum(before + buf) == Pack(Lo(a0, buf) % BASE, Hi(a0, b0, buf) % BASE)
  {
    hide Lo, Hi, Cong;
    Concat(1, 0, before, buf);
    CongMod(Lo(1, before), 0);
    CongMod(Hi(1, 0, before), 0);
    SumsCong(a0, b0, Lo(1, before), Hi(1, 0, before), buf);
    CongMod(Lo(a0, buf), Lo(Lo(1, before), buf));
    CongMod(Hi(a0, b0, buf), Hi(Lo(1, before), Hi(1, 0, before), buf));
  }

  lemma SingleByte(a: nat, b: nat, buf: seq<Byte>)
    requires |buf| == 1 && a < BASE && b < BASE
    ensures Lo(a, buf) == a + buf[0] && Hi(a, b, buf) == b + a + buf[0]
  {
    assert buf[..0] == [];
  }

  lemma ShortSums(a: nat, b: nat, buf: seq<Byte>)
    requires |buf| < 16 && a < BASE && b < BASE
    ensures Lo(a, buf) < 2 * BASE && Mod28(Hi(a, b, buf)) == Hi(a, b, buf) % BASE
  {
    SumsGrow(a, b, buf);
    GrowthMono(|buf|, 16);
    GrowthIs(16);
    Mod28Correct(Hi(a, b, buf));
  }

  lemma StepSums(buf: seq<Byte>, i: nat, n: nat, a0: nat, b0: nat, p: nat, q: nat)
    requires i + n <= |buf| && p == Lo(a0, buf[..i]) % BASE && q == Hi(a0, b0, buf[..i]) % BASE
    ensures Lo(p, buf[i..i + n]) % BASE == Lo(a0, buf[..i + n]) % BASE
    ensures Hi(p, q, buf[i..i + n]) % BASE == Hi(a0, b0, buf[..i + n]) % BASE
  {
    hide Lo, Hi, Cong;
    var s, t := buf[..i], buf[i..i + n];
    assert buf[..i + n] == s + t;
    Concat(a0, b0, s, t);
    CongMod(Lo(a0, s), 0);
    CongMod(Hi(a0, b0, s), 0);
    SumsCong(p, q, Lo(a0, s), Hi(a0, b0, s), t);
    CongMod(Lo(p, t), Lo(Lo(a0, s), t));
    CongMod(Hi(p, q, t), Hi(Lo(a0, s), Hi(a0, b0, s), t));
  }

  // ----- combination -----

  lemma {:induction false} Shift(a: nat, b: nat, s: seq<Byte>)
    ensures Lo(a, s) - a == Lo(1, s) - 1
    ensures Hi(a, b, s) == b + |s| * (a - 1) + Hi(1, 0, s)
  {
    if s != [] {
      Shift(a, b, s[..|s| - 1]);
      assert |s| * (a - 1) == (|s| - 1) * (a - 1) + (a - 1);
    }
  }

  lemma MulCong(x: int, x': int, y: int, y': int)
    requires Cong(x, x') && Cong(y, y')
    ensures Cong(x * y, x' * y')
  {
    var k, m := (x - x') / BASE, (y - y') / BASE;
    assert x == x' + k * BASE && y == y' + m * BASE;
    assert x * y - x' * y' == BASE * (k * y + m * x') by {
      assert x * y == (x' + k * BASE) * y == x' * y + k * BASE * y;
      assert x' * y == x' * (y' + m * BASE) == x' * y' + x' * m * BASE;
    }
  }

  /** Checksums of two pieces give the checksum of the whole, for any length of the second. */
  method Combine(adler1: nat, adler2: nat, len2: int, ghost s: seq<Byte>, ghost t: seq<Byte>) returns (r: nat)
    requires adler1 < WORD && adler2 < WORD && len2 < 0x8000_0000_0000_0000
    ensures len2 < 0 ==> r == 0xffff_ffff
    ensures adler1 == Checksum(s) && adler2 == Checksum(t) && len2 == |t| ==> r == Checksum(s + t)
  {
    hide Mod63, Mod, Cong, Lo, Hi, Checksum, Pack;
    if len2 < 0 { return 0xffff_ffff; }
    Mod63Correct(len2);
    var rem := Mod63(len2);
    var sum1 := adler1 % 65536;
    var sum2 := rem * sum1;
    Product(rem, sum1);
    ModCorrect(sum2);
    sum2 := Mod(sum2);
    var lo, hi := sum1 + (adler2 % 65536 + BASE - 1), sum2 + (adler1 / 65536 % 65536 + adler2 / 65536 % 65536 + BASE - rem);
    if adler1 == Checksum(s) && adler2 == Checksum(t) && len2 == |t| {
      Unpack(s);
      Unpack(t);
      CombineSums(s, t, lo, hi, rem);
    }
    sum1, sum2 := SubtractBase(lo, hi);
    r := Pack(sum1, sum2);
  }

  method SubtractBase(lo: nat, hi: nat) returns (sum1: nat, sum2: nat)
    ensures lo < 3 * BASE ==> sum1 == lo % BASE
    ensures hi < 4 * BASE ==> sum2 == hi % BASE
  {
    sum1, sum2 := lo, hi;
    if sum1 >= BASE { sum1 := sum1 - BASE; }
    if sum1 >= BASE { sum1 := sum1 - BASE; }
    if sum2 >= 2 * BASE { sum2 := sum2 - 2 * BASE; }
    if sum2 >= BASE { sum2 := sum2 - BASE; }
  }

  lemma Product(x: nat, y: nat)
    requires x <= 65520 && y <= 65535
    ensures 0 <= x * y <= 65520 * 65535
  {
    assert x * y <= 65520 * y;
  }

  lemma CombineSums(s: seq<Byte>, t: seq<Byte>, lo: nat, hi: nat, rem: nat)
    requires rem == |t| % BASE
    requires lo == Lo(1, s) % BASE + (Lo(1, t) % BASE + BASE - 1)
    requires hi == (rem * (Lo(1, s) % BASE)) % BASE + (Hi(1, 0, s) % BASE + Hi(1, 0, t) % BASE + BASE - rem)
    ensures Checksum(s + t) == Pack(lo % BASE, hi % BASE)
  {
    hide Lo, Hi, Cong, Checksum;
    var a, b, n := Lo(1, s), Hi(1, 0, s), |t|;
    Concat(1, 0, s, t);
    Shift(a, b, t);
    LoCong(lo, a, Lo(1, t));
    HiCong(hi, a, b, Hi(1, 0, t), n);
    ChecksumIs(s + t, lo, hi);
  }

  lemma LoCong(lo: nat, a: nat, c: nat)
    requires lo == a % BASE + (c % BASE + BASE - 1)
    ensures Cong(lo, a + c - 1)
  {}

  lemma HiCong(hi: nat, a: nat, b: nat, d: nat, n: nat)
    requires hi == (n % BASE * (a % BASE)) % BASE + (b % BASE + d % BASE + BASE - n % BASE)
    ensures Cong(hi, b + n * (a - 1) + d)
  {
    var p, q := n % BASE * (a % BASE), n * a;
    ProductCong(n, a);
    assert n * (a - 1) == q - n;
    SumCong(hi, p, q, b, d, n);
  }

  lemma ProductCong(n: nat, a: nat)
    ensures Cong(n % BASE * (a % BASE), n * a)
  {
    hide Cong;
    CongMod(n, 0);
    CongMod(a, 0);
    MulCong(n % BASE, n, a % BASE, a);
  }

  lemma SumCong(hi: nat, p: nat, q: nat, b: nat, d: nat, n: nat)
    requires Cong(p, q) && hi == p % BASE + (b % BASE + d % BASE + BASE - n % BASE)
    ensures Cong(hi, b + (q - n) + d)
  {}

  lemma ChecksumIs(u: seq<Byte>, lo: nat, hi: nat)
    requires Cong(lo, Lo(1, u)) && Cong(hi, Hi(1, 0, u))
    ensures Checksum(u) == Pack(lo % BASE, hi % BASE)
  {
    hide Lo, Hi, Cong;
    CongMod(lo, Lo(1, u));
    CongMod(hi, Hi(1, 0, u));
  }
}
