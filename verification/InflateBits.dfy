/** Inflate's bit accumulator: bytes enter above the bits already held. */
module InflateBits {
  import opened Rotations
  import opened Words
  import opened Bits
  import opened InflateCodes

  /** The low n bits of v, least significant first. */
  function Extra(v: nat, n: nat): (r: bits)
    ensures |r| == n
  {
    if n == 0 then [] else [v % 2 == 1] + Extra(v / 2, n - 1)
  }

  lemma {:induction false} HoldExtra(v: nat, n: nat)
    requires v < Pow2(n)
    ensures Hold(Extra(v, n)) == v
  {
    if n > 0 { HoldExtra(v / 2, n - 1); }
  }

  /** The bits of a deflate stream: each byte from its least significant bit. */
  function Stream(s: seq<Byte>): (r: bits)
    ensures |r| == 8 * |s|
  {
    if s == [] then [] else Extra(s[0], 8) + Stream(s[1..])
  }

  lemma ExtraNext(v: nat, n: nat)
    requires n > 0
    ensures Extra(v, n) == [v % 2 == 1] + Extra(v / 2, n - 1)
  {}

  lemma ShlHalf(h: nat, x: nat, n: nat)
    requires n > 0
    ensures (h + Shl(x, n)) / 2 == h / 2 + Shl(x, n - 1) && (h + Shl(x, n)) % 2 == h % 2
  {}

  lemma {:induction false} PulledBound(hold: nat, n: nat, x: Byte)
    requires hold < Pow2(n)
    ensures hold + Shl(x, n) < Pow2(n + 8)
  {
    if n == 0 { Pow2Byte(); } else { PulledBound(hold / 2, n - 1, x); }
  }

  /** Pulling a byte in. */
  lemma {:induction false} Pulled(hold: nat, n: nat, x: Byte)
    requires hold < Pow2(n)
    ensures hold + Shl(x, n) < Pow2(n + 8)
    ensures Extra(hold + Shl(x, n), n + 8) == Extra(hold, n) + Extra(x, 8)
  {
    hide Extra, Shl;
    PulledBound(hold, n, x);
    if n == 0 {
      assert Shl(x, 0) == x by { ShlNothing(x); }
    } else {
      Pulled(hold / 2, n - 1, x);
      ShlHalf(hold, x, n);
      ExtraNext(hold + Shl(x, n), n + 8);
      ExtraNext(hold, n);
    }
  }

  /** Dropping bits. */
  lemma {:induction false} Dropped(hold: nat, n: nat, k: nat)
    requires k <= n && hold < Pow2(n)
    ensures Shr(hold, k) < Pow2(n - k) && Extra(Shr(hold, k), n - k) == Extra(hold, n)[k..]
  {
    if k > 0 { Dropped(hold / 2, n - 1, k - 1); }
  }

  /** Looking at bits. */
  lemma {:induction false} Looked(hold: nat, n: nat, k: nat)
    requires k <= n
    ensures Extra(hold, n)[..k] == Extra(LowBits(hold, k), k) && Hold(Extra(hold, n)[..k]) == LowBits(hold, k)
  {
    if k > 0 {
      hide Extra, Pow2;
      Looked(hold / 2, n - 1, k - 1);
      ExtraNext(hold, n);
      ExtraNext(LowBits(hold, k), k);
      assert LowBits(hold, k) / 2 == LowBits(hold / 2, k - 1) && LowBits(hold, k) % 2 == hold % 2;
      assert Extra(hold, n)[..k] == [hold % 2 == 1] + Extra(hold / 2, n - 1)[..k - 1];
    }
  }

  lemma StreamNext(s: seq<Byte>, i: nat)
    requires i < |s|
    ensures Stream(s[i..]) == Extra(s[i], 8) + Stream(s[i + 1..])
  {
    assert s[i..][1..] == s[i + 1..];
  }

  lemma {:induction false} StreamFrom(s: seq<Byte>, i: nat)
    requires i <= |s|
    ensures Stream(s)[8 * i..] == Stream(s[i..])
  {
    if i > 0 {
      StreamFrom(s[1..], i - 1);
      assert s[1..][i - 1..] == s[i..];
      assert Stream(s)[8 * i..] == Stream(s[1..])[8 * (i - 1)..];
    }
  }

  lemma {:induction false} StreamConcat(a: seq<Byte>, b: seq<Byte>)
    ensures Stream(a + b) == Stream(a) + Stream(b)
  {
    hide Extra;
    if a == [] {
      assert a + b == b;
    } else {
      StreamConcat(a[1..], b);
      assert (a + b)[1..] == a[1..] + b;
    }
  }
}
