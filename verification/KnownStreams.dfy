/** A stream worked out by hand from sections 3.1.1 and 3.2 of RFC 1951, bit by bit. */
module KnownStreams {
  import opened Rotations
  import opened Words
  import opened Bits
  import opened Codes
  import opened InflateCodes
  import opened InflateBits
  import opened InflateBlocks
  import opened InflateTokens
  import opened FixedCodes
  import opened DeflateFormat
  import opened FormatNumbers
  import opened Outcomes
  import opened Lz77

  /** a, b, c, and three bytes from three back. */
  const SAMPLE: seq<Token> := [Lit(0x61), Lit(0x62), Lit(0x63), Match(3, 3)]
  const SAMPLE_DATA: seq<Byte> := [0x61, 0x62, 0x63, 0x61, 0x62, 0x63]
  const SAMPLE_BYTES: seq<Byte> := [0x4b, 0x4c, 0x4a, 0x06, 0x22, 0x00]

  /** The codes of a, b, c, length 3, distance 3 and the end of block. */
  lemma SampleCodes()
    ensures |FixedLens()| == 288 && |FixedDists()| == 32
    ensures CodeBits(FixedLens(), 0x61) == [true, false, false, true, false, false, false, true]
    ensures CodeBits(FixedLens(), 0x62) == [true, false, false, true, false, false, true, false]
    ensures CodeBits(FixedLens(), 0x63) == [true, false, false, true, false, false, true, true]
    ensures CodeBits(FixedLens(), 257) == [false, false, false, false, false, false, true]
    ensures CodeBits(FixedDists(), 2) == [false, false, false, true, false]
    ensures CodeBits(FixedLens(), 256) == [false, false, false, false, false, false, false]
  {
    hide FixedLens, FixedDists, Code, BitsOf;
    HighFirst(0x91);
    HighFirst(0x92);
    HighFirst(0x93);
    PairWords();
    FixedValues(0x61);
    FixedValues(0x62);
    FixedValues(0x63);
    FixedValues(257);
    FixedValues(2);
    FixedValues(256);
  }

  /** Codes come from the high end. */
  lemma HighFirst(v: nat)
    ensures var v1 := v / 2; var v2 := v1 / 2; var v3 := v2 / 2; var v4 := v3 / 2; var v5 := v4 / 2; var v6 := v5 / 2; var v7 := v6 / 2;
            BitsOf(v, 8) == [v7 % 2 == 1, v6 % 2 == 1, v5 % 2 == 1, v4 % 2 == 1, v3 % 2 == 1, v2 % 2 == 1, v1 % 2 == 1, v % 2 == 1]
  {
    var v1 := v / 2; var v2 := v1 / 2; var v3 := v2 / 2; var v4 := v3 / 2; var v5 := v4 / 2; var v6 := v5 / 2; var v7 := v6 / 2;
    assert BitsOf(v7, 1) == [v7 % 2 == 1];
    assert BitsOf(v6, 2) == [v7 % 2 == 1, v6 % 2 == 1];
    assert BitsOf(v5, 3) == [v7 % 2 == 1, v6 % 2 == 1, v5 % 2 == 1];
    assert BitsOf(v4, 4) == [v7 % 2 == 1, v6 % 2 == 1, v5 % 2 == 1, v4 % 2 == 1];
    assert BitsOf(v3, 5) == [v7 % 2 == 1, v6 % 2 == 1, v5 % 2 == 1, v4 % 2 == 1, v3 % 2 == 1];
    assert BitsOf(v2, 6) == [v7 % 2 == 1, v6 % 2 == 1, v5 % 2 == 1, v4 % 2 == 1, v3 % 2 == 1, v2 % 2 == 1];
    assert BitsOf(v1, 7) == [v7 % 2 == 1, v6 % 2 == 1, v5 % 2 == 1, v4 % 2 == 1, v3 % 2 == 1, v2 % 2 == 1, v1 % 2 == 1];
  }

  lemma PairWords()
    ensures BitsOf(1, 7) == [false, false, false, false, false, false, true]
    ensures BitsOf(2, 5) == [false, false, false, true, false]
    ensures BitsOf(0, 7) == [false, false, false, false, false, false, false]
  {}

  /** Length 3 and distance 3 have no extra bits. */
  lemma SamplePair()
    ensures LengthCode(3) == 0 && LengthExtra(3) == ExtraBits(0, 0) && DistanceCode(3) == 2 && DistanceExtra(3) == ExtraBits(0, 0)
  {
    hide LengthCode, DistanceCode;
    assert Pow2(0) == 1;
    OneLengthPair(3, 0, 0);
    OneDistancePair(3, 2, 0);
  }

  lemma SampleWritable()
    ensures Writable(Fixed(SAMPLE))
  {
    hide FixedLens, FixedDists, Codable;
    forall k | 0 <= k < |SAMPLE| ensures Codable(FixedLens(), FixedDists(), SAMPLE[k]) { FixedCodable(SAMPLE[k]); }
  }

  /** One block with the fixed codes, the last of its stream, and two bits to the end of the byte. */
  lemma SampleStream()
    ensures Writable(Fixed(SAMPLE)) && StreamBits([Fixed(SAMPLE)], 0) + [false, false] == Stream(SAMPLE_BYTES)
  {
    hide FixedLens, FixedDists, CodeBits, LengthCode, DistanceCode, LengthExtra, DistanceExtra, Codable, Stream, DataBits, Writable;
    SampleWritable();
    SampleBlock();
    var parts := [Fixed(SAMPLE)];
    assert Extra(1, 2) == [true, false];
    assert parts[1..] == [];
    assert StreamBits(parts, 0) == [true] + [true, false] + DataBits(parts[0], 3);
    SampleBytes();
  }

  /** The forty-three bits of the block. */
  function SampleBits(): bits {
    [true, false, false, true, false, false, false, true] + [true, false, false, true, false, false, true, false] +
    [true, false, false, true, false, false, true, true] + [false, false, false, false, false, false, true] +
    [false, false, false, true, false] + [false, false, false, false, false, false, false]
  }

  lemma SampleBlock()
    ensures Writable(Fixed(SAMPLE)) && DataBits(Fixed(SAMPLE), 3) == SampleBits()
  {
    hide FixedLens, FixedDists, CodeBits, LengthCode, DistanceCode, LengthExtra, DistanceExtra, BlockBits;
    SampleWritable();
    SampleCodes();
    FixedOccurs();
    var ls, ds, t := FixedLens(), FixedDists(), SAMPLE;
    SampleTokens(ls, ds);
    assert t[1..] == [Lit(0x62), Lit(0x63), Match(3, 3)] && t[1..][1..] == [Lit(0x63), Match(3, 3)] && t[1..][1..][1..] == [Match(3, 3)];
    LiteralFirst(ls, ds, 0x63, t[1..][1..][1..]);
    LiteralFirst(ls, ds, 0x62, t[1..][1..]);
    LiteralFirst(ls, ds, 0x61, t[1..]);
    assert t == [Lit(0x61)] + t[1..] && t[1..] == [Lit(0x62)] + t[1..][1..] && t[1..][1..] == [Lit(0x63)] + t[1..][1..][1..];
  }

  lemma LiteralFirst(ls: seq<nat>, ds: seq<nat>, c: Byte, t: seq<Token>)
    requires Occurs(ls, 256) && Occurs(ls, c) && forall i :: 0 <= i < |t| ==> Codable(ls, ds, t[i])
    ensures (forall i :: 0 <= i < 1 + |t| ==> Codable(ls, ds, ([Lit(c)] + t)[i]))
    ensures BlockBits(ls, ds, [Lit(c)] + t) == CodeBits(ls, c) + BlockBits(ls, ds, t)
  {
    assert ([Lit(c)] + t)[1..] == t;
  }

  lemma SampleTokens(ls: seq<nat>, ds: seq<nat>)
    requires ls == FixedLens() && ds == FixedDists()
    ensures Codable(ls, ds, Match(3, 3)) && Occurs(ls, 256)
    ensures BlockBits(ls, ds, [Match(3, 3)]) == CodeBits(ls, 257) + CodeBits(ds, 2) + CodeBits(ls, 256)
  {
    hide FixedLens, FixedDists, CodeBits, LengthCode, DistanceCode, LengthExtra, DistanceExtra;
    FixedCodable(Match(3, 3));
    SamplePair();
    SampleCodes();
    FixedOccurs();
    var t := [Match(3, 3)];
    assert t[1..] == [] && Extra(0, 0) == [];
    assert BlockBits(ls, ds, t[1..]) == CodeBits(ls, 256);
  }

  /** Bits come from the low end of a byte. */
  lemma Byte0()
    ensures Extra(0x4b, 8) == [true, true, false, true, false, false, true, false]
  {}

  lemma Byte1()
    ensures Extra(0x4c, 8) == [false, false, true, true, false, false, true, false]
  {}

  lemma Byte2()
    ensures Extra(0x4a, 8) == [false, true, false, true, false, false, true, false]
  {}

  lemma Byte3()
    ensures Extra(0x06, 8) == [false, true, true, false, false, false, false, false]
  {}

  lemma Byte4()
    ensures Extra(0x22, 8) == [false, true, false, false, false, true, false, false]
  {}

  lemma Byte5()
    ensures Extra(0x00, 8) == [false, false, false, false, false, false, false, false]
  {}

  lemma TwoBytes(a: Byte, b: Byte)
    ensures Stream([a, b]) == Extra(a, 8) + Extra(b, 8)
  {
    hide Extra;
    assert [a, b][1..] == [b] && [b][1..] == [];
    assert Stream([b]) == Extra(b, 8) + [];
  }

  lemma SampleBytes()
    ensures [true] + [true, false] + SampleBits() + [false, false] == Stream(SAMPLE_BYTES)
  {
    hide Stream, Extra;
    var s := SAMPLE_BYTES;
    assert s == [0x4b, 0x4c] + ([0x4a, 0x06] + [0x22, 0x00]);
    StreamConcat([0x4b, 0x4c], [0x4a, 0x06] + [0x22, 0x00]);
    StreamConcat([0x4a, 0x06], [0x22, 0x00]);
    TwoBytes(0x4b, 0x4c);
    TwoBytes(0x4a, 0x06);
    TwoBytes(0x22, 0x00);
    Byte0();
    Byte1();
    Byte2();
    Byte3();
    Byte4();
    Byte5();
  }

  /** What the decoder makes of the six bytes. */
  lemma SampleRead()
    ensures ReadBlocks(32768, false, Stream(SAMPLE_BYTES), []) == Done(SAMPLE_DATA, [])
  {
    hide ReadBlocks, Stream, StreamBits, Writable;
    SampleStream();
    SampleCovers();
    var parts := [Fixed(SAMPLE)];
    assert parts[1..] == [];
    assert AllTokens(parts) == SAMPLE + AllTokens(parts[1..]) == SAMPLE;
    assert SAMPLE_DATA[..6] == SAMPLE_DATA;
    StreamReads(parts, 32768, SAMPLE_DATA, [false, false]);
    assert FromByte([false, false]) == [];
  }

  lemma SampleCovers()
    ensures Covers(SAMPLE, 32768, SAMPLE_DATA, 6)
  {
    var d := SAMPLE_DATA;
    assert Covers([], 32768, d, 0);
    CoversLit([], 32768, d, 0);
    CoversLit([Lit(0x61)], 32768, d, 1);
    CoversLit([Lit(0x61), Lit(0x62)], 32768, d, 2);
    assert Repeats(d, 0, 3, 3) by { assert SameByte(d, 0, 3, 0) && SameByte(d, 0, 3, 1) && SameByte(d, 0, 3, 2); }
    CoversMatch([Lit(0x61), Lit(0x62), Lit(0x63)], 32768, d, 3, 0, 3);
    assert SAMPLE == [Lit(0x61), Lit(0x62), Lit(0x63)] + [Match(3, 3)];
  }
}
