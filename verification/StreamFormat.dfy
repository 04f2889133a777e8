/** A whole compressed stream: header, blocks with their checksums, trailer with the combined checksum. */
module StreamFormat {
  import opened Rotations
  import opened Words
  import opened Bits
  import opened Bwt
  import opened Rle
  import opened BlockCrc
  import opened BlockFormat

  function Head(size100k: nat): seq<nat> {
    [0x42, 0x5a, 0x68, 0x30 + size100k]
  }

  const END_MAGIC: seq<nat> := [0x17, 0x72, 0x45, 0x38, 0x50, 0x90]

  function HeadBits(size100k: nat): bits {
    MagicBits(Head(size100k))
  }

  function TrailerBits(combined: nat): bits {
    MagicBits(END_MAGIC) + BitsOf(combined, 32)
  }

  function ReadTrailer(combined: nat, input: bits): Parsed<seq<Byte>> {
    var (_, r1) :- ReadMagic(END_MAGIC, input);
    var (stored, r2) :- ReadField(32, r1);
    if stored != combined then Malformed else Parsed([], r2)
  }

  /** The bytes a received block stands for. */
  function Expand(got: Received): Expansion
    requires got.header.origPtr < |got.col|
  {
    Unrle(Invert(got.col, got.header.origPtr), CharAt(got.col, got.header.origPtr, |got.col|), 0)
  }

  function Lead(a: seq<Byte>, p: Parsed<seq<Byte>>): Parsed<seq<Byte>> {
    if p.Parsed? then Parsed(a + p.value, p.rest) else p
  }

  /** A block that passes its checks. */
  predicate Accepted(got: Received) {
    got.header.origPtr < |got.col| && got.header.randomised == 0 && Expand(got).sound &&
    BlockSum(Expand(got).bytes) == got.header.crc
  }

  /** Blocks up to the trailer, checksums compared on the way. */
  function ReadBlocks(size100k: nat, combined: nat, input: bits): Parsed<seq<Byte>>
    decreases |input|
  {
    var (uc, _) :- ReadField(8, input);
    if uc == END_MAGIC[0] then ReadTrailer(combined, input)
    else
      var (got, rest) :- ReadBlock(size100k, input);
      if !Accepted(got) then Malformed
      else Lead(Expand(got).bytes, ReadBlocks(size100k, Combine(combined, got.header.crc), rest))
  }

  /** A wrong byte in the head has an error of its own. */
  function AsMagic<T>(p: Parsed<T>): Parsed<T> {
    if p.Malformed? then BadMagic else p
  }

  /** The stream head; it tells the block size. */
  function ReadHead(input: bits): (r: Parsed<nat>)
    ensures r.Parsed? ==> 1 <= r.value <= 9
  {
    var (_, r1) :- AsMagic(ReadMagic(Head(0)[..3], input));
    var (level, r2) :- ReadField(8, r1);
    if level < 0x31 || level > 0x39 then BadMagic else Parsed(level - 0x30, r2)
  }

  /** The decoder on a whole input: the block size is taken from the header. */
  function ReadStream(input: bits): Parsed<seq<Byte>> {
    var (size100k, rest) :- ReadHead(input);
    ReadBlocks(size100k, 0, rest)
  }

  // ----- what is put out -----

  /** What a received block puts out, whether or not its checks fail at the end. */
  function Shown(got: Received): seq<Byte> {
    if got.header.origPtr < |got.col| && got.header.randomised == 0 then Expand(got).bytes else []
  }

  /** The output of all blocks up to the first that is not sound. */
  function Output(size100k: nat, input: bits): seq<Byte>
    decreases |input|
  {
    var uc := ReadField(8, input);
    if !uc.Parsed? || uc.value == END_MAGIC[0] then []
    else
      var b := ReadBlock(size100k, input);
      if !b.Parsed? then []
      else Shown(b.value) + if Accepted(b.value) then Output(size100k, b.rest) else []
  }

  /** The output of a stream, sound or not. */
  function StreamOutput(input: bits): seq<Byte> {
    var head := ReadHead(input);
    if head.Parsed? then Output(head.value, head.rest) else []
  }

  /** Of a sound stream it is all that the stream holds. */
  lemma {:induction false} OutputAll(size100k: nat, combined: nat, input: bits)
    requires ReadBlocks(size100k, combined, input).Parsed?
    ensures Output(size100k, input) == ReadBlocks(size100k, combined, input).value
    decreases |input|
  {
    hide ReadField, ReadBlock, ReadTrailer, Expand, Combine;
    TrailerEmpty(combined, input);
    if ReadField(8, input).value != END_MAGIC[0] {
      var b := ReadBlock(size100k, input);
      OutputAll(size100k, Combine(combined, b.value.header.crc), b.rest);
    }
  }

  lemma TrailerEmpty(combined: nat, input: bits)
    ensures ReadTrailer(combined, input).Parsed? ==> ReadTrailer(combined, input).value == []
  {
    hide ReadMagic, ReadField;
  }

  // ----- round trip -----

  lemma {:induction false} MagicConcat(a: seq<nat>, b: seq<nat>)
    ensures MagicBits(a + b) == MagicBits(a) + MagicBits(b)
  {
    hide BitsOf;
    if a == [] {
      assert a + b == b;
    } else {
      MagicConcat(a[1..], b);
      assert (a + b)[1..] == a[1..] + b;
    }
  }

  lemma StreamHead(size100k: nat, rest: bits)
    requires 1 <= size100k <= 9
    ensures ReadStream(HeadBits(size100k) + rest) == ReadBlocks(size100k, 0, rest)
  {
    hide BitsOf, ReadField, ReadMagic, MagicBits, ReadBlocks;
    var level: nat := 0x30 + size100k;
    var three := Head(0)[..3];
    assert three == [0x42, 0x5a, 0x68];
    assert Head(size100k) == three + [level];
    MagicConcat(three, [level]);
    OneMagic(level);
    var t1 := BitsOf(level, 8) + rest;
    assert HeadBits(size100k) + rest == MagicBits(three) + t1;
    MagicRoundTrip(three, t1);
    Pow2Byte();
    FieldRoundTrip(level, 8, rest);
  }

  lemma OneMagic(c: nat)
    ensures MagicBits([c]) == BitsOf(c, 8)
  {
    assert [c][1..] == [];
    assert BitsOf(c, 8) + [] == BitsOf(c, 8);
  }

  /** Accepted magic bytes start with the first of them. */
  lemma MagicFirst(magic: seq<nat>, input: bits)
    requires magic != [] && ReadMagic(magic, input).Parsed?
    ensures ReadField(8, input).Parsed? && ReadField(8, input).value == magic[0]
  {}

  lemma StreamTrailer(size100k: nat, combined: nat, rest: bits)
    requires combined < Pow2(32)
    ensures ReadBlocks(size100k, combined, TrailerBits(combined) + rest) == Parsed([], rest)
  {
    hide BitsOf, ReadField, ReadMagic, MagicBits, Pow2, ReadBlock;
    var t1 := BitsOf(combined, 32) + rest;
    assert TrailerBits(combined) + rest == MagicBits(END_MAGIC) + t1;
    MagicRoundTrip(END_MAGIC, t1);
    MagicFirst(END_MAGIC, MagicBits(END_MAGIC) + t1);
    FieldRoundTrip(combined, 32, rest);
  }

  lemma BlockFirst(size100k: nat, input: bits)
    requires ReadBlock(size100k, input).Parsed?
    ensures ReadField(8, input).Parsed? && ReadField(8, input).value == MAGIC[0]
  {
    hide ReadMap, ReadCoded, ReadField, ReadMagic;
    HeaderFirst(size100k, input);
  }

  lemma HeaderFirst(size100k: nat, input: bits)
    requires ReadHeader(size100k, input).Parsed?
    ensures ReadField(8, input).Parsed? && ReadField(8, input).value == MAGIC[0]
  {
    hide ReadField, ReadMagic;
    MagicFirst(MAGIC, input);
  }

  /** These bits decode to these bytes and leave this checksum, whatever follows. */
  ghost predicate Decodes(size100k: nat, body: bits, bytes: seq<Byte>, combined: nat) {
    combined < Pow2(32) &&
    forall tail :: ReadBlocks(size100k, 0, body + tail) == Lead(bytes, ReadBlocks(size100k, combined, tail))
  }

  lemma DecodesNothing(size100k: nat)
    ensures Decodes(size100k, [], [], 0)
  {
    hide ReadBlocks;
    forall tail ensures ReadBlocks(size100k, 0, [] + tail) == Lead([], ReadBlocks(size100k, 0, tail)) {
      assert [] + tail == tail;
      LeadNothing(ReadBlocks(size100k, 0, tail));
    }
  }

  lemma LeadNothing(p: Parsed<seq<Byte>>)
    ensures Lead([], p) == p
  {
    if p.Parsed? { assert [] + p.value == p.value; }
  }

  lemma LeadTwice(a: seq<Byte>, b: seq<Byte>, p: Parsed<seq<Byte>>)
    ensures Lead(a, Lead(b, p)) == Lead(a + b, p)
  {
    if p.Parsed? { assert a + (b + p.value) == (a + b) + p.value; }
  }

  /** A block written for runs of the input expands to that input. */
  lemma BlockExpands(got: Received, pairs: seq<Pair>)
    requires Chained(pairs) && got.header.randomised == 0 && got.header.crc == BlockSum(Flat(pairs))
    requires got.header.origPtr < |got.col| && Invert(got.col, got.header.origPtr) == Encode(pairs)
    ensures Accepted(got) && Expand(got).bytes == Flat(pairs)
  {
    hide BlockSum, Invert, CharAt, Unrle, Chained, Encode, Flat;
    var s := Invert(got.col, got.header.origPtr);
    assert s[0..] == s;
    RleRoundTrip(s, CharAt(got.col, got.header.origPtr, |got.col|), 0, pairs);
  }

  lemma DecodesBlock(size100k: nat, body: bits, bytes: seq<Byte>, combined: nat, new': bits, got: Received, pairs: seq<Pair>)
    requires Decodes(size100k, body, bytes, combined)
    requires forall rest :: ReadBlock(size100k, new' + rest) == Parsed(got, rest)
    requires Chained(pairs) && got.header.randomised == 0 && got.header.crc == BlockSum(Flat(pairs))
    requires got.header.origPtr < |got.col| && Invert(got.col, got.header.origPtr) == Encode(pairs)
    ensures Decodes(size100k, body + new', bytes + Flat(pairs), Combine(combined, BlockSum(Flat(pairs))))
  {
    hide ReadBlock, BlockSum, Invert, CharAt, Unrle, Chained, Encode, Flat, Combine, Expand, Accepted, ReadField;
    BlockExpands(got, pairs);
    var next := Combine(combined, got.header.crc);
    BlockSumBound(Flat(pairs));
    CombineBound(combined, got.header.crc);
    forall tail ensures ReadBlocks(size100k, 0, body + new' + tail) == Lead(bytes + Flat(pairs), ReadBlocks(size100k, next, tail)) {
      assert body + new' + tail == body + (new' + tail);
      BlockFirst(size100k, new' + tail);
      LeadTwice(bytes, Flat(pairs), ReadBlocks(size100k, next, tail));
    }
  }

  /** Decompressing what was written gives the input back and stops after the trailer. */
  lemma StreamRoundTrip(size100k: nat, body: bits, bytes: seq<Byte>, combined: nat, rest: bits)
    requires 1 <= size100k <= 9 && Decodes(size100k, body, bytes, combined)
    ensures ReadStream(HeadBits(size100k) + body + TrailerBits(combined) + rest) == Parsed(bytes, rest)
  {
    hide HeadBits, TrailerBits, ReadStream, ReadBlocks;
    var tail := TrailerBits(combined) + rest;
    assert HeadBits(size100k) + body + TrailerBits(combined) + rest == HeadBits(size100k) + (body + tail);
    StreamHead(size100k, body + tail);
    StreamTrailer(size100k, combined, rest);
    assert bytes + [] == bytes;
  }

  // ----- checksums that do not match -----

  /** A block whose stored checksum is not that of its bytes is refused, whatever precedes and follows it. */
  lemma WrongBlockSum(size100k: nat, body: bits, bytes: seq<Byte>, combined: nat, new': bits, got: Received, pairs: seq<Pair>, tail: bits)
    requires 1 <= size100k <= 9 && Decodes(size100k, body, bytes, combined)
    requires forall rest :: ReadBlock(size100k, new' + rest) == Parsed(got, rest)
    requires Chained(pairs) && got.header.crc != BlockSum(Flat(pairs))
    requires got.header.origPtr < |got.col| && Invert(got.col, got.header.origPtr) == Encode(pairs)
    ensures ReadStream(HeadBits(size100k) + body + new' + tail) == Malformed
  {
    hide HeadBits, ReadHead, ReadBlock, BlockSum, Invert, CharAt, Unrle, Chained, Encode, Flat, ReadField;
    assert HeadBits(size100k) + body + new' + tail == HeadBits(size100k) + (body + (new' + tail));
    StreamHead(size100k, body + (new' + tail));
    var s := Invert(got.col, got.header.origPtr);
    assert s[0..] == s;
    RleRoundTrip(s, CharAt(got.col, got.header.origPtr, |got.col|), 0, pairs);
    BlockFirst(size100k, new' + tail);
  }

  /** So is a stream whose trailer does not carry the combination of the checksums of its blocks. */
  lemma WrongTotal(size100k: nat, body: bits, bytes: seq<Byte>, combined: nat, stored: nat, tail: bits)
    requires 1 <= size100k <= 9 && Decodes(size100k, body, bytes, combined) && stored != combined && stored < Pow2(32)
    ensures ReadStream(HeadBits(size100k) + body + TrailerBits(stored) + tail) == Malformed
  {
    hide HeadBits, TrailerBits, ReadHead, ReadBlocks;
    var later := TrailerBits(stored) + tail;
    assert HeadBits(size100k) + body + TrailerBits(stored) + tail == HeadBits(size100k) + (body + later);
    StreamHead(size100k, body + later);
    TrailerWrong(size100k, combined, stored, tail);
  }

  lemma TrailerWrong(size100k: nat, combined: nat, stored: nat, rest: bits)
    requires stored < Pow2(32) && stored != combined
    ensures ReadBlocks(size100k, combined, TrailerBits(stored) + rest) == Malformed
  {
    hide BitsOf, ReadField, ReadMagic, MagicBits, Pow2, ReadBlock;
    var t1 := BitsOf(stored, 32) + rest;
    assert TrailerBits(stored) + rest == MagicBits(END_MAGIC) + t1;
    MagicRoundTrip(END_MAGIC, t1);
    MagicFirst(END_MAGIC, MagicBits(END_MAGIC) + t1);
    FieldRoundTrip(stored, 32, rest);
  }

  /** A stream of one block carries the checksum of the block once more at its end. */
  lemma OneBlockTotal(s: seq<Byte>)
    ensures Combine(0, BlockSum(s)) == BlockSum(s)
  {
    hide BlockSum;
    assert LowBits(Shl(0, 1), 32) == 0 by { ShlZero(0, 1); NoLowBits(32); }
    assert Shr(0, 31) == 0 by { NothingShifted(31); }
    XorZero(BlockSum(s));
  }

  lemma {:induction false} NoLowBits(k: nat)
    ensures LowBits(0, k) == 0
  {
    if k > 0 { NoLowBits(k - 1); }
  }

  lemma {:induction false} NothingShifted(k: nat)
    ensures Shr(0, k) == 0
  {
    if k > 0 { NothingShifted(k - 1); }
  }

  // ----- the two magic numbers -----

  /** The decimal digits written in the halves of the bytes. */
  function Decimal(magic: seq<nat>): nat {
    if magic == [] then 0 else 100 * Decimal(magic[..|magic| - 1]) + Pair(magic[|magic| - 1])
  }

  function Pair(b: nat): nat { 10 * (b / 16) + b % 16 }

  /** Twelve digits of pi start a block; the twelve of its square root end the stream. */
  lemma Magics()
    ensures Decimal(MAGIC) == 314159265359 && |MAGIC| == |END_MAGIC| == 6
    ensures var r := Decimal(END_MAGIC); r * r <= 314159265359 * 100000000000 < (r + 1) * (r + 1)
  {
    hide Decimal;
    DecimalSix(0x31, 0x41, 0x59, 0x26, 0x53, 0x59);
    DecimalSix(0x17, 0x72, 0x45, 0x38, 0x50, 0x90);
  }

  lemma DecimalSix(a: nat, b: nat, c: nat, d: nat, e: nat, f: nat)
    ensures Decimal([a, b, c, d, e, f]) ==
            10000000000 * Pair(a) + 100000000 * Pair(b) + 1000000 * Pair(c) + 10000 * Pair(d) + 100 * Pair(e) + Pair(f)
  {
    hide Pair;
    var m := [a, b, c, d, e, f];
    assert m[..5] == [a, b, c, d, e] && m[..5][..4] == [a, b, c, d] && m[..5][..4][..3] == [a, b, c];
    assert m[..5][..4][..3][..2] == [a, b] && m[..5][..4][..3][..2][..1] == [a] && [a][..0] == [];
    assert Decimal([a]) == Pair(a);
    assert Decimal([a, b]) == 100 * Decimal([a]) + Pair(b);
    assert Decimal([a, b, c]) == 100 * Decimal([a, b]) + Pair(c);
    assert Decimal([a, b, c, d]) == 100 * Decimal([a, b, c]) + Pair(d);
    assert Decimal([a, b, c, d, e]) == 100 * Decimal([a, b, c, d]) + Pair(e);
  }

  lemma {:induction false} ZeroBits(n: nat, k: nat)
    ensures BitsOf(0, n + k) == BitsOf(0, n) + BitsOf(0, k)
  {
    if k > 0 { ZeroBits(n, k - 1); }
  }

  lemma ZeroBytes()
    ensures MagicBits([0, 0, 0, 0]) == BitsOf(0, 32)
  {
    hide BitsOf;
    ZeroBits(8, 8);
    ZeroBits(16, 8);
    ZeroBits(24, 8);
    var z := [0, 0, 0, 0];
    assert z[1..] == [0, 0, 0] && z[1..][1..] == [0, 0] && z[1..][1..][1..] == [0];
    assert MagicBits([0]) == BitsOf(0, 8) + MagicBits([]);
    assert MagicBits([0, 0]) == BitsOf(0, 8) + BitsOf(0, 8);
    assert MagicBits([0, 0, 0]) == BitsOf(0, 8) + BitsOf(0, 8) + BitsOf(0, 8);
  }

  /** The smallest file. */
  lemma EmptyFile()
    ensures ReadStream(MagicBits([0x42, 0x5a, 0x68, 0x39, 0x17, 0x72, 0x45, 0x38, 0x50, 0x90, 0, 0, 0, 0])) == Parsed([], [])
  {
    hide ReadStream, MagicBits, BitsOf;
    var m, t := Head(9), END_MAGIC + [0, 0, 0, 0];
    MagicConcat(m, t);
    MagicConcat(END_MAGIC, [0, 0, 0, 0]);
    ZeroBytes();
    DecodesNothing(9);
    StreamRoundTrip(9, [], [], 0, []);
    assert HeadBits(9) + [] + TrailerBits(0) + [] == MagicBits(m) + MagicBits(t);
    assert m + t == [0x42, 0x5a, 0x68, 0x39, 0x17, 0x72, 0x45, 0x38, 0x50, 0x90, 0, 0, 0, 0];
  }
}
