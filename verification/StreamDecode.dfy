/** The decompressor on a whole stream, its output taken in pieces of any size: it agrees with the format on
    every input, in both memory modes. */
module StreamDecode {
  import opened Rotations
  import opened Bits
  import opened BitIO
  import opened Bwt
  import opened Rle
  import opened BlockCrc
  import opened BlockFormat
  import opened BlockDecode
  import opened StreamFormat
  import D = DataDecode
  import O = BlockOutput
  import U = Unsort

  /** As AsMagic, for the reader. */
  function InHead(status: Status): Status {
    if status == DataError then MagicError else status
  }

  /** The stream head. */
  method GetHead(r: BitReader) returns (status: Status, size: nat)
    requires r.Valid()
    modifies r
    ensures r.Valid() && Agree(ReadHead(old(r.Rest())), status, size, r.Rest())
  {
    hide ReadField, ReadMagic, BitReader.Rest, BitReader.Valid;
    size := 0;
    ghost var input := r.Rest();
    ghost var magic := Head(0)[..3];
    assert magic == [0x42, 0x5a, 0x68] && magic[0..] == magic;
    status := ExpectByte(r, 0x42, magic, 0, input);
    if status != Fine { status := InHead(status); return; }
    status := ExpectByte(r, 0x5a, magic, 1, input);
    if status != Fine { status := InHead(status); return; }
    status := ExpectByte(r, 0x68, magic, 2, input);
    if status != Fine { status := InHead(status); return; }
    MagicDone(magic, 3, r.Rest());
    var level;
    status, level := GetField(r, 8);
    if status != Fine { return; }
    if level < 0x31 || level > 0x39 { status := MagicError; return; }
    size := level - 0x30;
  }

  /** The trailer, its first byte being at hand. */
  method GetTrailer(r: BitReader, combined: nat, ghost input: bits) returns (status: Status)
    requires r.Valid() && ReadField(8, input) == Parsed(END_MAGIC[0], r.Rest())
    modifies r
    ensures r.Valid() && Agree(ReadTrailer(combined, input), status, [], r.Rest())
  {
    hide ReadField, ReadMagic, BitReader.Rest, BitReader.Valid, END_MAGIC;
    EndBytes();
    MagicStep(END_MAGIC, 0, input);
    status := ExpectByte(r, 0x72, END_MAGIC, 1, input);
    if status != Fine { return; }
    status := ExpectByte(r, 0x45, END_MAGIC, 2, input);
    if status != Fine { return; }
    status := ExpectByte(r, 0x38, END_MAGIC, 3, input);
    if status != Fine { return; }
    status := ExpectByte(r, 0x50, END_MAGIC, 4, input);
    if status != Fine { return; }
    status := ExpectByte(r, 0x90, END_MAGIC, 5, input);
    if status != Fine { return; }
    MagicDone(END_MAGIC, 6, r.Rest());
    var stored;
    status, stored := GetCRC(r);
    if status == Fine && stored != combined { status := DataError; }
  }

  lemma EndBytes()
    ensures |END_MAGIC| == 6 && END_MAGIC[0..] == END_MAGIC && END_MAGIC[0] == 0x17 && END_MAGIC[1] == 0x72
    ensures END_MAGIC[2] == 0x45 && END_MAGIC[3] == 0x38 && END_MAGIC[4] == 0x50 && END_MAGIC[5] == 0x90
  {}

  /** FAST: the words are linked in place. */
  method StartFast(tt: array<nat>, nblock: nat, cftab: array<nat>, blockSize100k: nat, origPtr: nat, ghost col: seq<Byte>) returns (d: O.DState)
    requires tt != cftab && nblock == |col| <= tt.Length && nblock <= 100000 * blockSize100k <= U.MAX_BLOCK && origPtr < nblock
    requires tt[..nblock] == col && U.FirstRows(cftab[..], col)
    modifies tt, cftab
    ensures fresh(d) && d.Valid() && !d.smallDecompress && d.tt == tt && d.nblock == nblock && d.col == col && d.origPtr == origPtr
    ensures d.Pending() == Unrle(Invert(col, origPtr), CharAt(col, origPtr, |col|), 0) && d.calculatedBlockCRC == INITIAL
  {
    U.BuildFast(tt, nblock, cftab, col);
    d := new O.DState.Fast(tt, blockSize100k, nblock, origPtr, col);
  }

  /** SMALL: the column is packed, ranked, and the cycle of the origin reversed. */
  method StartSmall(ll16: array<nat>, ll4: array<nat>, nblock: nat, cftab: array<nat>, blockSize100k: nat, origPtr: nat, ghost col: seq<Byte>) returns (d: O.DState)
    requires ll16 != ll4 && cftab != ll16 && cftab != ll4 && U.Packed(ll16[..], ll4[..])
    requires nblock == |col| <= ll16.Length && nblock <= 100000 * blockSize100k <= U.MAX_BLOCK && origPtr < nblock
    requires ll16[..nblock] == col && U.FirstRows(cftab[..], col)
    modifies ll16, ll4
    ensures fresh(d) && d.Valid() && d.smallDecompress && d.ll16 == ll16 && d.ll4 == ll4 && d.cftab == cftab && d.nblock == nblock && d.col == col && d.origPtr == origPtr
    ensures d.Pending() == Unrle(Invert(col, origPtr), CharAt(col, origPtr, |col|), 0) && d.calculatedBlockCRC == INITIAL
    ensures U.Packed(ll16[..], ll4[..])
  {
    hide U.GetLL, Invert, Unrle, CharAt, U.Trail, U.Packed, U.FirstRows, Rank, CountBelow, U.Links;
    PackedSizes(ll16[..], ll4[..]);
    U.BuildSmall(ll16, ll4, nblock, cftab);
    PackedSizes(ll16[..], ll4[..]);
    RankLinks(ll16[..], ll4[..], col);
    ghost var path := U.ReversePointers(ll16, ll4, col, origPtr);
    assert U.FirstRows(cftab[..], col);
    d := new O.DState.Small(ll16, ll4, cftab, blockSize100k, nblock, origPtr, col, path);
  }

  lemma RankLinks(ll16: seq<nat>, ll4: seq<nat>, col: seq<Byte>)
    requires |col| <= |ll16| <= 2 * |ll4| && forall i :: 0 <= i < |col| ==> U.GetLL(ll16, ll4, i) == Rank(col, i)
    ensures U.Links(ll16, ll4, |col|) == Ranks(col)
  {}

  lemma PackedSizes(ll16: seq<nat>, ll4: seq<nat>)
    requires U.Packed(ll16, ll4)
    ensures |ll16| <= 2 * |ll4|
  {}

  /** A block put out in pieces, each as large as the caller's buffer of the moment. */
  method OutputBlock(d: O.DState) returns (ok: bool, out: seq<Byte>)
    requires d.Valid() && d.origPtr < |d.col|
    modifies d
    ensures ok == old(d.Pending()).sound && out == old(d.Pending()).bytes
    ensures d.calculatedBlockCRC == UpdateAll(old(d.calculatedBlockCRC), out)
  {
    hide O.DState.Valid, O.DState.Pending, Prepend, UpdateAll;
    PendingFacts(d);
    ghost var total := d.Pending();
    out := [];
    Nothing(total, d.calculatedBlockCRC);
    while true
      invariant d.Valid() && d.nblockUsed >= 1 && total == Prepend(out, d.Pending())
      invariant d.calculatedBlockCRC == UpdateAll(old(d.calculatedBlockCRC), out)
      decreases |d.Pending().bytes|
    {
      ghost var before := d.Pending();
      var room: nat :| room > 0;
      var piece, corrupt;
      if d.smallDecompress {
        piece, corrupt := d.UnrleToOutputSmall(room);
      } else {
        piece, corrupt := d.UnrleToOutputFast(room);
      }
      PieceFacts(total, out, before, d.Pending(), piece, room, corrupt);
      UpdateConcat(old(d.calculatedBlockCRC), out, piece);
      out := out + piece;
      if corrupt { return false, out; }
      DoneFacts(d);
      if d.nblockUsed == d.nblock + 1 && d.stateOutLen == 0 { break; }
    }
    Nothing(total, 0);
    AllPut(total, out, d.Pending());
    ok := true;
  }

  lemma PendingFacts(d: O.DState)
    requires d.Valid()
    ensures d.nblockUsed >= 1
  {}

  lemma Nothing(e: Expansion, crc: nat)
    ensures e == Prepend([], e) && UpdateAll(crc, []) == crc
  {
    assert [] + e.bytes == e.bytes;
  }

  lemma AllPut(total: Expansion, out: seq<Byte>, after: Expansion)
    requires total == Prepend(out, after) && after == Expansion([], true)
    ensures total == Expansion(out, true)
  {
    assert out + [] == out;
  }

  lemma PieceFacts(total: Expansion, out: seq<Byte>, before: Expansion, after: Expansion, piece: seq<Byte>, room: nat, corrupt: bool)
    requires total == Prepend(out, before) && room > 0 && O.Moves(before, after, piece, room, corrupt)
    ensures !corrupt ==> total == Prepend(out + piece, after) && (|after.bytes| < |before.bytes| || after == Expansion([], true))
    ensures corrupt ==> total == Expansion(out + piece, false)
  {
    if !corrupt { assert out + (piece + after.bytes) == (out + piece) + after.bytes; }
  }

  /** Nothing is pending exactly when the counters say so. */
  lemma DoneFacts(d: O.DState)
    requires d.Valid() && d.origPtr < |d.col|
    ensures d.nblockUsed >= 1 && (d.Pending() == Expansion([], true) <==> d.nblockUsed == d.nblock + 1 && d.stateOutLen == 0)
  {
    hide Invert, CharAt, Walk;
    O.PrependCopies(d.stateOutCh, d.Ahead(d.nblockUsed));
    assert |Invert(d.col, d.origPtr)| == d.nblock;
  }

  /** The whole stream. What is put out is that of the blocks up to the first that is not sound. */
  method Decompress(r: BitReader, small: bool) returns (status: Status, out: seq<Byte>)
    requires r.Valid()
    modifies r
    ensures r.Valid() && Agree(ReadStream(old(r.Rest())), status, out, r.Rest())
    ensures out == StreamOutput(old(r.Rest()))
  {
    hide BitReader.Rest, BitReader.Valid, ReadHead, ReadBlocks, Output, Shown, Reports, AfterBlock, AfterReceived, ReadBlock, ReadField, ReadTrailer, Accepted;
    out := [];
    ghost var input := r.Rest();
    var size;
    status, size := GetHead(r);
    if status != Fine { return; }
    var combined := 0;
    LeadNothing(ReadBlocks(size, combined, r.Rest()));
    assert [] + Output(size, r.Rest()) == Output(size, r.Rest());
    while true
      invariant r.Valid() && ReadStream(input) == Lead(out, ReadBlocks(size, combined, r.Rest()))
      invariant StreamOutput(input) == out + Output(size, r.Rest())
      decreases |r.Rest()|
    {
      ghost var at := r.Rest();
      var uc;
      status, uc := GetField(r, 8);
      NextUnit(size, combined, at);
      NextOutput(size, at);
      LeadEnd(out);
      if status != Fine { return; }
      if uc == 0x17 {
        status := GetTrailer(r, combined, at);
        return;
      }
      var crc, piece;
      status, crc, piece := GetAndExpand(r, uc, size, small, at);
      Reported(size, combined, out, ReadBlock(size, at), status, crc, piece, r.Rest());
      out := out + piece;
      if status != Fine { return; }
      combined := Combine(combined, crc);
    }
  }

  /** Output from a received block on. */
  function AfterReceived(size: nat, p: Parsed<Received>): seq<Byte> {
    if !p.Parsed? then [] else Shown(p.value) + if Accepted(p.value) then Output(size, p.rest) else []
  }

  lemma NextOutput(size: nat, at: bits)
    ensures Output(size, at) ==
      if !ReadField(8, at).Parsed? || ReadField(8, at).value == 0x17 then [] else AfterReceived(size, ReadBlock(size, at))
  {
    hide ReadField, ReadBlock, Accepted, Shown;
  }

  /** A block joins the output; an error ends it. */
  lemma Reported(size: nat, combined: nat, out: seq<Byte>, p: Parsed<Received>, status: Status, crc: nat, piece: seq<Byte>, rest: bits)
    requires Reports(p, status, crc, piece, rest)
    ensures status == Fine ==> Lead(out, AfterBlock(size, combined, p)) == Lead(out + piece, ReadBlocks(size, Combine(combined, crc), rest))
    ensures out + AfterReceived(size, p) == out + piece + if status == Fine then Output(size, rest) else []
    ensures status != Fine ==> Stopped(Lead(out, AfterBlock(size, combined, p)), status)
  {
    hide Expand, BlockSum, Output, ReadBlocks, Combine;
    var more := if status == Fine then Output(size, rest) else [];
    assert AfterReceived(size, p) == piece + more;
    assert out + (piece + more) == out + piece + more;
    if status == Fine { LeadTwice(out, piece, ReadBlocks(size, Combine(combined, crc), rest)); }
  }

  lemma LeadEnd(out: seq<Byte>)
    ensures out + [] == out
  {}

  /** What follows a received block. */
  function AfterBlock(size: nat, combined: nat, p: Parsed<Received>): Parsed<seq<Byte>> {
    var (got, rest) :- p;
    if !Accepted(got) then Malformed
    else Lead(Expand(got).bytes, ReadBlocks(size, Combine(combined, got.header.crc), rest))
  }

  lemma NextUnit(size: nat, combined: nat, at: bits)
    ensures ReadField(8, at).Parsed? || (ReadField(8, at).Short? && ReadBlocks(size, combined, at) == Short)
    ensures ReadField(8, at).Parsed? ==>
      ReadBlocks(size, combined, at) ==
      if ReadField(8, at).value == 0x17 then ReadTrailer(combined, at) else AfterBlock(size, combined, ReadBlock(size, at))
  {
    hide ReadTrailer, ReadBlock, Accepted, Expand, Combine;
  }

  /** What a block step must report. */
  ghost predicate Reports(p: Parsed<Received>, status: Status, crc: nat, out: seq<Byte>, rest: bits) {
    out == (if p.Parsed? then Shown(p.value) else []) &&
    match p
    case Malformed => status == DataError
    case BadMagic => status == MagicError
    case Short => status == NeedInput
    case Overrun => status == OutOfRange
    case Parsed(got, after) =>
      if Accepted(got) then status == Fine && crc == got.header.crc && rest == after
      else status == DataError
  }

  /** Put the block out and check it against its stored checksum. */
  method ExpandBlock(d: O.DState, h: Header, ghost col: seq<Byte>) returns (status: Status, out: seq<Byte>)
    requires d.Valid() && d.col == col && d.origPtr == h.origPtr < |col| && h.randomised == 0
    requires d.Pending() == Unrle(Invert(col, h.origPtr), CharAt(col, h.origPtr, |col|), 0) && d.calculatedBlockCRC == INITIAL
    modifies d
    ensures status == (if Accepted(Received(h, col)) then Fine else DataError) && out == Shown(Received(h, col))
  {
    hide O.DState.Valid, O.DState.Pending, Invert, CharAt, Unrle, UpdateAll;
    var ok;
    ok, out := OutputBlock(d);
    status := if !ok || Finalise(d.calculatedBlockCRC) != h.crc then DataError else Fine;
  }

  lemma NotAccepted(got: Received)
    requires got.header.randomised != 0
    ensures !Accepted(got) && Shown(got) == []
  {}

  /** One block by linked words: received, put out, and checked against its stored checksum. */
  method GetFast(r: BitReader, uc: nat, size: nat, ghost input: bits) returns (status: Status, crc: nat, out: seq<Byte>)
    requires r.Valid() && ReadField(8, input) == Parsed(uc, r.Rest()) && 1 <= size <= 9
    modifies r
    ensures r.Valid() && Reports(ReadBlock(size, input), status, crc, out, r.Rest())
  {
    hide BitReader.Rest, BitReader.Valid, ReadBlock, O.DState.Valid, O.DState.Pending, Invert, CharAt, Unrle, U.FirstRows, UpdateAll, Accepted, Shown;
    out, crc := [], 0;
    var h: Header, nblock, cftab;
    ghost var col;
    var tt := new nat[100000 * size];
    status, h, nblock, cftab, col := D.GetBlock(r, uc, size, tt, input);
    if status != Fine { return; }
    if h.randomised != 0 { NotAccepted(Received(h, col)); status := DataError; return; }
    var d := StartFast(tt, nblock, cftab, size, h.origPtr, col);
    crc := h.crc;
    status, out := ExpandBlock(d, h, col);
  }

  /** The same by packed links. */
  method GetSmall(r: BitReader, uc: nat, size: nat, ghost input: bits) returns (status: Status, crc: nat, out: seq<Byte>)
    requires r.Valid() && ReadField(8, input) == Parsed(uc, r.Rest()) && 1 <= size <= 9
    modifies r
    ensures r.Valid() && Reports(ReadBlock(size, input), status, crc, out, r.Rest())
  {
    hide BitReader.Rest, BitReader.Valid, ReadBlock, O.DState.Valid, O.DState.Pending, Invert, CharAt, Unrle, U.FirstRows, UpdateAll, Accepted, Shown;
    out, crc := [], 0;
    var h: Header, nblock, cftab;
    ghost var col;
    var ll16, ll4 := new nat[100000 * size](_ => 0), new nat[50000 * size](_ => 0);
    status, h, nblock, cftab, col := D.GetBlock(r, uc, size, ll16, input);
    if status != Fine { return; }
    if h.randomised != 0 { NotAccepted(Received(h, col)); status := DataError; return; }
    var d := StartSmall(ll16, ll4, nblock, cftab, size, h.origPtr, col);
    crc := h.crc;
    status, out := ExpandBlock(d, h, col);
  }

  method GetAndExpand(r: BitReader, uc: nat, size: nat, small: bool, ghost input: bits) returns (status: Status, crc: nat, out: seq<Byte>)
    requires r.Valid() && ReadField(8, input) == Parsed(uc, r.Rest()) && 1 <= size <= 9
    modifies r
    ensures r.Valid() && Reports(ReadBlock(size, input), status, crc, out, r.Rest())
  {
    if small {
      status, crc, out := GetSmall(r, uc, size, input);
    } else {
      status, crc, out := GetFast(r, uc, size, input);
    }
  }
}
