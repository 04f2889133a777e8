/** The compressor's state between calls: input is taken in pieces of any size, run-length coded into a block,
    and compressed blocks are handed out in pieces of any size. */
module StreamEncode {
  import opened Rotations
  import opened Words
  import opened Bits
  import opened BitIO
  import opened ByteArea
  import opened Bwt
  import opened Rle
  import opened BlockCrc
  import opened BlockFormat
  import opened StreamFormat
  import E = BlockEncode
  import R = BlockRoom
  import M = MtfEncode

  datatype Mode = Idle | Running | Flushing | Finishing
  datatype Phase = Output | Input
  datatype Action = Run | Flush | Finish
  datatype Result = RunOk | FlushOk | FinishOk | StreamEnd | SequenceError | ParamError

  /** No run is pending. */
  const NONE: nat := 256
  const OVERSHOOT: nat := 34

  // ----- the block being filled -----

  /** Nothing is marked but bytes of the block. */
  ghost predicate OnlyMarked(block: seq<Byte>, inUse: seq<bool>) {
    |inUse| == 256 && forall c :: 0 <= c < 256 && inUse[c] ==> c in block
  }

  /** A block holds exactly these runs; its bytes, and no others, are marked and its checksum is theirs. */
  ghost predicate Holds(block: seq<Byte>, pairs: seq<Pair>, inUse: seq<bool>, crc: nat) {
    Chained(pairs) && block == Encode(pairs) && M.AllMarked(block, inUse) && OnlyMarked(block, inUse) && crc == UpdateAll(INITIAL, Flat(pairs))
  }

  /** The pending run is none, or cannot merge with the last run of the block. */
  ghost predicate Pends(pairs: seq<Pair>, ch: nat, len: nat) {
    if ch == NONE then len == 0
    else ch < 256 && 1 <= len <= 255 && (pairs != [] ==> Follows(pairs[|pairs| - 1], Pair(ch, len)))
  }

  ghost function PendingBytes(ch: nat, len: nat): seq<Byte>
    requires ch < 256 || len == 0
  {
    if len == 0 then [] else Copies(ch, len)
  }

  lemma HoldsNothing(inUse: seq<bool>)
    requires |inUse| == 256 && forall c :: 0 <= c < 256 ==> !inUse[c]
    ensures Holds([], [], inUse, INITIAL)
  {}

  lemma ChainedOne(pairs: seq<Pair>, p: Pair)
    requires Chained(pairs) && Legal(p) && (pairs != [] ==> Follows(pairs[|pairs| - 1], p))
    ensures Chained(pairs + [p])
  {
    var q := pairs + [p];
    forall k | 1 <= k < |q| ensures Adjacent(q, k) {
      if k < |pairs| { assert Adjacent(pairs, k); }
    }
  }

  /** A pending run joins the block. */
  lemma HoldsPair(block: seq<Byte>, pairs: seq<Pair>, inUse: seq<bool>, crc: nat, p: Pair, inUse': seq<bool>)
    requires Holds(block, pairs, inUse, crc) && Legal(p) && (pairs != [] ==> Follows(pairs[|pairs| - 1], p))
    requires |inUse| == |inUse'| == 256
    requires forall c :: 0 <= c < 256 ==> inUse'[c] == (inUse[c] || c == p.ch || (p.len >= 4 && c == p.len - 4))
    ensures Holds(block + Stored(p), pairs + [p], inUse', UpdateAll(crc, Copies(p.ch, p.len)))
    ensures Flat(pairs + [p]) == Flat(pairs) + Copies(p.ch, p.len)
  {
    hide Update, Encode, Flat, Chained;
    ChainedFacts(pairs);
    EncodeOne(pairs, p);
    ChainedOne(pairs, p);
    UpdateConcat(INITIAL, Flat(pairs), Copies(p.ch, p.len));
    assert Stored(p)[0] == p.ch && (p.len >= 4 ==> Stored(p)[|Stored(p)| - 1] == p.len - 4);
  }

  lemma ChainedFacts(pairs: seq<Pair>)
    requires Chained(pairs)
    ensures AllLegal(pairs)
  {}

  // ----- the bits produced -----

  /** What has been written: nothing, or the header and the finished blocks, and at the end the trailer. */
  ghost predicate Sent(total: bits, size100k: nat, started: bool, body: bits, ended: bool, combined: nat) {
    if !started then total == [] && body == [] && !ended
    else if !ended then total == HeadBits(size100k) + body
    else exists pad: nat :: pad < 8 && total == HeadBits(size100k) + body + TrailerBits(combined) + Clear(pad)
  }

  /** Decompressing the output gives the input, and what is left over is padding of less than a byte. */
  ghost predicate Restores(output: bits, input: seq<Byte>) {
    exists pad: nat :: pad < 8 && ReadStream(output) == Parsed(input, Clear(pad))
  }

  /** Whether a call can move a byte, bytes being ready or not: out, or in, or, to finish the stream, out after what is at
      hand is compressed. */
  predicate CanMove(finishing: bool, ready: bool, input: seq<Byte>, room: nat) {
    if ready then room > 0 else input != [] || (finishing && room > 0)
  }

  /** The answer to a call: `expected` is the input an earlier flush or finish still owes, `ready` and `left` say whether
      finished bytes wait before and after. */
  function Answer(action: Action, mode: Mode, input: seq<Byte>, room: nat, expected: nat, ready: bool, left: bool): Result {
    if mode == Idle then SequenceError
    else if mode == Running && action == Run then if CanMove(false, ready, input, room) then RunOk else ParamError
    else if mode == Flushing && (action != Flush || expected != |input|) then SequenceError
    else if mode == Finishing && (action != Finish || expected != |input|) then SequenceError
    else if action == Flush then if left then FlushOk else RunOk
    else if !CanMove(true, ready, input, room) then SequenceError
    else if left then FinishOk else StreamEnd
  }

  datatype Left = Left(input: nat, run: nat, trailer: nat, bytes: int)

  predicate LessInput(a: Left, b: Left) {
    a.input < b.input || (a.input == b.input && (a.run < b.run || (a.run == b.run && a.trailer < b.trailer)))
  }

  predicate SameInput(a: Left, b: Left) {
    a.input == b.input && a.run == b.run && a.trailer == b.trailer
  }

  /** Nearer to the end of the stream. */
  predicate Less(a: Left, b: Left) {
    LessInput(a, b) || (SameInput(a, b) && a.bytes < b.bytes)
  }

  class EState {
    const size100k: nat
    const nblockMAX: nat
    const workFactor: int
    const area: array<nat>
    const inUse: array<bool>
    const ftab: array<nat>
    const w: BitWriter
    var mode: Mode
    var phase: Phase
    var availInExpect: nat
    var stateInCh: nat
    var stateInLen: nat
    var nblock: nat
    var stateOutPos: nat
    var blockNo: nat
    var blockCRC: nat
    var combinedCRC: nat
    var nextIn: seq<Byte>
    var availOut: nat
    var nextOut: seq<Byte>
    ghost var consumed: seq<Byte>
    ghost var pairs: seq<Pair>
    ghost var packed: seq<Byte>
    ghost var earlier: seq<Byte>
    ghost var body: bits
    ghost var begun: bool
    ghost var ended: bool

    ghost predicate Sizes() {
      1 <= size100k <= 9 && nblockMAX == 100000 * size100k - 19 && inUse.Length == 256 &&
      area.Length == 100000 * size100k + OVERSHOOT && ftab.Length == 65537 && area != ftab
    }

    /** Input taken is in the finished blocks, the current block or the pending run. */
    ghost predicate Accounts()
      reads this`consumed, this`packed, this`pairs, this`stateInCh, this`stateInLen
    {
      Pends(pairs, stateInCh, stateInLen) && consumed == packed + Flat(pairs) + PendingBytes(stateInCh, stateInLen)
    }

    /** The block being filled. */
    ghost predicate Filling()
      reads this`nblock, this`pairs, this`blockCRC, area, inUse
    {
      Sizes() && nblock <= 100000 * size100k && Holds(Bytes(area[..], nblock), pairs, inUse[..], blockCRC)
    }

    /** Output produced and delivered. */
    ghost predicate Wired()
      reads this`earlier, this`stateOutPos, this`nextOut, this`body, this`ended, this`packed, this`combinedCRC, this`begun, w
    {
      w.Valid() && (if ended then w.live == [] else w.bsLive >= 0) && stateOutPos <= |w.zbits| && nextOut == earlier + w.zbits[..stateOutPos] &&
      Decodes(size100k, body, packed, combinedCRC) &&
      Sent(ByteBits(earlier) + w.Written(), size100k, begun, body, ended, combinedCRC)
    }

    predicate EmptyRL()
      reads this`stateInCh, this`stateInLen
    {
      !(stateInCh < 256 && stateInLen > 0)
    }

    /** A block is being filled. */
    ghost predicate Receiving()
      reads this`nblock, this`pairs, this`blockCRC, this`stateInCh, this`begun, this`blockNo, this`ended, this`mode, area, inUse, w
    {
      Filling() && (stateInCh == NONE ==> pairs == []) && begun == (blockNo > 1) &&
      nblock < nblockMAX && w.zbits == [] && !ended && mode != Idle
    }

    /** A finished block is being handed out. */
    ghost predicate Sending()
      reads this`pairs, this`begun, this`ended, this`mode, this`availInExpect, this`stateInCh, this`stateInLen
    {
      pairs == [] && begun && (EmptyRL() ==> ended || (mode == Flushing && availInExpect == 0)) &&
      (ended ==> EmptyRL() && (mode == Finishing || mode == Idle) && availInExpect == 0)
    }

    /** The state machine. */
    ghost predicate Valid()
      reads this, area, inUse, ftab, w
    {
      Sizes() && Accounts() && Wired() && blockNo >= 1 && if phase == Input then Receiving() else Sending()
    }

    /** Finished bytes are waiting for room. */
    predicate Undelivered()
      reads this`phase, this`stateOutPos, w
    {
      phase == Output && stateOutPos < |w.zbits|
    }

    /** Between calls nothing but room is waited for once a block is finished. */
    ghost predicate Ready()
      reads this, area, inUse, ftab, w
    {
      Valid() && (phase == Output && mode != Idle ==> Undelivered())
    }

    /** What is still to be done before the stream ends: input, the pending run, the trailer, bytes to be delivered. */
    ghost function Work(): Left
      reads this`nextIn, this`stateInCh, this`stateInLen, this`ended, this`stateOutPos, w
    {
      Left(|nextIn|, if EmptyRL() then 0 else 1, if ended then 0 else 1, |w.zbits| - stateOutPos)
    }

    constructor (size100k: nat, workFactor: int)
      requires 1 <= size100k <= 9 && 0 <= workFactor <= 250
      ensures Ready() && mode == Running && phase == Input && consumed == [] && nextOut == [] && nextIn == []
      ensures fresh(area) && fresh(inUse) && fresh(ftab) && fresh(w)
    {
      hide Decodes, Sent, Holds, Bytes, ByteBits, BitWriter.Valid, BitWriter.Written, Flat;
      this.size100k := size100k;
      nblockMAX := 100000 * size100k - 19;
      this.workFactor := if workFactor == 0 then 30 else workFactor;
      area := new nat[100000 * size100k + OVERSHOOT];
      inUse := new bool[256](_ => false);
      ftab := new nat[65537];
      w := new BitWriter();
      mode, phase, availInExpect := Running, Input, 0;
      stateInCh, stateInLen, nblock, stateOutPos, blockNo := NONE, 0, 0, 0, 1;
      blockCRC, combinedCRC := INITIAL, 0;
      nextIn, availOut, nextOut := [], 0, [];
      consumed, pairs, packed, earlier, body, begun, ended := [], [], [], [], [], false, false;
      new;
      HoldsNothing(inUse[..]);
      DecodesNothing(size100k);
      assert Bytes(area[..], 0) == [];
      NoBytes();
      FlatNothing();
      SentNothing(size100k);
    }

    method AddPairToBlock()
      requires Filling() && stateInCh < 256 && Pends(pairs, stateInCh, stateInLen) && nblock + 5 <= 100000 * size100k
      modifies this`nblock, this`pairs, this`blockCRC, area, inUse
      ensures Filling() && pairs == old(pairs) + [Pair(stateInCh, stateInLen)] && Flat(pairs) == old(Flat(pairs)) + Copies(stateInCh, stateInLen)
      ensures old(nblock) < nblock <= old(nblock) + 5
    {
      hide Holds, Bytes, Update, UpdateAll, Encode, Flat, Chained, Copies, Pends, Stored;
      PendsFacts();
      ghost var p := Pair(stateInCh, stateInLen);
      ghost var words, u := area[..], inUse[..];
      ghost var s := Bytes(words, nblock);
      ghost var crc := blockCRC;
      var ch: Byte := stateInCh;
      NoCopies(ch);
      for i := 0 to stateInLen
        modifies this`blockCRC
        invariant blockCRC == UpdateAll(crc, Copies(ch, i))
      {
        UpdateOne(crc, Copies(ch, i), ch);
        CopiesOne(ch, i);
        blockCRC := Update(blockCRC, ch);
      }
      inUse[stateInCh] := true;
      assert area[..] == words;
      StoreRun(ch);
      HoldsPair(s, pairs, u, crc, p, inUse[..]);
      pairs := pairs + [p];
    }

    /** Stores the pending run and marks its count. */
    method StoreRun(ch: Byte)
      requires Sizes() && ch == stateInCh && 1 <= stateInLen <= 255 && nblock + 5 <= 100000 * size100k && inUse[ch]
      modifies this`nblock, area, inUse
      ensures old(nblock) < nblock <= old(nblock) + 5
      ensures Bytes(area[..], nblock) == old(Bytes(area[..], nblock)) + Stored(Pair(ch, stateInLen))
      ensures forall c :: 0 <= c < 256 ==> inUse[c] == (old(inUse[c]) || (stateInLen >= 4 && c == stateInLen - 4))
    {
      hide Bytes;
      StoredIs(Pair(ch, stateInLen));
      ghost var s := Bytes(area[..], nblock);
      match stateInLen {
        case 1 =>
          AppendByte(ch);
          assert Bytes(area[..], nblock) == s + [ch];
        case 2 =>
          AppendByte(ch);
          AppendByte(ch);
          assert Bytes(area[..], nblock) == s + [ch, ch];
        case 3 =>
          AppendByte(ch);
          AppendByte(ch);
          AppendByte(ch);
          assert Bytes(area[..], nblock) == s + [ch, ch, ch];
        case _ =>
          ghost var words := area[..];
          inUse[stateInLen - 4] := true;
          assert area[..] == words;
          AppendByte(ch);
          AppendByte(ch);
          AppendByte(ch);
          AppendByte(ch);
          AppendByte(stateInLen - 4);
          assert Bytes(area[..], nblock) == s + [ch, ch, ch, ch, stateInLen - 4];
      }
    }

    method AppendByte(c: Byte)
      requires Sizes() && nblock < 100000 * size100k
      modifies this`nblock, area
      ensures nblock == old(nblock) + 1 && Bytes(area[..], nblock) == old(Bytes(area[..], nblock)) + [c]
    {
      StoreByte(area, nblock, c);
      ghost var s := old(Bytes(area[..], nblock));
      nblock := nblock + 1;
      assert Bytes(area[..], nblock) == s + [c] by {
        BytesPrefix(old(area[..]), nblock);
        BytesPrefix(area[..], nblock);
      }
    }

    /** One byte of input: it lengthens the pending run, or starts another. */
    method AddCharToBlock(zchh: Byte)
      requires Filling() && Accounts() && nblock + 5 <= 100000 * size100k && (stateInCh == NONE ==> pairs == [])
      modifies this`nblock, this`pairs, this`blockCRC, this`stateInCh, this`stateInLen, this`consumed, area, inUse
      ensures Filling() && Accounts() && !EmptyRL() && consumed == old(consumed) + [zchh]
      ensures old(nblock) <= nblock <= old(nblock) + 5
    {
      hide Holds, Bytes, Update, UpdateAll, Encode, Flat, Chained, Copies, Stored, Follows;
      RunFacts(pairs, stateInCh, stateInLen, zchh);
      ghost var before := packed + Flat(pairs);
      if zchh != stateInCh && stateInLen == 1 {
        var ch: Byte := stateInCh;
        ghost var p := Pair(ch, 1);
        ghost var words, s, u, crc := area[..], Bytes(area[..], nblock), inUse[..], blockCRC;
        OneCopy(blockCRC, ch);
        StoredIs(p);
        blockCRC := Update(blockCRC, ch);
        inUse[ch] := true;
        assert area[..] == words;
        AppendByte(ch);
        HoldsPair(s, pairs, u, crc, p, inUse[..]);
        pairs := pairs + [p];
        stateInCh := zchh;
        assert packed + Flat(pairs) == before + Copies(ch, 1);
      } else if zchh != stateInCh || stateInLen == 255 {
        if stateInCh < 256 { AddPairToBlock(); }
        stateInCh := zchh;
        stateInLen := 1;
        assert packed + Flat(pairs) == before + old(PendingBytes(stateInCh, stateInLen));
      } else {
        stateInLen := stateInLen + 1;
      }
      consumed := consumed + [zchh];
    }

    /** Ends the pending run. */
    method FlushRL()
      requires Filling() && Accounts() && nblock + 5 <= 100000 * size100k
      modifies this`nblock, this`pairs, this`blockCRC, this`stateInCh, this`stateInLen, area, inUse
      ensures Filling() && Accounts() && stateInCh == NONE
    {
      hide Holds, Bytes, Encode, Flat, Chained, Copies;
      ghost var before := packed + Flat(pairs);
      if stateInCh < 256 { AddPairToBlock(); }
      stateInCh, stateInLen := NONE, 0;
      assert packed + Flat(pairs) == before + old(PendingBytes(stateInCh, stateInLen));
    }

    /** Takes input until the block is full or the input, or the input a flush was asked for, runs out. */
    method CopyInputUntilStop() returns (progress: bool)
      requires Filling() && Accounts() && nblock < nblockMAX && (stateInCh == NONE ==> pairs == []) && (mode != Running ==> availInExpect == |nextIn|)
      modifies this`nblock, this`pairs, this`blockCRC, this`stateInCh, this`stateInLen, this`consumed, this`nextIn, this`availInExpect, area, inUse
      ensures Filling() && Accounts() && nblock <= nblockMAX + 4 && (stateInCh == NONE ==> pairs == [])
      ensures mode != Running ==> availInExpect == |nextIn|
      ensures nblock >= nblockMAX || nextIn == []
      ensures consumed + nextIn == old(consumed + nextIn) && progress == (|nextIn| < |old(nextIn)|) && |nextIn| <= |old(nextIn)|
      ensures progress ==> !EmptyRL()
      ensures !progress ==> nblock == old(nblock) && EmptyRL() == old(EmptyRL())
      ensures progress == (old(nextIn) != [])
    {
      hide Filling, Accounts, Holds, Flat, Bytes;
      FillingSizes();
      progress := false;
      while true
        invariant Filling() && Accounts() && nblock <= nblockMAX + 4 && (stateInCh == NONE ==> pairs == []) && (mode != Running ==> availInExpect == |nextIn|)
        invariant consumed + nextIn == old(consumed + nextIn) && progress == (|nextIn| < |old(nextIn)|) && |nextIn| <= |old(nextIn)|
        invariant progress ==> !EmptyRL()
        invariant !progress ==> nblock == old(nblock) && EmptyRL() == old(EmptyRL())
        decreases |nextIn|
      {
        if nblock >= nblockMAX { break; }
        if |nextIn| == 0 { break; }
        if mode != Running && availInExpect == 0 { break; }
        progress := true;
        AddCharToBlock(nextIn[0]);
        nextIn := nextIn[1..];
        if mode != Running { availInExpect := availInExpect - 1; }
      }
    }

    /** Hands out finished bytes while there is room. */
    method CopyOutputUntilStop() returns (progress: bool)
      requires Wired()
      modifies this`nextOut, this`availOut, this`stateOutPos
      ensures Wired() && old(nextOut) <= nextOut && |nextOut| + availOut == old(|nextOut| + availOut)
      ensures availOut == 0 || stateOutPos >= |w.zbits|
      ensures progress == (|nextOut| > |old(nextOut)|) == (old(stateOutPos) < |w.zbits| && old(availOut) > 0)
      ensures stateOutPos - old(stateOutPos) == |nextOut| - |old(nextOut)|
    {
      hide Decodes, Sent, ByteBits, BitWriter.Valid, BitWriter.Written;
      progress := false;
      while true
        invariant Wired() && old(nextOut) <= nextOut && |nextOut| + availOut == old(|nextOut| + availOut)
        invariant progress == (|nextOut| > |old(nextOut)|) && stateOutPos - old(stateOutPos) == |nextOut| - |old(nextOut)|
        decreases availOut
      {
        if availOut == 0 { break; }
        if stateOutPos >= |w.zbits| { break; }
        progress := true;
        assert w.zbits[..stateOutPos + 1] == w.zbits[..stateOutPos] + [w.zbits[stateOutPos]];
        nextOut := nextOut + [w.zbits[stateOutPos]];
        stateOutPos := stateOutPos + 1;
        availOut := availOut - 1;
      }
    }

    /** Clears the block; the bytes just handed out become part of the earlier output. */
    method PrepareNewBlock()
      requires Sizes() && Wired() && pairs == [] && stateOutPos == |w.zbits| && !ended
      modifies this`nblock, this`stateOutPos, this`blockCRC, this`blockNo, this`earlier, inUse, w
      ensures Filling() && Wired() && nblock == 0 && w.zbits == [] && blockNo == old(blockNo) + 1
    {
      hide Decodes, Sent, ByteBits, Holds, BitWriter.Valid, Wired;
      Rewire();
      nblock := 0;
      blockCRC := INITIAL;
      for i := 0 to 256
        modifies inUse
        invariant forall c :: 0 <= c < i ==> !inUse[c]
      {
        inUse[i] := false;
      }
      HoldsNothing(inUse[..]);
      assert Bytes(area[..], 0) == [];
      blockNo := blockNo + 1;
    }

    /** numZ and state_out_pos return to zero. */
    method Rewire()
      requires Wired() && stateOutPos == |w.zbits| && !ended
      modifies this`stateOutPos, this`earlier, w
      ensures Wired() && w.zbits == [] && stateOutPos == 0
    {
      hide Decodes, Sent, ByteBits, BitWriter.Valid;
      ghost var e, z := earlier, w.zbits;
      ByteBitsConcat(e, z);
      NoBytes();
      stateOutPos := 0;
      w.Restart();
      earlier := earlier + z;
      assert z[..|z|] == z;
      assert ByteBits(e) + (ByteBits(z) + w.live) == ByteBits(earlier) + ([] + w.live);
    }

    /** The block's data after the stream header, if this is the first block: the stream so far then decodes to
        the input packed so far. */
    method CompressData()
      requires Filling() && blockNo >= 1 && E.Open(w) && Decodes(size100k, body, packed, combinedCRC)
      requires blockNo == 1 ==> body == []
      modifies this`blockCRC, this`combinedCRC, this`packed, this`body, area, ftab, w
      ensures E.Open(w) && Decodes(size100k, body, packed, combinedCRC) && packed == old(packed) + Flat(pairs)
      ensures old(body) <= body
      ensures w.Written() == old(w.Written()) + (if blockNo == 1 then HeadBits(size100k) else []) + body[|old(body)|..]
      ensures |w.Written()| <= |old(w.Written())| + 32 + R.Longest(nblock + 1)
    {
      hide R.Longest, Decodes, Holds, Bytes, BitWriter.Written, BitWriter.Valid, HeadBits, BlockSum, Finalise, Combine, Encode, Flat, Invert, Chained, ReadBlock, M.AllMarked, Pow2, Filling;
      FillingSizes();
      HoldsFacts(Bytes(area[..], nblock), pairs, inUse[..], blockCRC);
      ghost var s, c := Bytes(area[..], nblock), combinedCRC;
      if nblock > 0 {
        blockCRC := Finalise(blockCRC);
        combinedCRC := Combine(combinedCRC, blockCRC);
      }
      HeadLength(size100k);
      if blockNo == 1 { WriteHead(); }
      if nblock > 0 {
        ghost var new', got := PackBlock();
        DecodesBlock(size100k, body, packed, c, new', got, pairs);
        body := body + new';
      } else {
        assert s == [] && packed + [] == packed;
      }
      packed := packed + Flat(pairs);
    }

    /** The block joins the finished ones. */
    method FinishBlock()
      requires Filling() && Accounts() && Wired() && !ended && begun == (blockNo > 1) && blockNo >= 1 && w.zbits == []
      modifies this`blockCRC, this`combinedCRC, this`pairs, this`packed, this`body, this`begun, area, ftab, w
      ensures Accounts() && Wired() && pairs == [] && begun && packed == old(packed + Flat(pairs))
      ensures |w.Written()| <= 64 + R.Longest(nblock + 1)
    {
      hide R.Longest, Decodes, Sent, ByteBits, Holds, Bytes, BitWriter.Written, HeadBits, TrailerBits, Filling, Flat, BitWriter.Valid;
      ghost var b, w0 := body, w.Written();
      SentFacts(ByteBits(earlier) + w0, size100k, begun, b, combinedCRC);
      FillingSizes();
      LiveFits();
      CompressData();
      Joined(ByteBits(earlier), w0, w.Written(), HeadBits(size100k), b, body, begun);
      SentOn(size100k, body, combinedCRC);
      pairs := [];
      FlatNothing();
      assert packed + [] == packed;
      begun := true;
    }

    method EndStream()
      requires Wired() && begun && !ended && stateOutPos == 0
      modifies this`ended, w
      ensures Wired() && ended && |w.Written()| <= |old(w.Written())| + 87 && |w.zbits| >= 10
    {
      hide Decodes, Sent, ByteBits, BitWriter.Written, HeadBits, TrailerBits, BitWriter.Valid;
      ghost var w0 := w.Written();
      SentFacts(ByteBits(earlier) + w0, size100k, begun, body, combinedCRC);
      DecodesBound(size100k, body, packed, combinedCRC);
      ghost var pad := WriteTrailer();
      ended := true;
      TrailerLength(combinedCRC);
      WholeBytes();
      assert ByteBits(earlier) + w.Written() == (ByteBits(earlier) + w0) + TrailerBits(combinedCRC) + Clear(pad);
      SentEnd(ByteBits(earlier) + w.Written(), size100k, body, combinedCRC, pad);
    }

    /** Finishes the current block, and at the end of the stream adds the trailer. */
    method CompressBlock(isLast: bool)
      requires Filling() && Accounts() && Wired() && !ended && begun == (blockNo > 1) && blockNo >= 1 && w.zbits == []
      modifies this`blockCRC, this`combinedCRC, this`pairs, this`packed, this`body, this`begun, this`ended, area, ftab, w
      ensures Accounts() && Wired() && pairs == [] && begun && ended == isLast && packed == old(packed + Flat(pairs))
      ensures nblock + |w.zbits| <= 4 * area.Length && (isLast ==> |w.zbits| >= 10)
    {
      hide R.Longest, Filling, Accounts, Flat, Sent, Decodes, BitWriter.Valid, BitWriter.Written;
      FillingSizes();
      FinishBlock();
      if isLast { EndStream(); }
      RoomLeft();
    }

    /** The output shares arr2 with the block, and has room behind it. */
    lemma RoomLeft()
      requires Sizes() && nblock <= 100000 * size100k && |w.Written()| <= 151 + R.Longest(nblock + 1)
      ensures nblock + |w.zbits| <= 4 * area.Length
    {
      hide R.Longest;
      R.RoomEnough(nblock, size100k, area.Length);
    }

    static lemma HeadLength(size100k: nat)
      requires 1 <= size100k <= 9
      ensures |HeadBits(size100k)| == 32
    {
      R.MagicLength(Head(size100k));
    }

    static lemma TrailerLength(combined: nat)
      ensures |TrailerBits(combined)| == 80
    {
      R.MagicLength(END_MAGIC);
    }

    method WriteHead()
      requires E.Open(w) && 1 <= size100k <= 9
      modifies w
      ensures E.Open(w) && w.Written() == old(w.Written()) + HeadBits(size100k)
    {
      hide BitsOf, BitWriter.Written, MagicBits;
      ghost var magic := Head(size100k);
      ghost var goal := w.Written() + MagicBits(magic);
      assert magic[0..] == magic;
      E.WriteMagicByte(w, 0x42, magic, 0, goal);
      E.WriteMagicByte(w, 0x5a, magic, 1, goal);
      E.WriteMagicByte(w, 0x68, magic, 2, goal);
      E.WriteMagicByte(w, 0x30 + size100k, magic, 3, goal);
      E.MagicNone(magic, 4);
    }

    method WriteTrailer() returns (ghost pad: nat)
      requires E.Open(w) && combinedCRC < Pow2(32)
      modifies w
      ensures w.Valid() && w.live == [] && pad < 8 && w.Written() == old(w.Written()) + TrailerBits(combinedCRC) + Clear(pad)
    {
      hide BitsOf, BitWriter.Written, MagicBits, Pow2, ByteBits;
      ghost var magic := END_MAGIC;
      ghost var w0 := w.Written();
      ghost var goal := w0 + MagicBits(magic);
      assert magic[0..] == magic;
      E.WriteMagicByte(w, 0x17, magic, 0, goal);
      E.WriteMagicByte(w, 0x72, magic, 1, goal);
      E.WriteMagicByte(w, 0x45, magic, 2, goal);
      E.WriteMagicByte(w, 0x38, magic, 3, goal);
      E.WriteMagicByte(w, 0x50, magic, 4, goal);
      E.WriteMagicByte(w, 0x90, magic, 5, goal);
      E.MagicNone(magic, 6);
      assert w.Written() == goal;
      E.PutUInt32(w, combinedCRC);
      assert w.Written() == w0 + TrailerBits(combinedCRC);
      pad := w.Finish();
      AllOut(w);
    }

    /** The block sorted and coded in the part of arr1 it needs. */
    method PackBlock() returns (ghost new': bits, ghost got: Received)
      requires Sizes() && 0 < nblock <= 100000 * size100k && E.Open(w) && blockCRC < Pow2(32)
      requires M.AllMarked(Bytes(area[..], nblock), inUse[..])
      modifies area, ftab, w
      ensures E.Open(w) && w.Written() == old(w.Written()) + new'
      ensures forall rest :: ReadBlock(size100k, new' + rest) == Parsed(got, rest)
      ensures got.header.crc == blockCRC && got.header.randomised == 0 && got.header.origPtr < |got.col|
      ensures Invert(got.col, got.header.origPtr) == old(Bytes(area[..], nblock))
      ensures |new'| <= R.Longest(nblock + 1)
    {
      hide E.CodedWith, R.Longest, ReadBlock, Invert, BitWriter.Written, Bytes, M.AllMarked, Pow2, BitWriter.Valid;
      var ptr := new nat[nblock];
      ghost var c;
      new', got, c := E.CompressBlock(w, ptr, area, ftab, nblock, inUse, workFactor, blockCRC, size100k);
    }

    /** The next block is begun. */
    method NextBlock()
      requires Valid() && mode != Idle && phase == Output && stateOutPos == |w.zbits| && !ended
      modifies this`phase, this`nblock, this`stateOutPos, this`blockNo, this`blockCRC, this`earlier, inUse, w
      ensures Valid() && phase == Input && w.zbits == [] && stateOutPos == 0 && pairs == [] && begun
      ensures EmptyRL() ==> mode == Flushing && availInExpect == 0
    {
      hide Filling, Accounts, Wired;
      PrepareNewBlock();
      phase := Input;
      WiredFacts();
    }

    /** BZ_S_OUTPUT: hand out the block; once all of it is gone, go on to the next block or stop. */
    method OutputStep() returns (progress: bool, stop: bool)
      requires Valid() && mode != Idle && phase == Output
      modifies this`phase, this`nblock, this`stateOutPos, this`blockNo, this`blockCRC, this`availOut, this`nextOut, this`earlier, inUse, w
      ensures Valid() && old(nextOut) <= nextOut && |nextOut| + availOut == old(|nextOut| + availOut)
      ensures progress == (|nextOut| > |old(nextOut)|) == (old(Undelivered()) && old(availOut) > 0)
      ensures old(Undelivered()) && old(availOut) == 0 ==> stop && Undelivered() && Work() == old(Work())
      ensures SameInput(Work(), old(Work())) && Work().bytes <= old(Work()).bytes && (progress ==> Work().bytes < old(Work()).bytes)
      ensures stop && phase == Output ==> if Undelivered() then availOut == 0 else mode == Finishing && ended
      ensures !stop ==> phase == Input && !EmptyRL()
      ensures stop && phase == Input ==> mode == Flushing && pairs == [] && begun && EmptyRL() && availInExpect == 0
    {
      hide Filling, Accounts, Wired, Sizes;
      stop := true;
      WiredFacts();
      progress := CopyOutputUntilStop();
      WiredFacts();
      if stateOutPos < |w.zbits| { return; }
      if mode == Finishing && availInExpect == 0 && EmptyRL() { return; }
      NextBlock();
      if mode == Flushing && availInExpect == 0 && EmptyRL() { return; }
      stop := false;
    }

    /** The block is compressed and will be handed out next. */
    method Pack(isLast: bool)
      requires Filling() && Accounts() && Wired() && !ended && begun == (blockNo > 1) && blockNo >= 1 && w.zbits == [] && mode != Idle
      requires EmptyRL() ==> availInExpect == 0 && (mode == Flushing || isLast)
      requires nblock >= nblockMAX || (mode != Running && availInExpect == 0)
      requires isLast ==> mode == Finishing && EmptyRL()
      modifies this`phase, this`blockCRC, this`combinedCRC, this`pairs, this`packed, this`body, this`begun, this`ended, area, ftab, w
      ensures Valid() && phase == Output && ended == isLast && (isLast ==> Undelivered())
    {
      hide Filling, Accounts, Wired, Holds, Flat, Bytes;
      FillingSizes();
      WiredFacts();
      CompressBlock(isLast);
      phase := Output;
    }

    /** BZ_S_INPUT: fill the block; compress it when it is full or a flush or finish has had all its input. */
    method InputStep() returns (progress: bool, stop: bool)
      requires Valid() && mode != Idle && phase == Input && (mode != Running ==> availInExpect == |nextIn|)
      modifies this`phase, this`availInExpect, this`stateInCh, this`stateInLen, this`nblock, this`blockCRC, this`combinedCRC,
               this`nextIn, this`consumed, this`pairs, this`packed, this`body, this`begun, this`ended, area, ftab, inUse, w
      ensures Valid() && (mode != Running ==> availInExpect == |nextIn|)
      ensures consumed + nextIn == old(consumed + nextIn) && |nextIn| <= |old(nextIn)| && progress == (|nextIn| < |old(nextIn)|)
      ensures stop ==> phase == Input && mode == Running && nextIn == []
      ensures !stop ==> phase == Output && (progress || EmptyRL())
      ensures progress == (old(nextIn) != []) && (mode == Running && !progress ==> stop)
      ensures mode == Finishing && !progress ==> ended
      ensures mode == Finishing ==> LessInput(Work(), old(Work()))
      ensures !stop && ended ==> Undelivered()
    {
      hide Filling, Accounts, Wired, Holds, Flat, Bytes;
      stop := false;
      progress := CopyInputUntilStop();
      FillingSizes();
      if mode != Running && availInExpect == 0 {
        FlushRL();
        Pack(mode == Finishing);
      } else if nblock >= nblockMAX {
        Pack(false);
      } else if |nextIn| == 0 {
        stop := true;
      }
    }

    /** One turn of the loop: hand out, then take in. */
    method Turn() returns (pIn: bool, pOut: bool, stop: bool)
      requires Valid() && mode != Idle && (mode != Running ==> availInExpect == |nextIn|) && (phase == Output && ended ==> Undelivered())
      modifies this`phase, this`availInExpect, this`stateInCh, this`stateInLen, this`nblock, this`stateOutPos, this`blockNo,
               this`blockCRC, this`combinedCRC, this`nextIn, this`availOut, this`nextOut, this`consumed, this`pairs, this`packed,
               this`earlier, this`body, this`begun, this`ended, area, ftab, inUse, w
      ensures Valid() && (mode != Running ==> availInExpect == |nextIn|) && (phase == Output && ended && !stop ==> Undelivered())
      ensures consumed + nextIn == old(consumed + nextIn) && |nextIn| <= |old(nextIn)| && pIn == (|nextIn| < |old(nextIn)|)
      ensures old(nextOut) <= nextOut && |nextOut| + availOut == old(|nextOut| + availOut) && pOut == (|nextOut| > |old(nextOut)|)
      ensures pOut == (old(Undelivered()) && old(availOut) > 0)
      ensures old(Undelivered()) && old(availOut) == 0 ==> stop && !pIn && Undelivered()
      ensures old(phase) == Input ==> pIn == (old(nextIn) != []) && (mode == Running && !pIn ==> stop) && (mode == Finishing ==> !stop)
      ensures old(phase) == Input && mode == Finishing && !pIn ==> ended
      ensures mode == Finishing ==> if stop then SameInput(Work(), old(Work())) && (pOut ==> Work().bytes < old(Work()).bytes) else LessInput(Work(), old(Work()))
      ensures !stop ==> phase == Output && (pIn || (EmptyRL() && (old(phase) == Output ==> !old(EmptyRL()))))
      ensures stop && phase == Input ==> if mode == Running then nextIn == [] else mode == Flushing && pairs == [] && begun && EmptyRL() && nextIn == []
      ensures stop && phase == Output ==> if Undelivered() then availOut == 0 else mode == Finishing && ended && pOut
    {
      hide Valid, Work, EmptyRL;
      pIn, pOut, stop := false, false, false;
      if phase == Output {
        pOut, stop := OutputStep();
        if stop { return; }
      }
      if phase == Input { pIn, stop := InputStep(); }
    }

    /** Moves data until input, output room or the work asked for runs out. */
    method HandleCompress() returns (progress: bool)
      requires Ready() && mode != Idle && (mode != Running ==> availInExpect == |nextIn|)
      modifies this`phase, this`availInExpect, this`stateInCh, this`stateInLen, this`nblock, this`stateOutPos, this`blockNo,
               this`blockCRC, this`combinedCRC, this`nextIn, this`availOut, this`nextOut, this`consumed, this`pairs, this`packed,
               this`earlier, this`body, this`begun, this`ended, area, ftab, inUse, w
      ensures Valid() && (mode != Running ==> availInExpect == |nextIn|)
      ensures consumed + nextIn == old(consumed + nextIn) && |nextIn| <= |old(nextIn)|
      ensures old(nextOut) <= nextOut && |nextOut| + availOut == old(|nextOut| + availOut)
      ensures progress == (|nextIn| < |old(nextIn)| || |nextOut| > |old(nextOut)|)
      ensures !progress ==> nextIn == old(nextIn) && nextOut == old(nextOut)
      ensures mode != Flushing ==> progress == old(CanMove(mode == Finishing, Undelivered(), nextIn, availOut))
      ensures mode == Finishing && progress ==> Less(Work(), old(Work()))
      ensures phase == Input && mode != Running ==> mode == Flushing && pairs == [] && begun && EmptyRL() && nextIn == []
      ensures phase == Input && mode == Running ==> nextIn == []
      ensures phase == Output ==> if Undelivered() then availOut == 0 else mode == Finishing && ended && progress
    {
      hide Valid, Work, EmptyRL;
      var progressIn, progressOut := false, false;
      ghost var first, can := true, CanMove(mode == Finishing, Undelivered(), nextIn, availOut);
      ghost var in0, out0, all, room, work := nextIn, nextOut, consumed + nextIn, availOut, Work();
      while true
        invariant Valid() && (mode != Running ==> availInExpect == |nextIn|)
        invariant consumed + nextIn == all && |nextIn| <= |in0| && out0 <= nextOut && |nextOut| + availOut == |out0| + room
        invariant progressIn == (|nextIn| < |in0|) && progressOut == (|nextOut| > |out0|)
        invariant first ==> !progressIn && !progressOut && Work() == work && (phase == Output ==> Undelivered())
        invariant first ==> can == CanMove(mode == Finishing, Undelivered(), nextIn, availOut)
        invariant !first && mode != Flushing ==> if progressIn || progressOut then can else Late(in0, room, can)
        invariant !first && mode == Finishing ==> LessInput(Work(), work)
        invariant phase == Output && ended && !first ==> Undelivered()
        decreases |nextIn|, if EmptyRL() then 0 else 1, if phase == Input then 1 else 0
      {
        var pIn, pOut, stop := Turn();
        progressIn, progressOut := progressIn || pIn, progressOut || pOut;
        if stop { break; }
        first := false;
      }
      progress := progressIn || progressOut;
      if !progress { SameTail(consumed, nextIn, old(consumed), old(nextIn)); }
    }

    /** Nothing has moved yet, but the end of the stream is compressed and at hand. */
    ghost predicate Late(input: seq<Byte>, room: nat, can: bool)
      reads this`phase, this`stateOutPos, this`mode, this`availOut, this`ended, w
    {
      mode == Finishing && input == [] && Undelivered() && ended && availOut == room && can == (room > 0)
    }

    /** One call of the library: input, output room and what is asked for.  The input taken is always the front of
        what was offered; when the stream ends, decompressing all output restores all input ever taken. */
    method BzCompress(action: Action, input: seq<Byte>, room: nat) returns (r: Result)
      requires Ready()
      modifies this, area, ftab, inUse, w
      ensures Ready() && consumed + nextIn == old(consumed) + input
      ensures old(nextOut) <= nextOut && |nextOut| + availOut == |old(nextOut)| + room
      ensures r == Answer(action, old(mode), input, room, old(availInExpect), old(Undelivered()), Undelivered())
      ensures r == StreamEnd ==> mode == Idle && nextIn == [] && Restores(ByteBits(nextOut), consumed)
      ensures r == RunOk && action == Flush ==>
        mode == Running && nextIn == [] && packed == consumed && ByteBits(nextOut) + w.live == HeadBits(size100k) + body
      ensures r == RunOk && action == Run ==> mode == Running && (nextIn == [] || Undelivered())
      ensures r == FlushOk ==> mode == Flushing && Undelivered() && availInExpect == |nextIn|
      ensures r == FinishOk ==> mode == Finishing && Undelivered() && availInExpect == |nextIn|
      ensures r == FinishOk && old(mode) == Finishing ==> Less(Work(), old(Work()).(input := |input|))
      ensures r == RunOk || r == FlushOk || r == FinishOk ==> !Undelivered() || availOut == 0
      ensures r == ParamError || r == SequenceError ==> nextIn == input && nextOut == old(nextOut)
    {
      hide Valid, EmptyRL, Restores, ByteBits, HeadBits, Work, Less;
      Supply(input, room);
      if mode == Idle { return SequenceError; }
      if mode == Running {
        match action {
          case Run =>
            var progress := HandleCompress();
            return if progress then RunOk else ParamError;
          case Flush =>
            Request(Flushing);
          case Finish =>
            Request(Finishing);
        }
      }
      if mode == Flushing {
        if action != Flush { return SequenceError; }
        if availInExpect != |nextIn| { return SequenceError; }
        r := FlushMore();
      } else {
        if action != Finish { return SequenceError; }
        if availInExpect != |nextIn| { return SequenceError; }
        r := FinishMore();
      }
    }

    /** The caller goes on asking for the end of the stream, with any room each time but some, and gets it. */
    method FinishStream(input: seq<Byte>)
      requires Ready() && mode == Running
      modifies this, area, ftab, inUse, w
      ensures mode == Idle && consumed == old(consumed) + input && old(nextOut) <= nextOut && Restores(ByteBits(nextOut), consumed)
    {
      hide Ready, Restores, ByteBits, EmptyRL, HeadBits;
      var room: nat :| room > 0;
      var r := BzCompress(Finish, input, room);
      while r != StreamEnd
        invariant Ready() && (r == FinishOk || r == StreamEnd)
        invariant consumed + nextIn == old(consumed) + input && old(nextOut) <= nextOut
        invariant r == FinishOk ==> mode == Finishing && Undelivered() && availInExpect == |nextIn|
        invariant r == StreamEnd ==> mode == Idle && nextIn == [] && Restores(ByteBits(nextOut), consumed)
        decreases if r == StreamEnd then 0 else 1, Work().input, Work().run, Work().trailer, Work().bytes
      {
        room :| room > 0;
        r := BzCompress(Finish, nextIn, room);
      }
    }

    /** The caller's buffers for this call. */
    method Supply(input: seq<Byte>, room: nat)
      requires Ready()
      modifies this`nextIn, this`availOut
      ensures Ready() && nextIn == input && availOut == room && Work() == old(Work()).(input := |input|)
    {
      hide Accounts, Wired, Filling;
      nextIn, availOut := input, room;
    }

    /** A flush or finish is asked for: all input now on offer belongs to it. */
    method Request(m: Mode)
      requires Ready() && mode == Running && (m == Flushing || m == Finishing)
      modifies this`mode, this`availInExpect
      ensures Ready() && mode == m && availInExpect == |nextIn| && Work() == old(Work())
    {
      hide Accounts, Wired, Filling;
      availInExpect := |nextIn|;
      mode := m;
    }

    method FlushMore() returns (r: Result)
      requires Ready() && mode == Flushing && availInExpect == |nextIn|
      modifies this, area, ftab, inUse, w
      ensures Ready() && consumed + nextIn == old(consumed + nextIn)
      ensures old(nextOut) <= nextOut && |nextOut| + availOut == old(|nextOut| + availOut)
      ensures r == (if Undelivered() then FlushOk else RunOk) && (Undelivered() ==> availOut == 0)
      ensures if r == FlushOk then mode == Flushing && availInExpect == |nextIn| else
        mode == Running && nextIn == [] && packed == consumed && ByteBits(nextOut) + w.live == HeadBits(size100k) + body
    {
      hide Accounts, Wired, ByteBits, HeadBits, Filling;
      var progress := HandleCompress();
      if availInExpect > 0 || !EmptyRL() || stateOutPos < |w.zbits| { return FlushOk; }
      mode := Running;
      Flushed();
      return RunOk;
    }

    method FinishMore() returns (r: Result)
      requires Ready() && mode == Finishing && availInExpect == |nextIn|
      modifies this, area, ftab, inUse, w
      ensures Ready() && consumed + nextIn == old(consumed + nextIn)
      ensures old(nextOut) <= nextOut && |nextOut| + availOut == old(|nextOut| + availOut)
      ensures r == if !old(CanMove(true, Undelivered(), nextIn, availOut)) then SequenceError else if Undelivered() then FinishOk else StreamEnd
      ensures Undelivered() ==> availOut == 0
      ensures r == SequenceError ==> nextIn == old(nextIn) && nextOut == old(nextOut)
      ensures r != StreamEnd ==> mode == Finishing && availInExpect == |nextIn|
      ensures r == FinishOk ==> Less(Work(), old(Work()))
      ensures r == StreamEnd ==> mode == Idle && nextIn == [] && Restores(ByteBits(nextOut), consumed)
    {
      hide Accounts, Wired, ByteBits, Filling, Restores;
      var progress := HandleCompress();
      if !progress { return SequenceError; }
      if availInExpect > 0 || !EmptyRL() || stateOutPos < |w.zbits| { return FinishOk; }
      mode := Idle;
      Finished();
      return StreamEnd;
    }

    lemma Flushed()
      requires Sizes() && Accounts() && Wired() && !ended && begun && EmptyRL() && pairs == [] && w.zbits == []
      ensures packed == consumed && ByteBits(nextOut) + w.live == HeadBits(size100k) + body
    {
      hide ByteBits, Decodes, HeadBits, TrailerBits;
      FlatNothing();
      NoBytes();
      assert earlier + [] == earlier;
      SentFacts(ByteBits(earlier) + w.Written(), size100k, begun, body, combinedCRC);
    }

    lemma Finished()
      requires Sizes() && Accounts() && Wired() && ended && EmptyRL() && pairs == [] && stateOutPos >= |w.zbits|
      ensures Restores(ByteBits(nextOut), consumed)
    {
      hide ByteBits, ReadStream, Decodes, HeadBits, TrailerBits;
      ByteBitsConcat(earlier, w.zbits);
      assert w.zbits[..stateOutPos] == w.zbits;
      FlatNothing();
      assert consumed == packed;
      var pad: nat :| pad < 8 && ByteBits(nextOut) == HeadBits(size100k) + body + TrailerBits(combinedCRC) + Clear(pad);
      StreamRoundTrip(size100k, body, packed, combinedCRC, Clear(pad));
    }

    lemma WiredFacts()
      requires Wired()
      ensures stateOutPos <= |w.zbits|
    {}

    lemma WholeBytes()
      requires w.live == []
      ensures |w.Written()| == 8 * |w.zbits|
    {}

    lemma LiveFits()
      requires w.Valid() && w.zbits == []
      ensures |w.Written()| <= 32
    {}

    lemma FillingSizes()
      requires Filling()
      ensures Sizes() && nblock <= 100000 * size100k && Holds(Bytes(area[..], nblock), pairs, inUse[..], blockCRC)
    {}

    lemma PendsFacts()
      requires stateInCh < 256 && Pends(pairs, stateInCh, stateInLen)
      ensures 1 <= stateInLen <= 255 && (pairs != [] ==> Follows(pairs[|pairs| - 1], Pair(stateInCh, stateInLen)))
    {}
  }

  /** The three ways a byte meets the pending run. */
  lemma RunFacts(pairs: seq<Pair>, ch: nat, len: nat, c: Byte)
    requires Pends(pairs, ch, len)
    ensures ch == NONE ==> len == 0 && PendingBytes(ch, len) == [] && (pairs == [] ==> Pends(pairs, c, 1))
    ensures PendingBytes(c, 1) == [c]
    ensures ch < 256 ==> PendingBytes(ch, len) == Copies(ch, len)
    ensures ch < 256 && (c != ch || len == 255) ==> Pends(pairs + [Pair(ch, len)], c, 1)
    ensures ch == c && len < 255 ==> Pends(pairs, ch, len + 1) && PendingBytes(ch, len + 1) == PendingBytes(ch, len) + [c]
    ensures ch < 256 && len == 1 ==> Legal(Pair(ch, 1)) && (pairs != [] ==> Follows(pairs[|pairs| - 1], Pair(ch, 1)))
  {
    assert Copies(c, 1) == [c];
    if ch == c { CopiesOne(c, len); }
  }

  lemma OneCopy(crc: nat, c: Byte)
    ensures UpdateAll(crc, Copies(c, 1)) == Update(crc, c)
  {
    assert Copies(c, 1) == [] + [c];
    UpdateOne(crc, [], c);
  }

  lemma HoldsFacts(block: seq<Byte>, pairs: seq<Pair>, inUse: seq<bool>, crc: nat)
    requires Holds(block, pairs, inUse, crc)
    ensures Chained(pairs) && block == Encode(pairs) && M.AllMarked(block, inUse)
    ensures Finalise(crc) == BlockSum(Flat(pairs)) < Pow2(32)
    ensures block == [] ==> pairs == [] && Flat(pairs) == []
  {
    hide Finalise, Pow2;
    BlockSumBound(Flat(pairs));
    if pairs != [] { StartsWith(pairs); }
  }

  /** The new bits follow what was there. */
  lemma Joined(e: bits, w0: bits, w1: bits, head: bits, b: bits, b': bits, begun: bool)
    requires b <= b' && w1 == w0 + (if begun then [] else head) + b'[|b|..]
    requires if begun then e + w0 == head + b else e + w0 == [] && b == []
    ensures e + w1 == head + b'
  {
    assert b' == b + b'[|b|..];
    if begun {
      assert e + w1 == (e + w0) + b'[|b|..];
    } else {
      assert e == [] && w0 == [];
    }
  }

  lemma DecodesBound(size100k: nat, body: bits, bytes: seq<Byte>, combined: nat)
    requires Decodes(size100k, body, bytes, combined)
    ensures combined < Pow2(32)
  {}

  lemma SentFacts(total: bits, size100k: nat, begun: bool, body: bits, combined: nat)
    requires Sent(total, size100k, begun, body, false, combined)
    ensures begun ==> total == HeadBits(size100k) + body
    ensures !begun ==> total == [] && body == []
  {}

  lemma SentOn(size100k: nat, body: bits, combined: nat)
    ensures Sent(HeadBits(size100k) + body, size100k, true, body, false, combined)
  {}

  lemma SentEnd(total: bits, size100k: nat, body: bits, combined: nat, pad: nat)
    requires pad < 8 && total == HeadBits(size100k) + body + TrailerBits(combined) + Clear(pad)
    ensures Sent(total, size100k, true, body, true, combined)
  {}

  /** Nothing is left in the register of a finished writer. */
  lemma AllOut(w: BitWriter)
    requires w.Valid() && w.bsLive <= 0
    ensures w.Written() == ByteBits(w.zbits)
  {}

  lemma SentNothing(size100k: nat)
    ensures Sent([], size100k, false, [], false, 0)
  {}

  lemma SameTail(a: seq<Byte>, b: seq<Byte>, c: seq<Byte>, d: seq<Byte>)
    requires a + b == c + d && |b| == |d|
    ensures b == d
  {
    assert (a + b)[|a|..] == b && (c + d)[|c|..] == d;
  }

  lemma NoBytes()
    ensures ByteBits([]) == []
  {}

  lemma FlatNothing()
    ensures Flat([]) == []
  {}

  lemma NoCopies(c: Byte)
    ensures Copies(c, 0) == [] && forall crc :: UpdateAll(crc, []) == crc
  {}

  lemma CopiesOne(c: Byte, i: nat)
    ensures Copies(c, i + 1) == Copies(c, i) + [c]
  {}

  lemma StoredIs(p: Pair)
    requires Legal(p)
    ensures p.len == 1 ==> Stored(p) == [p.ch]
    ensures p.len == 2 ==> Stored(p) == [p.ch, p.ch]
    ensures p.len == 3 ==> Stored(p) == [p.ch, p.ch, p.ch]
    ensures p.len >= 4 ==> Stored(p) == [p.ch, p.ch, p.ch, p.ch, p.len - 4]
  {}

  lemma BytesPrefix(words: seq<nat>, n: nat)
    requires 0 < n <= 4 * |words|
    ensures Bytes(words, n)[..n - 1] == Bytes(words, n - 1)
  {}
}
