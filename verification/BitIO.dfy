/** The bit buffers of the two directions: 32-bit registers filled from one end and drained a byte or a
    field at a time.  A register is described by its 32 bits. */
module BitIO {
  import opened Rotations
  import opened Words
  import opened Bits

  /** Shifting a register left by eight drops its top byte. */
  lemma ShiftOut(reg: bits)
    requires |reg| == 32
    ensures Shr(Value(reg), 24) == Value(reg[..8]) < 256
    ensures LowBits(Shl(Value(reg), 8), 32) == Value(reg[8..] + Clear(8))
  {
    hide Shr, Shl, LowBits, Value, Pow2, Clear;
    Pow2Byte();
    assert reg == reg[..8] + reg[8..];
    ValueSplit(reg[..8], reg[8..]);
    ValueClear(8);
    ValueConcat(reg, Clear(8));
    assert reg + Clear(8) == reg[..8] + (reg[8..] + Clear(8));
    ValueSplit(reg[..8], reg[8..] + Clear(8));
  }

  /** Shifting a byte in from the right. */
  lemma ShiftIn(reg: bits, b: Byte)
    requires |reg| == 32
    ensures Or(LowBits(Shl(Value(reg), 8), 32), b) == Value(reg[8..] + BitsOf(b, 8))
  {
    hide Shr, Shl, LowBits, Or, BitsOf, Value, Pow2, Clear;
    Pow2Byte();
    ShiftOut(reg);
    ValueClear(8);
    ValueConcat(reg[8..], Clear(8));
    ValueOfBits(b, 8);
    ValueConcat(reg[8..], BitsOf(b, 8));
    OrDisjoint(b, Value(reg[8..]), 8);
  }

  /** Oring a field into the clear part of a register. */
  lemma FieldIn(live: bits, n: nat, v: nat)
    requires |live| + n <= 32 && v < Pow2(n)
    ensures Or(Value(live + Clear(32 - |live|)), Shl(v, 32 - |live| - n)) ==
            Value(live + BitsOf(v, n) + Clear(32 - |live| - n))
  {
    hide Shr, Shl, LowBits, Or, BitsOf, Value, Pow2, Clear;
    var m := 32 - |live| - n;
    var low := BitsOf(v, n) + Clear(m);
    ValueOfBits(v, n);
    ValueClear(m);
    ValueConcat(BitsOf(v, n), Clear(m));
    ValueClear(n + m);
    ValueConcat(live, Clear(n + m));
    ValueConcat(live, low);
    assert live + low == live + BitsOf(v, n) + Clear(m);
    OrDisjoint(Value(low), Value(live), n + m);
  }

  /** Taking the top n live bits of a register whose live bits sit at the bottom. */
  lemma FieldOut(buff: nat, live: nat, n: nat, more: bits)
    requires buff < Pow2(32) && n <= live <= 32
    ensures var rest := BitsOf(buff, 32)[32 - live..] + more;
            LowBits(Shr(buff, live - n), n) == Value(rest[..n]) && BitsOf(buff, 32)[32 - (live - n)..] + more == rest[n..]
  {
    hide Value, Shr, LowBits, BitsOf, Pow2;
    var reg := BitsOf(buff, 32);
    ValueOfBits(buff, 32);
    var gone, field, kept := reg[..32 - live], reg[32 - live..32 - live + n], reg[32 - live + n..];
    assert reg == (gone + field) + kept;
    assert (reg[32 - live..] + more)[..n] == field;
    ValueSplit(gone + field, kept);
    ValueSplit(gone, field);
  }

  /** Output side: live bits sit at the top of bsBuff. */
  class BitWriter {
    var zbits: seq<Byte>
    var bsBuff: nat
    var bsLive: int
    ghost var live: bits

    /** bsLive ends at zero or below when a stream is finished; nothing is written after that. */
    ghost predicate Valid()
      reads this
    {
      -8 < bsLive <= 32 && |live| == (if bsLive < 0 then 0 else bsLive) && bsBuff == Value(live + Clear(32 - |live|))
    }

    /** Everything written so far. */
    ghost function Written(): bits
      reads this
    {
      ByteBits(zbits) + live
    }

    constructor ()
      ensures Valid() && Written() == [] && zbits == [] && bsLive == 0
    {
      zbits, bsBuff, bsLive, live := [], 0, 0, [];
      ValueClear(32);
      assert [] + Clear(32) == Clear(32);
    }

    /** Moves the top byte out. */
    method FlushByte()
      requires Valid() && bsLive > 0
      modifies this
      ensures Valid() && |zbits| == |old(zbits)| + 1 && old(zbits) <= zbits
      ensures bsLive == old(bsLive) - 8
      ensures Written() == old(Written()) + Clear(if old(bsLive) >= 8 then 0 else 8 - old(bsLive))
    {
      hide Value, Shl, Shr, LowBits, ByteBits, Pow2, BitsOf;
      ghost var reg := live + Clear(32 - |live|);
      ghost var k := if bsLive >= 8 then 8 else bsLive;
      ShiftOut(reg);
      BitsOfValue(reg[..8]);
      ByteBitsOne(zbits, Shr(bsBuff, 24));
      assert reg[..8] == live[..k] + Clear(8 - k);
      assert reg[8..] + Clear(8) == live[k..] + Clear(32 - (|live| - k));
      zbits := zbits + [Shr(bsBuff, 24)];
      bsBuff := LowBits(Shl(bsBuff, 8), 32);
      bsLive := bsLive - 8;
      live := live[k..];
    }

    /** Appends the low n bits of v. */
    method Put(n: nat, v: nat)
      requires Valid() && bsLive >= 0 && n <= 24 && v < Pow2(n)
      modifies this
      ensures Valid() && bsLive >= 0 && Written() == old(Written()) + BitsOf(v, n)
      ensures old(zbits) <= zbits
    {
      hide Shr, Shl, LowBits, Or, BitsOf, Value, Pow2, Clear, ByteBits;
      while bsLive >= 8
        invariant Valid() && bsLive >= 0 && Written() == old(Written()) && old(zbits) <= zbits
        decreases bsLive
      {
        FlushByte();
      }
      FieldIn(live, n, v);
      bsBuff := Or(bsBuff, Shl(v, 32 - bsLive - n));
      bsLive := bsLive + n;
      live := live + BitsOf(v, n);
    }

    /** Starts a new output area; the bits still in the register are kept. */
    method Restart()
      requires Valid()
      modifies this`zbits
      ensures Valid() && zbits == []
    {
      zbits := [];
    }

    /** Pads the last byte with zero bits and writes everything out. */
    method Finish() returns (ghost pad: nat)
      requires Valid() && bsLive >= 0
      modifies this
      ensures Valid() && bsLive <= 0 && pad < 8
      ensures ByteBits(zbits) == old(Written()) + Clear(pad) && old(zbits) <= zbits
    {
      pad := 0;
      while bsLive > 0
        invariant Valid() && Written() == old(Written()) + Clear(pad) && old(zbits) <= zbits
        invariant pad < 8 && (pad > 0 ==> bsLive <= 0)
        decreases bsLive
      {
        pad := if bsLive >= 8 then 0 else 8 - bsLive;
        FlushByte();
      }
    }
  }

  /** Input side: live bits sit at the bottom of bsBuff, refilled from the unread input. */
  class BitReader {
    var input: seq<Byte>
    var bsBuff: nat
    var bsLive: nat

    ghost predicate Valid()
      reads this
    {
      bsLive <= 32 && bsBuff < Pow2(32)
    }

    /** Everything still to be read. */
    ghost function Rest(): bits
      reads this
      requires Valid()
    {
      BitsOf(bsBuff, 32)[32 - bsLive..] + ByteBits(input)
    }

    constructor (data: seq<Byte>)
      ensures Valid() && Rest() == ByteBits(data)
    {
      input, bsBuff, bsLive := data, 0, 0;
      new;
      assert BitsOf(0, 32)[32..] == [];
    }

    /** Takes a byte of input into the buffer. */
    method Refill()
      requires Valid() && input != [] && bsLive <= 24
      modifies this
      ensures Valid() && bsLive == old(bsLive) + 8 && Rest() == old(Rest()) && |input| < |old(input)|
    {
      hide Value, Shl, Shr, LowBits, ByteBits, BitsOf, Or, Pow2;
      ghost var reg := BitsOf(bsBuff, 32);
      ValueOfBits(bsBuff, 32);
      ShiftIn(reg, input[0]);
      BitsOfValue(reg[8..] + BitsOf(input[0], 8));
      ByteBitsFront(input);
      bsBuff := Or(LowBits(Shl(bsBuff, 8), 32), input[0]);
      bsLive := bsLive + 8;
      input := input[1..];
    }

    /** The next n bits as a number, or a report that the input ran out. */
    method Get(n: nat) returns (ok: bool, v: nat)
      requires Valid() && n <= 24
      modifies this
      ensures Valid() && ok == (|old(Rest())| >= n)
      ensures ok ==> v == Value(old(Rest())[..n]) && Rest() == old(Rest())[n..]
      ensures !ok ==> Rest() == old(Rest())
    {
      hide Value, Shr, LowBits, BitsOf, Pow2, ByteBits;
      ok, v := true, 0;
      while bsLive < n
        invariant Valid() && Rest() == old(Rest())
        decreases |input|
      {
        if input == [] { return false, 0; }
        Refill();
      }
      FieldOut(bsBuff, bsLive, n, ByteBits(input));
      v := LowBits(Shr(bsBuff, bsLive - n), n);
      bsLive := bsLive - n;
    }
  }
}
