/** A word array whose first bytes are also addressed one at a time. */
module ByteArea {
  import opened Rotations

  function GetByte(w: nat, b: nat): Byte
    requires b < 4
  {
    if b == 0 then w % 256 else if b == 1 then w / 256 % 256
    else if b == 2 then w / 65536 % 256 else w / 0x100_0000 % 256
  }

  function ByteUnit(b: nat): nat {
    if b == 0 then 1 else if b == 1 then 256 else if b == 2 then 65536 else 0x100_0000
  }

  function PutByte(w: nat, b: nat, v: Byte): int
    requires b < 4
  {
    w - GetByte(w, b) * ByteUnit(b) + v * ByteUnit(b)
  }

  /** A word from its low bytes and the rest. */
  function Join(b0: Byte, b1: Byte, b2: Byte, b3: nat): nat {
    b0 + 256 * (b1 + 256 * (b2 + 256 * b3))
  }

  lemma Divide(b: Byte, x: nat)
    ensures (b + 256 * x) % 256 == b && (b + 256 * x) / 256 == x
  {}

  lemma JoinBytes(b0: Byte, b1: Byte, b2: Byte, b3: nat)
    ensures var w := Join(b0, b1, b2, b3);
            GetByte(w, 0) == b0 && GetByte(w, 1) == b1 && GetByte(w, 2) == b2 && GetByte(w, 3) == b3 % 256
  {
    Divide(b2, b3);
    Divide(b1, b2 + 256 * b3);
    Divide(b0, b1 + 256 * (b2 + 256 * b3));
    var w := Join(b0, b1, b2, b3);
    assert w / 256 / 256 == w / 65536 && w / 65536 / 256 == w / 0x100_0000;
  }

  lemma SplitWord(w: nat) returns (b0: Byte, b1: Byte, b2: Byte, b3: nat)
    ensures w == Join(b0, b1, b2, b3)
  {
    b0, b1, b2, b3 := w % 256, w / 256 % 256, w / 256 / 256 % 256, w / 256 / 256 / 256;
    var u := w / 256;
    assert u == b1 + 256 * (u / 256) && u / 256 == b2 + 256 * b3;
  }

  lemma PutByteCorrect(w: nat, b: nat, v: Byte, c: nat)
    requires b < 4 && c < 4
    ensures PutByte(w, b, v) >= 0
    ensures GetByte(PutByte(w, b, v), c) == if b == c then v else GetByte(w, c)
  {
    hide GetByte, PutByte, Join;
    var b0, b1, b2, b3 := SplitWord(w);
    JoinBytes(b0, b1, b2, b3);
    PutJoin(b0, b1, b2, b3, b, v);
    if b == 0 { JoinBytes(v, b1, b2, b3); }
    else if b == 1 { JoinBytes(b0, v, b2, b3); }
    else if b == 2 { JoinBytes(b0, b1, v, b3); }
    else {
      var b3' := b3 - b3 % 256 + v;
      assert b3' % 256 == v;
      JoinBytes(b0, b1, b2, b3');
    }
  }

  lemma PutJoin(b0: Byte, b1: Byte, b2: Byte, b3: nat, b: nat, v: Byte)
    requires b < 4
    ensures PutByte(Join(b0, b1, b2, b3), b, v) ==
            if b == 0 then Join(v, b1, b2, b3) else if b == 1 then Join(b0, v, b2, b3)
            else if b == 2 then Join(b0, b1, v, b3) else Join(b0, b1, b2, b3 - b3 % 256 + v)
  {
    hide GetByte;
    JoinBytes(b0, b1, b2, b3);
  }

  /** The first n bytes of the area. */
  function Bytes(words: seq<nat>, n: nat): (s: seq<Byte>)
    requires n <= 4 * |words|
    ensures |s| == n
  {
    seq(n, i requires 0 <= i < n => GetByte(words[i / 4], i % 4))
  }

  method StoreByte(area: array<nat>, i: nat, v: Byte)
    requires i < 4 * area.Length
    modifies area
    ensures forall n: nat :: i < n <= 4 * area.Length ==>
      Bytes(area[..], n) == old(Bytes(area[..], n))[i := v]
  {
    var w := area[i / 4];
    PutByteCorrect(w, i % 4, v, 0);
    area[i / 4] := PutByte(w, i % 4, v);
    forall n: nat | i < n <= 4 * area.Length
      ensures Bytes(area[..], n) == old(Bytes(area[..], n))[i := v]
    {
      forall k | 0 <= k < n
        ensures Bytes(area[..], n)[k] == if k == i then v else old(Bytes(area[..], n))[k]
      {
        PutByteCorrect(w, i % 4, v, k % 4);
      }
    }
  }
}
