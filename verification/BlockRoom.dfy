/** How long a compressed block can be: the area behind the block always has room for it. */
module BlockRoom {
  import opened Bits
  import opened Codes
  import opened Mtf
  import opened BlockFormat
  import M = MtfEncode

  /** Header, map, counts, selectors and tables at their longest, and twenty bits a symbol. */
  const FIXED: nat := 105 + 272 + 18 + 6 * MAX_SELECTORS + 6 * TABLE
  const TABLE: nat := 5 + 39 * 258

  function Longest(nSymbols: nat): nat { FIXED + LONGEST * nSymbols }

  lemma {:induction false} MagicLength(magic: seq<nat>)
    ensures |MagicBits(magic)| == 8 * |magic|
  {
    if magic != [] { MagicLength(magic[1..]); }
  }

  lemma {:induction false} UseLength(inUse: seq<bool>, k: nat)
    requires |inUse| == 256 && k <= 16
    ensures |UseBits(inUse, k)| <= 16 * k
  {
    if k > 0 { UseLength(inUse, k - 1); }
  }

  lemma {:induction false} UnaryLength(j: nat)
    ensures |Unary(j)| == j + 1
  {
    if j > 0 { UnaryLength(j - 1); }
  }

  lemma {:induction false} UnaryListLength(s: seq<nat>)
    requires forall k :: 0 <= k < |s| ==> s[k] < 6
    ensures |UnaryList(s)| <= 6 * |s|
  {
    if s != [] {
      UnaryListLength(s[..|s| - 1]);
      UnaryLength(s[|s| - 1]);
    }
  }

  lemma {:induction false} DeltaLength(curr: nat, v: nat)
    ensures |DeltaBits(curr, v)| == 1 + 2 * if curr < v then v - curr else curr - v
    decreases if curr < v then v - curr else curr - v
  {
    if curr < v { DeltaLength(curr + 1, v); }
    if curr > v { DeltaLength(curr - 1, v); }
  }

  lemma {:induction false} DeltaListLength(start: nat, len: seq<nat>)
    requires 1 <= start <= LONGEST && LengthsIn(len, 1, LONGEST)
    ensures |DeltaList(start, len)| <= 39 * |len|
  {
    if len != [] {
      var front := len[..|len| - 1];
      DeltaListLength(start, front);
      DeltaLength(Current(start, front), len[|len| - 1]);
    }
  }

  lemma TableLength(len: seq<nat>)
    requires 1 <= |len| <= 258 && LengthsIn(len, 1, LONGEST)
    ensures |TableBits(len)| <= TABLE
  {
    hide DeltaList;
    DeltaListLength(len[0], len);
  }

  lemma {:induction false} TablesLength(tables: seq<seq<nat>>, alphaSize: nat)
    requires TablesIn(tables, alphaSize) && alphaSize <= 258
    ensures |TablesBits(tables, alphaSize)| <= TABLE * |tables|
  {
    hide TableBits, LengthsIn;
    if tables != [] {
      TablesLength(tables[..|tables| - 1], alphaSize);
      TableLength(tables[|tables| - 1]);
    }
  }

  lemma {:induction false} DataLength(syms: seq<nat>, tables: seq<seq<nat>>, sel: seq<nat>, i: nat, alphaSize: nat)
    requires i <= |syms| && Codable(syms, tables, sel) && TablesIn(tables, alphaSize)
    ensures |DataBits(syms, tables, sel, i)| <= LONGEST * (|syms| - i)
    decreases |syms| - i
  {
    hide CodeBits;
    if i < |syms| {
      DataLength(syms, tables, sel, i + 1, alphaSize);
      CodeLength(TableFor(i, tables, sel), syms[i]);
    }
  }

  lemma CodeLength(len: seq<nat>, s: nat)
    requires s < |len| && LengthsIn(len, 1, LONGEST)
    ensures |CodeBits(len, s)| <= LONGEST
  {}

  /** No block takes more bits than this. */
  lemma BlockLength(h: Header, c: Coding)
    requires Sendable(c)
    ensures |BlockBits(h, c)| <= Longest(|c.syms|)
  {
    hide UseBits, UnaryList, TablesBits, DataBits, Positions, MagicBits, M.Used, TablesIn, Codable, Prefix, BitsOf;
    MagicLength(MAGIC);
    UseLength(c.inUse, 16);
    SelectorsLength(|c.tables|, c.sel);
    TablesLength(c.tables, EndOfBlock(c.inUse) + 1);
    DataLength(c.syms, c.tables, c.sel, 0, EndOfBlock(c.inUse) + 1);
    assert TABLE * |c.tables| <= TABLE * 6;
  }

  lemma BlockNoLonger(h: Header, c: Coding, n: nat)
    requires Sendable(c) && |c.syms| <= n
    ensures |BlockBits(h, c)| <= Longest(n)
  {
    hide Sendable, BlockBits;
    BlockLength(h, c);
  }

  lemma SelectorsLength(nGroups: nat, sel: seq<nat>)
    requires Selects(sel, nGroups) && nGroups <= 6
    ensures |SelectorBits(nGroups, sel)| <= 18 + 6 * |sel|
  {
    hide UnaryList, Positions;
    SelectsDrawn(sel, nGroups);
    UnaryListLength(Positions(M.Identity(nGroups), sel));
  }

  /** The area behind a block of n bytes, of four bytes for every byte a block can have, holds the stream header, bits left
      over, the block and the stream trailer, to the end of the last byte. */
  lemma RoomEnough(n: nat, size100k: nat, words: nat)
    requires n <= 100000 * size100k && 1 <= size100k && words >= 100000 * size100k
    ensures 32 + 32 + Longest(n + 1) + 80 + 7 <= 8 * (4 * words - n)
  {}
}
