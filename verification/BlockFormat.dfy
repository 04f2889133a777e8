/** The bits of a compressed block: what the encoder writes and what the decoder makes of any input. */
module BlockFormat {
  import opened Rotations
  import opened Words
  import opened Bits
  import opened Codes
  import opened Bwt
  import opened Mtf
  import M = MtfEncode

  /** A field read from the front of the input; malformed data, the stream's first bytes apart from the rest; an input
      that ends too early; or more selectors than the decoder's arrays hold. */
  datatype Parsed<T> = Parsed(value: T, rest: bits) | Malformed | BadMagic | Short | Overrun
  {
    predicate IsFailure() {
      !Parsed?
    }

    function PropagateFailure<U>(): Parsed<U>
      requires IsFailure()
    {
      match this
      case Malformed => Malformed
      case BadMagic => BadMagic
      case Short => Short
      case Overrun => Overrun
    }

    function Extract(): (T, bits)
      requires !IsFailure()
    {
      (value, rest)
    }
  }

  const GROUP: nat := 50

  /** The sizes of the arrays for selectors. */
  const MAX_SELECTORS: nat := 18002

  function ReadField(n: nat, input: bits): (r: Parsed<nat>)
    ensures r.Parsed? ==> |r.rest| + n == |input|
  {
    if |input| < n then Short else Parsed(Value(input[..n]), input[n..])
  }

  lemma FieldRoundTrip(v: nat, n: nat, rest: bits)
    requires v < Pow2(n)
    ensures ReadField(n, BitsOf(v, n) + rest) == Parsed(v, rest)
  {
    ValueOfBits(v, n);
    assert (BitsOf(v, n) + rest)[..n] == BitsOf(v, n) && (BitsOf(v, n) + rest)[n..] == rest;
  }

  // ----- header -----

  const MAGIC: seq<nat> := [0x31, 0x41, 0x59, 0x26, 0x53, 0x59]

  function MagicBits(magic: seq<nat>): bits {
    if magic == [] then [] else BitsOf(magic[0], 8) + MagicBits(magic[1..])
  }

  /** Checks the input against the magic bytes one by one. */
  function ReadMagic(magic: seq<nat>, input: bits): (r: Parsed<()>)
    ensures r.Parsed? ==> |r.rest| <= |input|
  {
    if magic == [] then Parsed((), input)
    else
      var (uc, rest) :- ReadField(8, input);
      if uc != magic[0] then Malformed else ReadMagic(magic[1..], rest)
  }

  lemma {:induction false} MagicRoundTrip(magic: seq<nat>, rest: bits)
    requires forall k :: 0 <= k < |magic| ==> magic[k] < 256
    ensures ReadMagic(magic, MagicBits(magic) + rest) == Parsed((), rest)
  {
    hide ReadField, BitsOf;
    if magic == [] {
      assert [] + rest == rest;
    } else {
      var more := MagicBits(magic[1..]) + rest;
      assert Pow2(8) == 256;
      FieldRoundTrip(magic[0], 8, more);
      assert MagicBits(magic) + rest == BitsOf(magic[0], 8) + more;
      MagicRoundTrip(magic[1..], rest);
    }
  }

  datatype Header = Header(crc: nat, randomised: nat, origPtr: nat)

  /** The stored block CRC is sent as four bytes, the row number of the block itself as 24 bits. */
  function HeaderBits(h: Header): bits {
    MagicBits(MAGIC) + (BitsOf(h.crc, 32) + (BitsOf(h.randomised, 1) + BitsOf(h.origPtr, 24)))
  }

  function ReadHeader(size100k: nat, input: bits): (r: Parsed<Header>)
    ensures r.Parsed? ==> |r.rest| < |input|
  {
    var (_, r1) :- ReadMagic(MAGIC, input);
    var (crc, r2) :- ReadField(32, r1);
    var (randomised, r3) :- ReadField(1, r2);
    var (origPtr, r4) :- ReadField(24, r3);
    if origPtr > 10 + 100000 * size100k then Malformed else Parsed(Header(crc, randomised, origPtr), r4)
  }

  lemma HeaderRoundTrip(size100k: nat, h: Header, rest: bits)
    requires h.crc < Pow2(32) && h.randomised < Pow2(1) && h.origPtr < Pow2(24) && h.origPtr <= 10 + 100000 * size100k
    ensures ReadHeader(size100k, HeaderBits(h) + rest) == Parsed(h, rest)
  {
    hide ReadField, BitsOf, ReadMagic, MagicBits, Pow2;
    var t3 := BitsOf(h.origPtr, 24) + rest;
    var t2 := BitsOf(h.randomised, 1) + t3;
    var t1 := BitsOf(h.crc, 32) + t2;
    assert HeaderBits(h) + rest == MagicBits(MAGIC) + t1;
    MagicRoundTrip(MAGIC, t1);
    FieldRoundTrip(h.crc, 32, t2);
    FieldRoundTrip(h.randomised, 1, t3);
    FieldRoundTrip(h.origPtr, 24, rest);
  }

  // ----- the bytes in use -----

  /** Group k of sixteen bytes has a byte in use. */
  predicate GroupUsed(inUse: seq<bool>, k: nat)
    requires |inUse| == 256 && k < 16
  {
    true in inUse[16 * k..16 * k + 16]
  }

  function Groups(inUse: seq<bool>): (r: bits)
    requires |inUse| == 256
    ensures |r| == 16
  {
    seq(16, k requires 0 <= k < 16 => GroupUsed(inUse, k))
  }

  /** The flags of the first k groups, groups not in use left out. */
  function UseBits(inUse: seq<bool>, k: nat): bits
    requires |inUse| == 256 && k <= 16
  {
    if k == 0 then []
    else UseBits(inUse, k - 1) + if GroupUsed(inUse, k - 1) then inUse[16 * (k - 1)..16 * k] else []
  }

  function MapBits(inUse: seq<bool>): bits
    requires |inUse| == 256
  {
    Groups(inUse) + UseBits(inUse, 16)
  }

  function ReadUse(groups: bits, k: nat, input: bits): (r: Parsed<bits>)
    requires k <= |groups|
    ensures r.Parsed? ==> |r.value| == 16 * k
    ensures r.Parsed? ==> |r.rest| <= |input|
  {
    if k == 0 then Parsed([], input)
    else
      var (front, mid) :- ReadUse(groups, k - 1, input);
      if !groups[k - 1] then Parsed(front + Clear(16), mid)
      else if |mid| < 16 then Short
      else Parsed(front + mid[..16], mid[16..])
  }

  function ReadMap(input: bits): (r: Parsed<bits>)
    ensures r.Parsed? ==> |r.value| == 256
    ensures r.Parsed? ==> |r.rest| <= |input|
  {
    if |input| < 16 then Short else ReadUse(input[..16], 16, input[16..])
  }

  /** The flags of one group, or nothing when they are all clear. */
  function GroupBits(inUse: seq<bool>, k: nat): bits
    requires |inUse| == 256 && 1 <= k <= 16
  {
    if GroupUsed(inUse, k - 1) then inUse[16 * (k - 1)..16 * k] else []
  }

  lemma GroupClear(inUse: seq<bool>, k: nat)
    requires |inUse| == 256 && 1 <= k <= 16 && !GroupUsed(inUse, k - 1)
    ensures inUse[16 * (k - 1)..16 * k] == Clear(16)
  {
    var group := inUse[16 * (k - 1)..16 * k];
    assert group == inUse[16 * (k - 1)..16 * (k - 1) + 16];
    forall j | 0 <= j < 16 ensures !group[j] { assert group[j] in group; }
  }

  lemma UseNext(inUse: seq<bool>, k: nat, rest: bits)
    requires |inUse| == 256 && 1 <= k <= 16
    requires ReadUse(Groups(inUse), k - 1, UseBits(inUse, k) + rest) == Parsed(inUse[..16 * (k - 1)], GroupBits(inUse, k) + rest)
    ensures ReadUse(Groups(inUse), k, UseBits(inUse, k) + rest) == Parsed(inUse[..16 * k], rest)
  {
    hide GroupUsed, UseBits;
    var group, mid := inUse[16 * (k - 1)..16 * k], GroupBits(inUse, k) + rest;
    assert Groups(inUse)[k - 1] == GroupUsed(inUse, k - 1);
    if GroupUsed(inUse, k - 1) {
      assert mid[..16] == group && mid[16..] == rest;
    } else {
      GroupClear(inUse, k);
      assert mid == rest;
    }
    assert inUse[..16 * k] == inUse[..16 * (k - 1)] + group;
  }

  lemma {:induction false} UseRoundTrip(inUse: seq<bool>, k: nat, rest: bits)
    requires |inUse| == 256 && k <= 16
    ensures ReadUse(Groups(inUse), k, UseBits(inUse, k) + rest) == Parsed(inUse[..16 * k], rest)
  {
    hide GroupUsed, Groups;
    if k == 0 {
      assert [] + rest == rest && inUse[..0] == [];
    } else {
      UseRoundTrip(inUse, k - 1, GroupBits(inUse, k) + rest);
      assert UseBits(inUse, k) + rest == UseBits(inUse, k - 1) + (GroupBits(inUse, k) + rest);
      UseNext(inUse, k, rest);
    }
  }

  lemma MapRoundTrip(inUse: seq<bool>, rest: bits)
    requires |inUse| == 256
    ensures ReadMap(MapBits(inUse) + rest) == Parsed(inUse, rest)
  {
    hide ReadUse, UseBits;
    var input := MapBits(inUse) + rest;
    assert input[..16] == Groups(inUse) && input[16..] == UseBits(inUse, 16) + rest;
    UseRoundTrip(inUse, 16, rest);
    assert inUse[..256] == inUse;
  }

  // ----- selectors -----

  /** j ones and a zero. */
  function Unary(j: nat): bits {
    if j == 0 then [false] else [true] + Unary(j - 1)
  }

  function ReadUnary(nGroups: nat, j: nat, input: bits): (r: Parsed<nat>)
    requires j < nGroups
    ensures r.Parsed? ==> j <= r.value < nGroups
    ensures r.Parsed? ==> |r.rest| <= |input|
    decreases nGroups - j
  {
    if input == [] then Short
    else if !input[0] then Parsed(j, input[1..])
    else if j + 1 >= nGroups then Malformed
    else ReadUnary(nGroups, j + 1, input[1..])
  }

  lemma {:induction false} UnaryRoundTrip(nGroups: nat, j: nat, k: nat, rest: bits)
    requires j + k < nGroups
    ensures ReadUnary(nGroups, j, Unary(k) + rest) == Parsed(j + k, rest)
    decreases k
  {
    var input := Unary(k) + rest;
    if k == 0 {
      assert input[1..] == rest;
    } else {
      assert input[1..] == Unary(k - 1) + rest;
      UnaryRoundTrip(nGroups, j + 1, k - 1, rest);
    }
  }

  function UnaryList(s: seq<nat>): bits {
    if s == [] then [] else UnaryList(s[..|s| - 1]) + Unary(s[|s| - 1])
  }

  function ReadUnaryList(nGroups: nat, n: nat, input: bits): (r: Parsed<seq<nat>>)
    requires nGroups > 0
    ensures r.Parsed? ==> |r.value| == n && forall k :: 0 <= k < n ==> r.value[k] < nGroups
    ensures r.Parsed? ==> |r.rest| <= |input|
  {
    if n == 0 then Parsed([], input)
    else
      var (front, mid) :- ReadUnaryList(nGroups, n - 1, input);
      var (j, rest) :- ReadUnary(nGroups, 0, mid);
      Parsed(front + [j], rest)
  }

  lemma {:induction false} UnaryListRoundTrip(nGroups: nat, s: seq<nat>, rest: bits)
    requires nGroups > 0 && forall k :: 0 <= k < |s| ==> s[k] < nGroups
    ensures ReadUnaryList(nGroups, |s|, UnaryList(s) + rest) == Parsed(s, rest)
  {
    if s == [] {
      assert [] + rest == rest;
    } else {
      hide Unary, ReadUnary;
      var front, j := s[..|s| - 1], s[|s| - 1];
      assert UnaryList(s) + rest == UnaryList(front) + (Unary(j) + rest);
      UnaryListRoundTrip(nGroups, front, Unary(j) + rest);
      UnaryRoundTrip(nGroups, 0, j, rest);
      assert s == front + [j];
    }
  }

  /** Every selector names a table. */
  predicate Selects(sel: seq<nat>, nGroups: nat) {
    forall k :: 0 <= k < |sel| ==> sel[k] < nGroups
  }

  lemma SelectsDrawn(sel: seq<nat>, nGroups: nat)
    requires Selects(sel, nGroups)
    ensures Drawn(sel, M.Identity(nGroups))
  {
    forall k | 0 <= k < |sel| ensures sel[k] in M.Identity(nGroups) { assert M.Identity(nGroups)[sel[k]] == sel[k]; }
  }

  /** Number of tables, number of selectors, and the selectors as list positions in unary. */
  function SelectorBits(nGroups: nat, sel: seq<nat>): bits
    requires Selects(sel, nGroups)
  {
    SelectsDrawn(sel, nGroups);
    BitsOf(nGroups, 3) + (BitsOf(|sel|, 15) + UnaryList(Positions(M.Identity(nGroups), sel)))
  }

  datatype Selection = Selection(nGroups: nat, sel: seq<nat>)

  function ReadSelectors(input: bits): (r: Parsed<Selection>)
    ensures r.Parsed? ==> 2 <= r.value.nGroups <= 6 && |r.value.sel| >= 1 && Selects(r.value.sel, r.value.nGroups)
    ensures r.Parsed? ==> |r.rest| <= |input|
  {
    var (nGroups, r1) :- ReadField(3, input);
    if nGroups < 2 || nGroups > 6 then Malformed
    else
      var (nSelectors, r2) :- ReadField(15, r1);
      if nSelectors < 1 then Malformed else Selectors(nGroups, nSelectors, r2)
  }

  /** The selectors; their number is not checked against the arrays they go to. */
  function Selectors(nGroups: nat, nSelectors: nat, input: bits): (r: Parsed<Selection>)
    requires nGroups >= 1 && nSelectors >= 1
    ensures r.Parsed? ==> r.value.nGroups == nGroups && |r.value.sel| == nSelectors && Selects(r.value.sel, nGroups)
    ensures r.Parsed? ==> |r.rest| <= |input|
  {
    var (selMtf, rest) :- ReadUnaryList(nGroups, if nSelectors > MAX_SELECTORS then MAX_SELECTORS + 1 else nSelectors, input);
    if nSelectors > MAX_SELECTORS then Overrun
    else
      LookupsOnList(M.Identity(nGroups), selMtf, nGroups);
      Parsed(Selection(nGroups, Lookups(M.Identity(nGroups), selMtf).0), rest)
  }

  lemma {:induction false} NeverOverrun(nGroups: nat, n: nat, input: bits)
    requires nGroups > 0
    ensures !ReadUnaryList(nGroups, n, input).Overrun?
  {
    if n > 0 {
      NeverOverrun(nGroups, n - 1, input);
      var p := ReadUnaryList(nGroups, n - 1, input);
      if p.Parsed? { UnaryNever(nGroups, 0, p.rest); }
    }
  }

  lemma {:induction false} UnaryNever(nGroups: nat, j: nat, input: bits)
    requires j < nGroups
    ensures !ReadUnary(nGroups, j, input).Overrun?
    decreases nGroups - j
  {
    if input != [] && input[0] && j + 1 < nGroups { UnaryNever(nGroups, j + 1, input[1..]); }
  }

  /** Storing the selectors leaves the arrays exactly when a selector beyond their size arrives. */
  lemma OverrunExactly(nGroups: nat, nSelectors: nat, input: bits)
    requires nGroups >= 1 && nSelectors >= 1
    ensures Selectors(nGroups, nSelectors, input).Overrun? <==>
      nSelectors > MAX_SELECTORS && ReadUnaryList(nGroups, MAX_SELECTORS + 1, input).Parsed?
  {
    hide ReadUnaryList, Lookups;
    NeverOverrun(nGroups, if nSelectors > MAX_SELECTORS then MAX_SELECTORS + 1 else nSelectors, input);
  }

  function ZeroBits(n: nat): (r: bits)
    ensures |r| == n
  {
    seq(n, _ => false)
  }

  lemma {:induction false} ZeroUnary(n: nat)
    ensures UnaryList(Zeros(n)) == ZeroBits(n)
  {
    if n > 0 {
      ZeroUnary(n - 1);
      assert Zeros(n)[..n - 1] == Zeros(n - 1) && ZeroBits(n) == ZeroBits(n - 1) + [false];
    }
  }

  /** Every store stays in the arrays, whatever follows, if and only if the field says no more than they hold. */
  lemma StoresInRange(nGroups: nat, nSelectors: nat)
    requires nGroups >= 1 && nSelectors >= 1
    ensures (forall input :: !Selectors(nGroups, nSelectors, input).Overrun?) <==> nSelectors <= MAX_SELECTORS
  {
    hide Selectors, ReadUnaryList, UnaryList;
    forall input ensures Selectors(nGroups, nSelectors, input).Overrun? <==>
      nSelectors > MAX_SELECTORS && ReadUnaryList(nGroups, MAX_SELECTORS + 1, input).Parsed? { OverrunExactly(nGroups, nSelectors, input); }
    var input := ZeroBits(MAX_SELECTORS + 1);
    ZeroUnary(MAX_SELECTORS + 1);
    UnaryListRoundTrip(nGroups, Zeros(MAX_SELECTORS + 1), []);
    assert input + [] == input;
    assert Selectors(nGroups, nSelectors, input).Overrun? <==> nSelectors > MAX_SELECTORS;
  }

  /** A header that says one more than they hold, followed by that many zero bits: the last store is out of range. */
  lemma OneTooMany()
    ensures ReadSelectors(BitsOf(2, 3) + (BitsOf(MAX_SELECTORS + 1, 15) + ZeroBits(MAX_SELECTORS + 1))).Overrun?
  {
    hide Selectors, ReadUnaryList, UnaryList, ReadField, BitsOf;
    var n, t := MAX_SELECTORS + 1, ZeroBits(MAX_SELECTORS + 1);
    assert Pow2(3) == 8 && n < Pow2(15) by { FifteenBits(); }
    FieldRoundTrip(2, 3, BitsOf(n, 15) + t);
    FieldRoundTrip(n, 15, t);
    OverrunExactly(2, n, t);
    ZeroUnary(n);
    UnaryListRoundTrip(2, Zeros(n), []);
    assert t + [] == t;
  }

  /** The same as a block: one byte in use, and more selectors than there is room for. */
  lemma BlockTooMany(size100k: nat)
    ensures ReadBlock(size100k, OverfullBlock()).Overrun?
  {
    hide ReadHeader, ReadMap, HeaderBits, MapBits, ReadSelectors, ZeroBits, BitsOf, Pow2, M.Used;
    var h, inUse := Header(0, 0, 0), [true] + Clear(255);
    var sel := BitsOf(2, 3) + (BitsOf(MAX_SELECTORS + 1, 15) + ZeroBits(MAX_SELECTORS + 1));
    HeaderRoundTrip(size100k, h, MapBits(inUse) + sel);
    MapRoundTrip(inUse, sel);
    OneUsed(inUse);
    OneTooMany();
  }

  function OverfullBlock(): bits {
    HeaderBits(Header(0, 0, 0)) +
    (MapBits([true] + Clear(255)) + (BitsOf(2, 3) + (BitsOf(MAX_SELECTORS + 1, 15) + ZeroBits(MAX_SELECTORS + 1))))
  }

  lemma OneUsed(inUse: seq<bool>)
    requires |inUse| == 256 && inUse[0]
    ensures |M.Used(inUse, 256)| > 0
  {
    UsedFront(inUse, 256);
  }

  lemma {:induction false} UsedFront(inUse: seq<bool>, k: nat)
    requires 1 <= k <= |inUse| && inUse[0]
    ensures |M.Used(inUse, k)| > 0
  {
    if k > 1 { UsedFront(inUse, k - 1); }
  }

  lemma FifteenBits()
    ensures Pow2(3) == 8 && Pow2(15) == 0x8000
  {
    assert Pow2(8) == 256 && Pow2(7) == 128;
    Pow2Sum(8, 7);
  }

  /** Looked-up values are values of the list. */
  lemma {:induction false} LookupsOnList(list: seq<nat>, pos: seq<nat>, n: nat)
    requires (forall k :: 0 <= k < |pos| ==> pos[k] < |list|) && (forall k :: 0 <= k < |list| ==> list[k] < n)
    ensures forall k :: 0 <= k < |pos| ==> Lookups(list, pos).0[k] < n
    ensures forall k :: 0 <= k < |list| ==> Lookups(list, pos).1[k] < n
  {
    if pos != [] { LookupsOnList(list, pos[..|pos| - 1], n); }
  }

  lemma SelectorsRoundTrip(nGroups: nat, sel: seq<nat>, rest: bits)
    requires 2 <= nGroups <= 6 && 1 <= |sel| <= MAX_SELECTORS && Selects(sel, nGroups)
    ensures ReadSelectors(SelectorBits(nGroups, sel) + rest) == Parsed(Selection(nGroups, sel), rest)
  {
    hide ReadField, BitsOf, Positions, Lookups, UnaryList, ReadUnaryList;
    SelectsDrawn(sel, nGroups);
    var id := M.Identity(nGroups);
    var pos := Positions(id, sel);
    var t2 := UnaryList(pos) + rest;
    var t1 := BitsOf(|sel|, 15) + t2;
    assert SelectorBits(nGroups, sel) + rest == BitsOf(nGroups, 3) + t1;
    FifteenBits();
    FieldRoundTrip(nGroups, 3, t1);
    FieldRoundTrip(|sel|, 15, t2);
    UnaryListRoundTrip(nGroups, pos, rest);
    LookupsInvert(id, sel);
  }

  // ----- code lengths -----

  /** Steps of one from curr to v, and an end mark. */
  function DeltaBits(curr: nat, v: nat): bits
    decreases if curr < v then v - curr else curr - v
  {
    if curr < v then [true, false] + DeltaBits(curr + 1, v)
    else if curr > v then [true, true] + DeltaBits(curr - 1, v)
    else [false]
  }

  function ReadDelta(curr: int, input: bits): (r: Parsed<nat>)
    ensures r.Parsed? ==> 1 <= r.value <= LONGEST
    ensures r.Parsed? ==> |r.rest| <= |input|
    decreases |input|
  {
    if curr < 1 || curr > LONGEST then Malformed
    else if input == [] then Short
    else if !input[0] then Parsed(curr, input[1..])
    else if |input| == 1 then Short
    else if !input[1] then ReadDelta(curr + 1, input[2..])
    else ReadDelta(curr - 1, input[2..])
  }

  lemma {:induction false} DeltaRoundTrip(curr: nat, v: nat, rest: bits)
    requires 1 <= curr <= LONGEST && 1 <= v <= LONGEST
    ensures ReadDelta(curr, DeltaBits(curr, v) + rest) == Parsed(v, rest)
    decreases if curr < v then v - curr else curr - v
  {
    var input := DeltaBits(curr, v) + rest;
    if curr < v {
      assert input[2..] == DeltaBits(curr + 1, v) + rest;
      DeltaRoundTrip(curr + 1, v, rest);
    } else if curr > v {
      assert input[2..] == DeltaBits(curr - 1, v) + rest;
      DeltaRoundTrip(curr - 1, v, rest);
    } else {
      assert input[1..] == rest;
    }
  }

  /** The length in force after the given ones: the last, or the start value. */
  function Current(start: nat, len: seq<nat>): nat {
    if len == [] then start else len[|len| - 1]
  }

  function DeltaList(start: nat, len: seq<nat>): bits {
    if len == [] then []
    else DeltaList(start, len[..|len| - 1]) + DeltaBits(Current(start, len[..|len| - 1]), len[|len| - 1])
  }

  function ReadDeltaList(start: nat, n: nat, input: bits): (r: Parsed<seq<nat>>)
    ensures r.Parsed? ==> |r.value| == n && LengthsIn(r.value, 1, LONGEST)
    ensures r.Parsed? ==> |r.rest| <= |input|
  {
    if n == 0 then Parsed([], input)
    else
      var (front, mid) :- ReadDeltaList(start, n - 1, input);
      var (v, rest) :- ReadDelta(Current(start, front), mid);
      Parsed(front + [v], rest)
  }

  lemma {:induction false} DeltaListRoundTrip(start: nat, len: seq<nat>, rest: bits)
    requires 1 <= start <= LONGEST && LengthsIn(len, 1, LONGEST)
    ensures ReadDeltaList(start, |len|, DeltaList(start, len) + rest) == Parsed(len, rest)
  {
    if len == [] {
      assert [] + rest == rest;
    } else {
      hide DeltaBits, ReadDelta;
      var front, v := len[..|len| - 1], len[|len| - 1];
      var curr := Current(start, front);
      assert DeltaList(start, len) + rest == DeltaList(start, front) + (DeltaBits(curr, v) + rest);
      DeltaListRoundTrip(start, front, DeltaBits(curr, v) + rest);
      DeltaRoundTrip(curr, v, rest);
      assert len == front + [v];
    }
  }

  /** One table: its first length in five bits, then every length as a difference. */
  function TableBits(len: seq<nat>): bits
    requires len != []
  {
    BitsOf(len[0], 5) + DeltaList(len[0], len)
  }

  function ReadTable(alphaSize: nat, input: bits): (r: Parsed<seq<nat>>)
    ensures r.Parsed? ==> |r.value| == alphaSize && LengthsIn(r.value, 1, LONGEST)
    ensures r.Parsed? ==> |r.rest| <= |input|
  {
    var (start, r1) :- ReadField(5, input);
    ReadDeltaList(start, alphaSize, r1)
  }

  lemma TableRoundTrip(len: seq<nat>, rest: bits)
    requires len != [] && LengthsIn(len, 1, LONGEST)
    ensures ReadTable(|len|, TableBits(len) + rest) == Parsed(len, rest)
  {
    hide ReadField, BitsOf, DeltaList, ReadDeltaList;
    var t1 := DeltaList(len[0], len) + rest;
    assert TableBits(len) + rest == BitsOf(len[0], 5) + t1;
    assert Pow2(5) == 32;
    FieldRoundTrip(len[0], 5, t1);
    DeltaListRoundTrip(len[0], len, rest);
  }

  /** Tables for an alphabet: lengths in range. */
  predicate TablesIn(tables: seq<seq<nat>>, alphaSize: nat) {
    alphaSize > 0 && forall t :: 0 <= t < |tables| ==> |tables[t]| == alphaSize && LengthsIn(tables[t], 1, LONGEST)
  }

  function TablesBits(tables: seq<seq<nat>>, alphaSize: nat): bits
    requires TablesIn(tables, alphaSize)
  {
    if tables == [] then []
    else TablesBits(tables[..|tables| - 1], alphaSize) + TableBits(tables[|tables| - 1])
  }

  function ReadTables(n: nat, alphaSize: nat, input: bits): (r: Parsed<seq<seq<nat>>>)
    requires alphaSize > 0
    ensures r.Parsed? ==> |r.value| == n && TablesIn(r.value, alphaSize)
    ensures r.Parsed? ==> |r.rest| <= |input|
  {
    if n == 0 then Parsed([], input)
    else
      var (front, mid) :- ReadTables(n - 1, alphaSize, input);
      var (len, rest) :- ReadTable(alphaSize, mid);
      Parsed(front + [len], rest)
  }

  lemma {:induction false} TablesRoundTrip(tables: seq<seq<nat>>, alphaSize: nat, rest: bits)
    requires TablesIn(tables, alphaSize)
    ensures ReadTables(|tables|, alphaSize, TablesBits(tables, alphaSize) + rest) == Parsed(tables, rest)
  {
    if tables == [] {
      assert [] + rest == rest;
    } else {
      hide ReadTable, TableBits;
      var front, len := tables[..|tables| - 1], tables[|tables| - 1];
      assert TablesBits(tables, alphaSize) + rest == TablesBits(front, alphaSize) + (TableBits(len) + rest);
      TablesRoundTrip(front, alphaSize, TableBits(len) + rest);
      TableRoundTrip(len, rest);
      assert tables == front + [len];
    }
  }

  // ----- the data -----

  /** The table in force for symbol i: selectors change every fifty symbols. */
  predicate Covered(i: nat, tables: seq<seq<nat>>, sel: seq<nat>) {
    i / GROUP < |sel| && sel[i / GROUP] < |tables|
  }

  function TableFor(i: nat, tables: seq<seq<nat>>, sel: seq<nat>): seq<nat>
    requires Covered(i, tables, sel)
  {
    tables[sel[i / GROUP]]
  }

  /** Every symbol has a table with a code for it. */
  predicate Codable(syms: seq<nat>, tables: seq<seq<nat>>, sel: seq<nat>) {
    forall i :: 0 <= i < |syms| ==> Covered(i, tables, sel) && syms[i] < |TableFor(i, tables, sel)|
  }

  /** The codes of symbols i and up. */
  function DataBits(syms: seq<nat>, tables: seq<seq<nat>>, sel: seq<nat>, i: nat): bits
    requires i <= |syms| && Codable(syms, tables, sel)
    decreases |syms| - i
  {
    if i == |syms| then []
    else CodeBits(TableFor(i, tables, sel), syms[i]) + DataBits(syms, tables, sel, i + 1)
  }

  /** Positions decoded so far, pending run included. */
  function Size(st: Runs): nat {
    if st.Bad? then 0 else |st.pos| + st.es
  }

  /** One symbol, refusing blocks longer than max. */
  function Step(st: Runs, sym: nat, max: nat): Runs {
    if sym != RUNA && sym != RUNB && Size(st) >= max then Runs.Bad else Absorb(st, sym)
  }

  predicate AllBelow(pos: seq<nat>, n: nat) {
    forall k :: 0 <= k < |pos| ==> pos[k] < n
  }

  /** What follows once symbol i has been read. */
  function AfterSymbol(max: nat, tables: seq<seq<nat>>, sel: seq<nat>, eob: nat, i: nat, st: Runs, sym: nat, rest: bits): (r: Parsed<seq<nat>>)
    requires Selects(sel, |tables|) && TablesIn(tables, eob + 1) && eob >= 2 && st.Runs? && AllBelow(st.pos, eob - 1) && sym <= eob
    requires i < GROUP * |sel|
    ensures r.Parsed? ==> AllBelow(r.value, eob - 1) && |r.value| <= max && |r.rest| <= |rest|
    decreases GROUP * |sel| - i, 0
  {
    if sym == eob then
      if Size(st) > max then Malformed else Parsed(Finish(st), rest)
    else
      var next := Step(st, sym, max);
      if next.Bad? then Malformed else ReadData(max, tables, sel, eob, i + 1, next, rest)
  }

  /** Reads symbols from the i-th on. */
  function ReadData(max: nat, tables: seq<seq<nat>>, sel: seq<nat>, eob: nat, i: nat, st: Runs, input: bits): (r: Parsed<seq<nat>>)
    requires Selects(sel, |tables|) && TablesIn(tables, eob + 1) && eob >= 2 && st.Runs? && AllBelow(st.pos, eob - 1)
    ensures r.Parsed? ==> AllBelow(r.value, eob - 1) && |r.value| <= max && |r.rest| <= |input|
    decreases GROUP * |sel| - i, 1
  {
    if i / GROUP >= |sel| then Malformed
    else match DecodeSymbol(TableFor(i, tables, sel), input)
      case Corrupt => Malformed
      case Truncated => Short
      case Symbol(sym, rest) => AfterSymbol(max, tables, sel, eob, i, st, sym, rest)
  }

  /** Symbols never shrink what has been decoded, and a refusal is final. */
  lemma {:induction false} AbsorbGrows(syms: seq<nat>, i: nat)
    requires i <= |syms| && AbsorbAll(START, syms).Runs?
    ensures AbsorbAll(START, syms[..i]).Runs? && Size(AbsorbAll(START, syms[..i])) <= Size(AbsorbAll(START, syms))
    ensures AbsorbAll(START, syms[..i]).pos <= AbsorbAll(START, syms).pos
    decreases |syms| - i
  {
    if i == |syms| {
      assert syms[..i] == syms;
    } else {
      AbsorbGrows(syms, i + 1);
      AbsorbOne(START, syms[..i], syms[i]);
      assert syms[..i + 1] == syms[..i] + [syms[i]];
      AbsorbSize(AbsorbAll(START, syms[..i]), syms[i]);
    }
  }

  lemma AbsorbSize(st: Runs, sym: nat)
    requires Absorb(st, sym).Runs?
    ensures st.Runs? && Size(st) <= Size(Absorb(st, sym)) && st.pos <= Absorb(st, sym).pos
    ensures sym != RUNA && sym != RUNB ==> Size(st) < Size(Absorb(st, sym))
  {
    if sym == RUNA || sym == RUNB { assert (sym + 1) * st.n >= 0; }
  }

  /** Codes of every table fit: the encoder's tables. */
  predicate Prefix(tables: seq<seq<nat>>) {
    forall t :: 0 <= t < |tables| ==> LengthsIn(tables[t], 1, LONGEST) && Kraft(tables[t])
  }

  /** A symbol stream that ends in, and only in, the end-of-block symbol. */
  predicate Ends(syms: seq<nat>, eob: nat) {
    syms != [] && syms[|syms| - 1] == eob && forall k :: 0 <= k < |syms| - 1 ==> syms[k] != eob
  }

  lemma PrefixBelow(pos: seq<nat>, st: Runs, n: nat)
    requires st.Runs? && pos <= st.pos && AllBelow(Finish(st), n)
    ensures AllBelow(pos, n)
  {
    forall k | 0 <= k < |pos| ensures pos[k] < n { assert pos[k] == Finish(st)[k]; }
  }

  /** Reading symbol i where it has been written. */
  lemma ReadOne(max: nat, tables: seq<seq<nat>>, sel: seq<nat>, eob: nat, syms: seq<nat>, i: nat, st: Runs, rest: bits)
    requires Selects(sel, |tables|) && TablesIn(tables, eob + 1) && eob >= 2 && Prefix(tables) && Codable(syms, tables, sel)
    requires i < |syms| && st.Runs? && AllBelow(st.pos, eob - 1)
    ensures i < GROUP * |sel| && syms[i] <= eob
    ensures ReadData(max, tables, sel, eob, i, st, DataBits(syms, tables, sel, i) + rest) ==
            AfterSymbol(max, tables, sel, eob, i, st, syms[i], DataBits(syms, tables, sel, i + 1) + rest)
  {
    hide DecodeSymbol, CodeBits, Kraft, AllBelow, AfterSymbol;
    assert Covered(i, tables, sel);
    var len := TableFor(i, tables, sel);
    var more := DataBits(syms, tables, sel, i + 1) + rest;
    DecodeCode(len, syms[i], more);
    assert DataBits(syms, tables, sel, i) + rest == CodeBits(len, syms[i]) + more;
  }

  lemma {:induction false} DataRoundTrip(max: nat, tables: seq<seq<nat>>, sel: seq<nat>, eob: nat, syms: seq<nat>, i: nat, rest: bits)
    requires Selects(sel, |tables|) && TablesIn(tables, eob + 1) && eob >= 2 && Prefix(tables)
    requires Codable(syms, tables, sel) && Ends(syms, eob) && i < |syms|
    requires var st := AbsorbAll(START, syms[..|syms| - 1]); st.Runs? && Size(st) <= max
    requires AllBelow(Finish(AbsorbAll(START, syms[..|syms| - 1])), eob - 1)
    ensures AbsorbAll(START, syms[..i]).Runs? && AllBelow(AbsorbAll(START, syms[..i]).pos, eob - 1)
    ensures ReadData(max, tables, sel, eob, i, AbsorbAll(START, syms[..i]), DataBits(syms, tables, sel, i) + rest) ==
            Parsed(Finish(AbsorbAll(START, syms[..|syms| - 1])), rest)
    decreases |syms| - i
  {
    hide Absorb, DataBits, AbsorbAll, Finish, AllBelow, Prefix, TablesIn, Selects, ReadData;
    var body := syms[..|syms| - 1];
    assert body[..i] == syms[..i];
    AbsorbGrows(body, i);
    var st := AbsorbAll(START, syms[..i]);
    PrefixBelow(st.pos, AbsorbAll(START, body), eob - 1);
    ReadOne(max, tables, sel, eob, syms, i, st, rest);
    if i == |syms| - 1 {
      assert body == syms[..i];
      NoData(syms, tables, sel);
      assert [] + rest == rest;
    } else {
      assert syms[i] != eob;
      assert body[..i + 1] == syms[..i + 1] == syms[..i] + [syms[i]];
      AbsorbOne(START, syms[..i], syms[i]);
      AbsorbGrows(body, i + 1);
      AbsorbSize(st, syms[i]);
      DataRoundTrip(max, tables, sel, eob, syms, i + 1, rest);
    }
  }

  lemma NoData(syms: seq<nat>, tables: seq<seq<nat>>, sel: seq<nat>)
    requires Codable(syms, tables, sel)
    ensures DataBits(syms, tables, sel, |syms|) == []
  {}

  // ----- the block -----

  datatype Received = Received(header: Header, col: seq<Byte>)

  /** The bytes that positions in the move-to-front list stand for. */
  function Column(inUse: seq<bool>, pos: seq<nat>): (col: seq<Byte>)
    requires |inUse| == 256 && AllBelow(pos, |M.Used(inUse, 256)|)
    ensures |col| == |pos|
  {
    var n := |M.Used(inUse, 256)|;
    LookupsOnList(M.Identity(n), pos, n);
    seq(|pos|, k requires 0 <= k < |pos| => M.Used(inUse, 256)[Lookups(M.Identity(n), pos).0[k]])
  }

  /** All that the encoder chooses for a block. */
  datatype Coding = Coding(inUse: seq<bool>, tables: seq<seq<nat>>, sel: seq<nat>, syms: seq<nat>)

  function EndOfBlock(inUse: seq<bool>): nat
    requires |inUse| == 256
  {
    |M.Used(inUse, 256)| + 1
  }

  /** A choice the decoder can follow. */
  ghost predicate Sendable(c: Coding) {
    |c.inUse| == 256 && 2 <= |c.tables| <= 6 && 1 <= |c.sel| <= MAX_SELECTORS && Selects(c.sel, |c.tables|) &&
    TablesIn(c.tables, EndOfBlock(c.inUse) + 1) && Prefix(c.tables) && Codable(c.syms, c.tables, c.sel)
  }

  ghost function BodyBits(c: Coding): bits
    requires Sendable(c)
  {
    MapBits(c.inUse) + (SelectorBits(|c.tables|, c.sel) +
      (TablesBits(c.tables, EndOfBlock(c.inUse) + 1) + DataBits(c.syms, c.tables, c.sel, 0)))
  }

  ghost function BlockBits(h: Header, c: Coding): bits
    requires Sendable(c)
  {
    HeaderBits(h) + BodyBits(c)
  }

  /** The decoder on the front of any input, sound or not. */
  function ReadBlock(size100k: nat, input: bits): (r: Parsed<Received>)
    ensures r.Parsed? ==> r.value.header.origPtr < |r.value.col| <= 100000 * size100k && |r.rest| < |input|
  {
    var (h, r1) :- ReadHeader(size100k, input);
    var (inUse, r2) :- ReadMap(r1);
    if |M.Used(inUse, 256)| == 0 then Malformed else ReadCoded(size100k, h, inUse, r2)
  }

  function ReadCoded(size100k: nat, h: Header, inUse: seq<bool>, input: bits): (r: Parsed<Received>)
    requires |inUse| == 256 && |M.Used(inUse, 256)| > 0
    ensures r.Parsed? ==> r.value.header == h && h.origPtr < |r.value.col| <= 100000 * size100k
    ensures r.Parsed? ==> |r.rest| <= |input|
  {
    var eob := EndOfBlock(inUse);
    var (s, r1) :- ReadSelectors(input);
    var (tables, r2) :- ReadTables(s.nGroups, eob + 1, r1);
    var (pos, r3) :- ReadData(100000 * size100k, tables, s.sel, eob, 0, START, r2);
    if h.origPtr >= |pos| then Malformed else Parsed(Received(h, Column(inUse, pos)), r3)
  }

  lemma CodedRoundTrip(size100k: nat, h: Header, c: Coding, pos: seq<nat>, rest: bits)
    requires Sendable(c) && |M.Used(c.inUse, 256)| > 0 && h.origPtr < |pos| <= 100000 * size100k <= MAX_BLOCK
    requires AllBelow(pos, EndOfBlock(c.inUse) - 1) && c.syms == Symbols(pos, EndOfBlock(c.inUse))
    ensures ReadCoded(size100k, h, c.inUse, SelectorBits(|c.tables|, c.sel) +
              (TablesBits(c.tables, EndOfBlock(c.inUse) + 1) + DataBits(c.syms, c.tables, c.sel, 0)) + rest) ==
            Parsed(Received(h, Column(c.inUse, pos)), rest)
  {
    hide SelectorBits, ReadSelectors, TablesBits, ReadTables, DataBits, ReadData, Symbols, AbsorbAll, Kraft, Pow2, Absorb, Column;
    var eob := EndOfBlock(c.inUse);
    var t2 := DataBits(c.syms, c.tables, c.sel, 0) + rest;
    var t1 := TablesBits(c.tables, eob + 1) + t2;
    assert SelectorBits(|c.tables|, c.sel) + (TablesBits(c.tables, eob + 1) + DataBits(c.syms, c.tables, c.sel, 0)) + rest ==
           SelectorBits(|c.tables|, c.sel) + t1;
    SelectorsRoundTrip(|c.tables|, c.sel, t1);
    TablesRoundTrip(c.tables, eob + 1, t2);
    SymbolsDecode(pos, eob);
    SymbolsEnd(pos, eob);
    assert AbsorbAll(START, c.syms[..0]) == START by { StartState(c.syms); }
    DataRoundTrip(100000 * size100k, c.tables, c.sel, eob, c.syms, 0, rest);
  }

  lemma StartState(syms: seq<nat>)
    ensures AbsorbAll(START, syms[..0]) == START
  {}

  lemma SymbolsEnd(pos: seq<nat>, eob: nat)
    requires eob >= 2 && AllBelow(pos, eob - 1)
    ensures Ends(Symbols(pos, eob), eob)
  {
    SymbolsBelow(pos, eob - 1);
    RunsBelow(pos, eob);
  }

  lemma RunsBelow(pos: seq<nat>, eob: nat)
    requires eob >= 2
    ensures var syms := Symbols(pos, eob); syms[|syms| - 1] == eob
  {}

  /** Decoding what was sent for a column gives the column back. */
  lemma ColumnRoundTrip(col: seq<Byte>, inUse: seq<bool>)
    requires M.AllMarked(col, inUse) && col != []
    ensures |M.Used(inUse, 256)| > 0
    ensures Drawn(M.Numbered(col, inUse), M.Identity(|M.Used(inUse, 256)|))
    ensures var pos := Positions(M.Identity(|M.Used(inUse, 256)|), M.Numbered(col, inUse));
            AllBelow(pos, |M.Used(inUse, 256)|) && Column(inUse, pos) == col
  {
    hide Positions, Lookups, ListAfter, M.Used, M.Numbered;
    var id := M.Identity(|M.Used(inUse, 256)|);
    M.NumberedDrawn(col, inUse);
    M.NumberedBack(col, inUse, 0);
    LookupsInvert(id, M.Numbered(col, inUse));
    var pos := Positions(id, M.Numbered(col, inUse));
    forall k | 0 <= k < |col| ensures Column(inUse, pos)[k] == col[k] { M.NumberedBack(col, inUse, k); }
    assert Column(inUse, pos) == col;
  }

  /** Whatever sorted order of the rotations, tables and selectors the encoder settles on, the decoder accepts
      the bits of a block, stops exactly after them, and can restore the block. */
  lemma BlockRoundTrip(s: seq<Byte>, p: seq<nat>, h: Header, c: Coding, size100k: nat, rest: bits)
    requires 0 < |s| <= 100000 * size100k <= MAX_BLOCK && RotationSorted(s, p) && M.AllMarked(s, c.inUse)
    requires h.crc < Pow2(32) && h.randomised == 0 && h.origPtr < |s| && p[h.origPtr] == 0
    requires Sendable(c) && M.AllMarked(LastColumn(s, p), c.inUse) && c.syms == M.ColumnSymbols(LastColumn(s, p), c.inUse)
    ensures ReadBlock(size100k, BlockBits(h, c) + rest) == Parsed(Received(h, LastColumn(s, p)), rest)
    ensures Invert(LastColumn(s, p), h.origPtr) == s
  {
    hide SelectorBits, TablesBits, DataBits, ReadCoded, MapBits, ReadMap, ReadHeader, HeaderBits, Column, Positions, Invert;
    hide M.Numbered, Symbols, Sendable, M.Used;
    var col := LastColumn(s, p);
    InvertCorrect(s, p, h.origPtr);
    ColumnRoundTrip(col, c.inUse);
    SendableFacts(c);
    var pos := Positions(M.Identity(|M.Used(c.inUse, 256)|), M.Numbered(col, c.inUse));
    var coded := SelectorBits(|c.tables|, c.sel) +
      (TablesBits(c.tables, EndOfBlock(c.inUse) + 1) + DataBits(c.syms, c.tables, c.sel, 0));
    assert BlockBits(h, c) + rest == HeaderBits(h) + (MapBits(c.inUse) + (coded + rest));
    OrigPtrFits(h.origPtr);
    HeaderRoundTrip(size100k, h, MapBits(c.inUse) + (coded + rest));
    MapRoundTrip(c.inUse, coded + rest);
    CodedRoundTrip(size100k, h, c, pos, rest);
  }

  lemma SendableFacts(c: Coding)
    requires Sendable(c)
    ensures |c.inUse| == 256 && Selects(c.sel, |c.tables|) && TablesIn(c.tables, EndOfBlock(c.inUse) + 1)
    ensures Codable(c.syms, c.tables, c.sel)
  {}

  lemma OrigPtrFits(p: nat)
    requires p < MAX_BLOCK
    ensures p < Pow2(24) && Pow2(1) == 2
  {
    assert Pow2(8) == 256;
    Pow2Sum(8, 8);
    Pow2Sum(8, 16);
  }
}
