/** Reading a block: the decoder's steps agree with the format on every input, well-formed or not, and leave
    the inverse transform ready for output. */
module BlockDecode {
  import opened Words
  import opened Bits
  import opened BitIO
  import opened Codes
  import opened Mtf
  import opened BlockFormat
  import C = CodeTables
  import M = MtfEncode

  /** Outcome of a step: done, a data error, or a stop for want of input. */
  datatype Status = Fine | DataError | MagicError | NeedInput | OutOfRange

  ghost predicate Agree<T>(p: Parsed<T>, status: Status, value: T, rest: bits) {
    match p
    case Parsed(x, r) => status == Fine && value == x && rest == r
    case Malformed => status == DataError
    case BadMagic => status == MagicError
    case Short => status == NeedInput
    case Overrun => status == OutOfRange
  }

  /** Only the status is known of a step that yields no value. */
  ghost predicate Stopped<T>(p: Parsed<T>, status: Status) {
    && status != Fine && (p == Malformed <==> status == DataError) && (p == BadMagic <==> status == MagicError)
    && (p == Short <==> status == NeedInput) && (p == Overrun <==> status == OutOfRange)
  }

  method GetField(r: BitReader, n: nat) returns (status: Status, v: nat)
    requires r.Valid() && n <= 24
    modifies r
    ensures r.Valid() && Agree(ReadField(n, old(r.Rest())), status, v, r.Rest())
  {
    var ok;
    ok, v := r.Get(n);
    status := if ok then Fine else NeedInput;
  }

  // ----- header -----

  lemma MagicStep(magic: seq<nat>, k: nat, input: bits)
    requires k < |magic|
    ensures ReadMagic(magic[k..], input) ==
      var (uc, rest) :- ReadField(8, input);
      if uc != magic[k] then Malformed else ReadMagic(magic[k + 1..], rest)
  {
    hide ReadField;
    assert magic[k..][1..] == magic[k + 1..] && magic[k..] != [];
  }

  /** Byte k of a magic number. */
  method ExpectByte(r: BitReader, c: nat, ghost magic: seq<nat>, ghost k: nat, ghost input: bits) returns (status: Status)
    requires r.Valid() && k < |magic| && magic[k] == c && ReadMagic(magic, input) == ReadMagic(magic[k..], r.Rest())
    modifies r
    ensures r.Valid() && (status == Fine ==> ReadMagic(magic, input) == ReadMagic(magic[k + 1..], r.Rest()))
    ensures status != Fine ==> Stopped(ReadMagic(magic, input), status)
  {
    hide ReadField, ReadMagic, BitReader.Rest;
    MagicStep(magic, k, r.Rest());
    var uc;
    status, uc := GetField(r, 8);
    if status == Fine && uc != c { status := DataError; }
  }

  /** The rest of the block's magic number, its first byte being at hand. */
  method GetMagic(r: BitReader, uc: nat, ghost input: bits) returns (status: Status)
    requires r.Valid() && ReadField(8, input) == Parsed(uc, r.Rest())
    modifies r
    ensures r.Valid() && Agree(ReadMagic(MAGIC, input), status, (), r.Rest())
  {
    hide ReadField, ReadMagic, BitReader.Rest, MAGIC, BitReader.Valid;
    MagicBytes();
    MagicStep(MAGIC, 0, input);
    if uc != 0x31 { return DataError; }
    status := ExpectByte(r, 0x41, MAGIC, 1, input);
    if status != Fine { return; }
    status := ExpectByte(r, 0x59, MAGIC, 2, input);
    if status != Fine { return; }
    status := ExpectByte(r, 0x26, MAGIC, 3, input);
    if status != Fine { return; }
    status := ExpectByte(r, 0x53, MAGIC, 4, input);
    if status != Fine { return; }
    status := ExpectByte(r, 0x59, MAGIC, 5, input);
    MagicDone(MAGIC, 6, r.Rest());
  }

  lemma MagicBytes()
    ensures |MAGIC| == 6 && MAGIC[0..] == MAGIC
    ensures MAGIC[0] == 0x31 && MAGIC[1] == 0x41 && MAGIC[2] == 0x59 && MAGIC[3] == 0x26 && MAGIC[4] == 0x53 && MAGIC[5] == 0x59
  {}

  lemma MagicDone(magic: seq<nat>, n: nat, input: bits)
    requires n == |magic|
    ensures ReadMagic(magic[n..], input) == Parsed((), input)
  {}

  /** One more byte of a big-endian number of n bytes. */
  method AddByte(r: BitReader, v0: nat, ghost k: nat, ghost n: nat, ghost input: bits) returns (status: Status, v: nat)
    requires r.Valid() && k < n && 8 * k <= |input| && v0 == Value(input[..8 * k]) && r.Rest() == input[8 * k..]
    modifies r
    ensures r.Valid()
    ensures status == Fine ==> 8 * (k + 1) <= |input| && v == Value(input[..8 * (k + 1)]) && r.Rest() == input[8 * (k + 1)..]
    ensures status != Fine ==> status == NeedInput && |input| < 8 * n
  {
    hide Value, Shl, Or, BitReader.Rest;
    var uc;
    v := v0;
    status, uc := GetField(r, 8);
    if status == Fine {
      var a, b := input[..8 * k], input[8 * k..][..8];
      assert input[..8 * (k + 1)] == a + b;
      ValueConcat(a, b);
      OrDisjoint(uc, v0, 8);
      v := Or(Shl(v0, 8), uc);
      assert input[8 * k..][8..] == input[8 * (k + 1)..];
    }
  }

  method GetCRC(r: BitReader) returns (status: Status, crc: nat)
    requires r.Valid()
    modifies r
    ensures r.Valid() && Agree(ReadField(32, old(r.Rest())), status, crc, r.Rest())
  {
    hide Value, BitReader.Rest;
    ghost var input := r.Rest();
    NoValue();
    assert input[..0] == [];
    crc := 0;
    status, crc := AddByte(r, crc, 0, 4, input);
    if status != Fine { return; }
    status, crc := AddByte(r, crc, 1, 4, input);
    if status != Fine { return; }
    status, crc := AddByte(r, crc, 2, 4, input);
    if status != Fine { return; }
    status, crc := AddByte(r, crc, 3, 4, input);
  }

  method GetOrigPtr(r: BitReader) returns (status: Status, origPtr: nat)
    requires r.Valid()
    modifies r
    ensures r.Valid() && Agree(ReadField(24, old(r.Rest())), status, origPtr, r.Rest())
  {
    hide Value, BitReader.Rest;
    ghost var input := r.Rest();
    NoValue();
    assert input[..0] == [];
    origPtr := 0;
    status, origPtr := AddByte(r, origPtr, 0, 3, input);
    if status != Fine { return; }
    status, origPtr := AddByte(r, origPtr, 1, 3, input);
    if status != Fine { return; }
    status, origPtr := AddByte(r, origPtr, 2, 3, input);
  }

  lemma NoValue()
    ensures Value([]) == 0
  {}

  method GetHeader(r: BitReader, uc: nat, blockSize100k: nat, ghost input: bits) returns (status: Status, h: Header)
    requires r.Valid() && ReadField(8, input) == Parsed(uc, r.Rest())
    modifies r
    ensures r.Valid() && Agree(ReadHeader(blockSize100k, input), status, h, r.Rest())
  {
    hide ReadField, ReadMagic, BitReader.Rest, BitReader.Valid;
    h := Header(0, 0, 0);
    status := GetMagic(r, uc, input);
    if status != Fine { return; }
    var crc, randomised, origPtr;
    status, crc := GetCRC(r);
    if status != Fine { return; }
    status, randomised := GetField(r, 1);
    if status != Fine { return; }
    status, origPtr := GetOrigPtr(r);
    if status != Fine { return; }
    if origPtr > 10 + 100000 * blockSize100k { return DataError, h; }
    h := Header(crc, randomised, origPtr);
  }

  // ----- the bytes in use -----

  method GetBit(r: BitReader) returns (status: Status, b: bool)
    requires r.Valid()
    modifies r
    ensures r.Valid()
    ensures old(r.Rest()) == [] ==> status == NeedInput
    ensures old(r.Rest()) != [] ==> status == Fine && b == old(r.Rest())[0] && r.Rest() == old(r.Rest())[1..]
  {
    hide Value, BitReader.Rest;
    ghost var input := r.Rest();
    b := false;
    var uc;
    status, uc := GetField(r, 1);
    if status == Fine {
      C.OneBit(input[0]);
      assert input[..1] == [input[0]];
      b := uc == 1;
    }
  }

  /** A run of n flags. */
  method GetFlags(r: BitReader, n: nat) returns (status: Status, flags: seq<bool>)
    requires r.Valid()
    modifies r
    ensures r.Valid()
    ensures |old(r.Rest())| < n ==> status == NeedInput
    ensures |old(r.Rest())| >= n ==> status == Fine && flags == old(r.Rest())[..n] && r.Rest() == old(r.Rest())[n..]
  {
    hide BitReader.Rest, BitReader.Valid;
    ghost var input := r.Rest();
    flags := [];
    for i := 0 to n
      invariant r.Valid() && i <= |input| && flags == input[..i] && r.Rest() == input[i..]
    {
      var b;
      status, b := GetBit(r);
      if status != Fine { return; }
      assert input[..i + 1] == input[..i] + [input[i]] && input[i..][1..] == input[i + 1..];
      flags := flags + [b];
    }
    status := Fine;
  }

  /** The map is cleared first; flags of a group not in use are left at that. */
  method GetMap(r: BitReader, inUse: array<bool>) returns (status: Status)
    requires r.Valid() && inUse.Length == 256
    modifies r, inUse
    ensures r.Valid() && Agree(ReadMap(old(r.Rest())), status, inUse[..], r.Rest())
  {
    hide BitReader.Rest, BitReader.Valid, ReadUse;
    ghost var input := r.Rest();
    var inUse16;
    status, inUse16 := GetFlags(r, 16);
    if status != Fine { return; }
    ghost var start := r.Rest();
    for i := 0 to 256
      modifies inUse
      invariant forall k :: 0 <= k < i ==> !inUse[k]
    {
      inUse[i] := false;
    }
    UseStart(inUse16, start);
    assert inUse[..0] == [];
    for i := 0 to 16
      invariant r.Valid() && status == Fine && ReadUse(inUse16, i, start) == Parsed(inUse[..16 * i], r.Rest())
      invariant forall k :: 16 * i <= k < 256 ==> !inUse[k]
    {
      UseFollows(inUse16, i, start);
      if inUse16[i] {
        ghost var front := inUse[..16 * i];
        var more;
        status, more := GetFlags(r, 16);
        if status != Fine {
          UseFails(inUse16, i + 1, start);
          return;
        }
        for j := 0 to 16
          modifies inUse
          invariant inUse[..16 * i] == front && forall k :: 0 <= k < j ==> inUse[16 * i + k] == more[k]
          invariant forall k :: 16 * i + j <= k < 256 ==> !inUse[k]
        {
          if more[j] { inUse[i * 16 + j] := true; }
        }
        assert inUse[..16 * (i + 1)] == front + more;
      } else {
        assert inUse[..16 * (i + 1)] == inUse[..16 * i] + Clear(16);
      }
    }
    assert inUse[..256] == inUse[..];
  }

  lemma UseStart(groups: bits, input: bits)
    ensures ReadUse(groups, 0, input) == Parsed([], input)
  {}

  lemma UseFollows(groups: bits, k: nat, input: bits)
    requires k < |groups| && ReadUse(groups, k, input).Parsed?
    ensures ReadUse(groups, k + 1, input) == UseNext(ReadUse(groups, k, input), groups[k])
  {
    hide Clear;
    var p := ReadUse(groups, k, input);
    assert p == Parsed(p.value, p.rest);
  }

  /** The flags after one more group. */
  function UseNext(p: Parsed<bits>, used: bool): Parsed<bits>
    requires p.Parsed?
  {
    if !used then Parsed(p.value + Clear(16), p.rest)
    else if |p.rest| < 16 then Short
    else Parsed(p.value + p.rest[..16], p.rest[16..])
  }

  lemma {:induction false} UseFails(groups: bits, k: nat, input: bits)
    requires k <= |groups| && ReadUse(groups, k, input) == Short
    ensures ReadUse(groups, |groups|, input) == Short
    decreases |groups| - k
  {
    if k < |groups| { UseFails(groups, k + 1, input); }
  }

  // ----- selectors -----

  method GetUnary(r: BitReader, nGroups: nat) returns (status: Status, j: nat)
    requires r.Valid() && nGroups > 0
    modifies r
    ensures r.Valid() && Agree(ReadUnary(nGroups, 0, old(r.Rest())), status, j, r.Rest())
  {
    hide BitReader.Rest, BitReader.Valid;
    ghost var input := r.Rest();
    j := 0;
    while true
      invariant r.Valid() && j < nGroups && ReadUnary(nGroups, 0, input) == ReadUnary(nGroups, j, r.Rest())
      decreases nGroups - j
    {
      var uc;
      status, uc := GetBit(r);
      if status != Fine { return; }
      if !uc { break; }
      j := j + 1;
      if j >= nGroups { return DataError, j; }
    }
  }

  /** The selectors' list positions, stored one by one; a store out of range ends the run. */
  method GetUnaryList(r: BitReader, nGroups: nat, nSelectors: nat, selectorMtf: array<nat>) returns (status: Status)
    requires r.Valid() && nGroups > 0 && selectorMtf.Length == MAX_SELECTORS
    modifies r, selectorMtf
    ensures r.Valid()
    ensures nSelectors <= MAX_SELECTORS ==>
      Agree(ReadUnaryList(nGroups, nSelectors, old(r.Rest())), status, selectorMtf[..nSelectors], r.Rest())
    ensures nSelectors > MAX_SELECTORS ==>
      if ReadUnaryList(nGroups, MAX_SELECTORS + 1, old(r.Rest())).Parsed? then status == OutOfRange
      else Stopped(ReadUnaryList(nGroups, MAX_SELECTORS + 1, old(r.Rest())), status)
  {
    hide BitReader.Rest, BitReader.Valid, ReadUnary, ReadUnaryList;
    ghost var input := r.Rest();
    UnaryListStart(nGroups, input);
    status := Fine;
    for i := 0 to nSelectors
      invariant r.Valid() && status == Fine && i <= MAX_SELECTORS
      invariant ReadUnaryList(nGroups, i, input) == Parsed(selectorMtf[..i], r.Rest())
    {
      UnaryListFollows(nGroups, i, input);
      var j;
      status, j := GetUnary(r, nGroups);
      if status != Fine {
        UnaryListFails(nGroups, i + 1, if nSelectors > MAX_SELECTORS then MAX_SELECTORS + 1 else nSelectors, input);
        return;
      }
      if i >= selectorMtf.Length { return OutOfRange; }
      selectorMtf[i] := j;
      assert selectorMtf[..i + 1] == selectorMtf[..i] + [j];
    }
  }

  lemma UnaryListStart(nGroups: nat, input: bits)
    requires nGroups > 0
    ensures ReadUnaryList(nGroups, 0, input) == Parsed([], input)
  {}

  lemma UnaryListFollows(nGroups: nat, i: nat, input: bits)
    requires nGroups > 0 && ReadUnaryList(nGroups, i, input).Parsed?
    ensures var p := ReadUnaryList(nGroups, i, input);
            ReadUnaryList(nGroups, i + 1, input) ==
              var (j, rest) :- ReadUnary(nGroups, 0, p.rest);
              Parsed(p.value + [j], rest)
  {}

  lemma {:induction false} UnaryListFails(nGroups: nat, i: nat, n: nat, input: bits)
    requires nGroups > 0 && i <= n && !ReadUnaryList(nGroups, i, input).Parsed?
    ensures ReadUnaryList(nGroups, n, input) == ReadUnaryList(nGroups, i, input)
    decreases n - i
  {
    if i < n { UnaryListFails(nGroups, i, n - 1, input); }
  }

  /** Undoes the move-to-front coding of the selectors. */
  method UndoSelectors(selectorMtf: array<nat>, nSelectors: nat, nGroups: nat, selector: array<nat>)
    requires selectorMtf != selector && nSelectors <= selectorMtf.Length == selector.Length
    requires forall k :: 0 <= k < nSelectors ==> selectorMtf[k] < nGroups
    modifies selector
    ensures selector[..nSelectors] == Lookups(M.Identity(nGroups), selectorMtf[..nSelectors]).0
  {
    hide MoveToFront, Lookups;
    ghost var id := M.Identity(nGroups);
    var pos := new nat[nGroups];
    for v := 0 to nGroups
      invariant forall k :: 0 <= k < v ==> pos[k] == k
    {
      pos[v] := v;
    }
    assert pos[..] == id && selectorMtf[..0] == [];
    LookupsStart(id);
    for i := 0 to nSelectors
      invariant Lookups(id, selectorMtf[..i]) == (selector[..i], pos[..])
    {
      LookupsOne(id, selectorMtf[..i], selectorMtf[i]);
      assert selectorMtf[..i + 1] == selectorMtf[..i] + [selectorMtf[i]];
      var tmp := ToFront(pos, selectorMtf[i]);
      ghost var front := selector[..i];
      selector[i] := tmp;
      assert selector[..i + 1] == front + [tmp];
    }
  }

  lemma LookupsStart(list: seq<nat>)
    ensures Lookups(list, []) == ([], list)
  {}

  method ToFront(pos: array<nat>, v0: nat) returns (tmp: nat)
    requires v0 < pos.Length
    modifies pos
    ensures tmp == old(pos[v0]) && pos[..] == MoveToFront(old(pos[..]), v0)
  {
    var v := v0;
    tmp := pos[v];
    while v > 0
      invariant v <= v0 && forall k :: 0 <= k < pos.Length ==> pos[k] == old(if v < k <= v0 then pos[k - 1] else pos[k])
    {
      pos[v] := pos[v - 1];
      v := v - 1;
    }
    pos[0] := tmp;
  }

  method GetSelectors(r: BitReader) returns (status: Status, s: Selection)
    requires r.Valid()
    modifies r
    ensures r.Valid() && Agree(ReadSelectors(old(r.Rest())), status, s, r.Rest())
  {
    hide BitReader.Rest, BitReader.Valid, ReadUnaryList, ReadField, Lookups;
    s := Selection(0, []);
    var selectorMtf, selector := new nat[MAX_SELECTORS], new nat[MAX_SELECTORS];
    var nGroups, nSelectors;
    status, nGroups := GetField(r, 3);
    if status != Fine { return; }
    if nGroups < 2 || nGroups > 6 { return DataError, s; }
    status, nSelectors := GetField(r, 15);
    if status != Fine { return; }
    if nSelectors < 1 { return DataError, s; }
    NeverOverrun(nGroups, if nSelectors > MAX_SELECTORS then MAX_SELECTORS + 1 else nSelectors, r.Rest());
    status := GetUnaryList(r, nGroups, nSelectors, selectorMtf);
    if status != Fine { return; }
    UndoSelectors(selectorMtf, nSelectors, nGroups, selector);
    s := Selection(nGroups, selector[..nSelectors]);
  }

  // ----- code lengths -----

  method GetDelta(r: BitReader, start: nat) returns (status: Status, v: nat)
    requires r.Valid()
    modifies r
    ensures r.Valid() && Agree(ReadDelta(start, old(r.Rest())), status, v, r.Rest())
  {
    hide BitReader.Rest, BitReader.Valid;
    ghost var input := r.Rest();
    v := start;
    while true
      invariant r.Valid() && ReadDelta(start, input) == ReadDelta(v, r.Rest())
      decreases |r.Rest()|
    {
      if v < 1 || v > LONGEST { return DataError, v; }
      var uc;
      status, uc := GetBit(r);
      if status != Fine { return; }
      if !uc { break; }
      status, uc := GetBit(r);
      if status != Fine { return; }
      if !uc { v := v + 1; } else { v := v - 1; }
    }
  }

  method GetTable(r: BitReader, alphaSize: nat) returns (status: Status, len: seq<nat>)
    requires r.Valid()
    modifies r
    ensures r.Valid() && Agree(ReadTable(alphaSize, old(r.Rest())), status, len, r.Rest())
  {
    hide BitReader.Rest, BitReader.Valid, ReadField, ReadDelta, ReadDeltaList;
    len := [];
    var curr;
    status, curr := GetField(r, 5);
    if status != Fine { return; }
    ghost var input := r.Rest();
    ghost var start := curr;
    DeltaListStart(start, input);
    for i := 0 to alphaSize
      invariant r.Valid() && status == Fine && curr == Current(start, len)
      invariant ReadDeltaList(start, i, input) == Parsed(len, r.Rest())
    {
      DeltaListFollows(start, i, input);
      status, curr := GetDelta(r, curr);
      if status != Fine {
        DeltaListFails(start, i + 1, alphaSize, input);
        return;
      }
      len := len + [curr];
    }
  }

  lemma DeltaListStart(start: nat, input: bits)
    ensures ReadDeltaList(start, 0, input) == Parsed([], input)
  {}

  lemma DeltaListFollows(start: nat, i: nat, input: bits)
    requires ReadDeltaList(start, i, input).Parsed?
    ensures var p := ReadDeltaList(start, i, input);
            ReadDeltaList(start, i + 1, input) ==
              var (v, rest) :- ReadDelta(Current(start, p.value), p.rest);
              Parsed(p.value + [v], rest)
  {}

  lemma {:induction false} DeltaListFails(start: nat, i: nat, n: nat, input: bits)
    requires i <= n && !ReadDeltaList(start, i, input).Parsed?
    ensures ReadDeltaList(start, n, input) == ReadDeltaList(start, i, input)
    decreases n - i
  {
    if i < n { DeltaListFails(start, i, n - 1, input); }
  }

  method GetTables(r: BitReader, nGroups: nat, alphaSize: nat) returns (status: Status, len: seq<seq<nat>>)
    requires r.Valid() && alphaSize > 0
    modifies r
    ensures r.Valid() && Agree(ReadTables(nGroups, alphaSize, old(r.Rest())), status, len, r.Rest())
  {
    hide BitReader.Rest, BitReader.Valid, ReadTable, ReadTables;
    ghost var input := r.Rest();
    TablesStart(alphaSize, input);
    status, len := Fine, [];
    for t := 0 to nGroups
      invariant r.Valid() && status == Fine && ReadTables(t, alphaSize, input) == Parsed(len, r.Rest())
    {
      TablesFollow(t, alphaSize, input);
      var row;
      status, row := GetTable(r, alphaSize);
      if status != Fine {
        TablesFail(t + 1, nGroups, alphaSize, input);
        return;
      }
      len := len + [row];
    }
  }

  lemma TablesStart(alphaSize: nat, input: bits)
    requires alphaSize > 0
    ensures ReadTables(0, alphaSize, input) == Parsed([], input)
  {}

  lemma TablesFollow(t: nat, alphaSize: nat, input: bits)
    requires alphaSize > 0 && ReadTables(t, alphaSize, input).Parsed?
    ensures var p := ReadTables(t, alphaSize, input);
            ReadTables(t + 1, alphaSize, input) ==
              var (row, rest) :- ReadTable(alphaSize, p.rest);
              Parsed(p.value + [row], rest)
  {}

  lemma {:induction false} TablesFail(t: nat, n: nat, alphaSize: nat, input: bits)
    requires alphaSize > 0 && t <= n && !ReadTables(t, alphaSize, input).Parsed?
    ensures ReadTables(n, alphaSize, input) == ReadTables(t, alphaSize, input)
    decreases n - t
  {
    if t < n { TablesFail(t, n - 1, alphaSize, input); }
  }

  // ----- decoding tables -----

  /** The decoding tables of one code. */
  datatype Table = Table(minLen: nat, limit: seq<int>, base: seq<int>, perm: seq<nat>)

  ghost predicate TableOk(t: Table, len: seq<nat>) {
    t.minLen == MinLen(len) && C.Tables(t.limit, t.base, t.perm, len)
  }

  ghost predicate TablesOk(ts: seq<Table>, len: seq<seq<nat>>) {
    |ts| == |len| && forall t :: 0 <= t < |ts| ==> TableOk(ts[t], len[t])
  }

  method CreateTables(len: seq<seq<nat>>, alphaSize: nat) returns (ts: seq<Table>)
    requires TablesIn(len, alphaSize) && alphaSize <= MAX_ALPHA_SIZE
    ensures TablesOk(ts, len)
  {
    hide MinLen, MaxLen, C.Tables;
    ts := [];
    for t := 0 to |len|
      invariant TablesOk(ts, len[..t])
    {
      var minLen, maxLen := 32, 0;
      MinMaxNone(len[t]);
      for i := 0 to alphaSize
        invariant minLen == MinLen(len[t][..i]) && maxLen == MaxLen(len[t][..i])
      {
        MinMaxNext(len[t], i);
        if len[t][i] > maxLen { maxLen := len[t][i]; }
        if len[t][i] < minLen { minLen := len[t][i]; }
      }
      assert len[t][..alphaSize] == len[t];
      var limit, base, perm := new int[MAX_ALPHA_SIZE], new int[MAX_ALPHA_SIZE], new nat[MAX_ALPHA_SIZE];
      C.CreateDecodeTables(limit, base, perm, len[t], minLen, maxLen);
      ts := ts + [Table(minLen, limit[..], base[..], perm[..])];
    }
    assert len[..|len|] == len;
  }
}
