/** The decoder's main loop: symbols to runs and list positions, list positions to bytes of the last column,
    counted as they are stored; then the inverse transform. */
module DataDecode {
  import opened Rotations
  import opened Bits
  import opened BitIO
  import opened Codes
  import opened Bwt
  import opened Mtf
  import opened BlockFormat
  import opened BlockDecode
  import C = CodeTables
  import M = MtfEncode
  import S = SlidingMtf
  import U = Unsort

  // ----- one symbol -----

  /** Where the decoder stands in the groups of fifty after i symbols. */
  ghost predicate At(i: nat, groupNo: int, groupPos: nat) {
    groupPos == (GROUP - i % GROUP) % GROUP && groupNo == (i + GROUP - 1) / GROUP - 1
  }

  lemma AtNext(i: nat, groupNo: int, groupPos: nat)
    requires At(i, groupNo, groupPos)
    ensures groupPos == 0 ==> i % GROUP == 0 && i / GROUP == groupNo + 1 && At(i + 1, groupNo + 1, GROUP - 1)
    ensures groupPos > 0 ==> i / GROUP == groupNo && i % GROUP != 0 && At(i + 1, groupNo, groupPos - 1)
  {}

  /** What is wanted of symbol i: it, and the rest of the input, or the failure. */
  ghost function Wanted(tables: seq<seq<nat>>, sel: seq<nat>, i: nat, input: bits): Decoded
    requires Selects(sel, |tables|)
  {
    if i / GROUP >= |sel| then Corrupt else DecodeSymbol(TableFor(i, tables, sel), input)
  }

  /** Next symbol, the table changed when a group of fifty is used up. */
  method GetMtfVal(r: BitReader, ts: seq<Table>, selector: seq<nat>, groupNo0: int, groupPos0: nat,
                   ghost tables: seq<seq<nat>>, ghost i: nat, ghost alphaSize: nat)
    returns (status: Status, sym: nat, groupNo: int, groupPos: nat)
    requires r.Valid() && TablesOk(ts, tables) && TablesIn(tables, alphaSize) && Selects(selector, |tables|)
    requires At(i, groupNo0, groupPos0) && i <= GROUP * |selector|
    modifies r
    ensures r.Valid()
    ensures match Wanted(tables, selector, i, old(r.Rest()))
            case Symbol(s, rest) => status == Fine && sym == s && r.Rest() == rest && i < GROUP * |selector|
            case Corrupt => status == DataError
            case Truncated => status == NeedInput
    ensures status == Fine ==> At(i + 1, groupNo, groupPos) && sym < alphaSize
  {
    hide BitReader.Rest, BitReader.Valid, At, C.Tables, DecodeSymbol;
    sym, groupNo, groupPos := 0, groupNo0, groupPos0;
    AtNext(i, groupNo, groupPos);
    if groupPos == 0 {
      groupNo := groupNo + 1;
      if groupNo >= |selector| { return DataError, sym, groupNo, groupPos; }
      groupPos := GROUP;
    }
    groupPos := groupPos - 1;
    AtTable(i, groupNo, selector, tables);
    ghost var len := TableFor(i, tables, selector);
    var t := ts[selector[groupNo]];
    assert TableOk(t, len);
    var out := C.GetSymbol(r, t.limit, t.base, t.perm, t.minLen, len);
    match out {
      case Value(s) => status, sym := Fine, s;
      case DataError => status := Status.DataError;
      case NeedInput => status := Status.NeedInput;
    }
  }

  lemma AtTable(i: nat, groupNo: int, sel: seq<nat>, tables: seq<seq<nat>>)
    requires Selects(sel, |tables|) && i <= GROUP * |sel| && i / GROUP == groupNo && 0 <= groupNo
    requires i < GROUP * |sel| || groupNo < |sel|
    ensures groupNo < |sel| && i < GROUP * |sel| && Covered(i, tables, sel) && TableFor(i, tables, sel) == tables[sel[groupNo]]
  {}

  // ----- the state of the column -----

  /** The column so far, the list and the counts are those of the decoded positions. */
  ghost predicate Decoding(pos: seq<nat>, col: seq<nat>, list: seq<nat>, unzftab: seq<nat>, inUse: seq<bool>) {
    |inUse| == 256 && AllBelow(pos, |M.Used(inUse, 256)|) && |list| == 256 &&
    col == Column(inUse, pos) && U.Counts(unzftab, Column(inUse, pos)) &&
    list[..|M.Used(inUse, 256)|] == Lookups(M.Identity(|M.Used(inUse, 256)|), pos).1
  }

  lemma DecodingStart(list: seq<nat>, unzftab: seq<nat>, inUse: seq<bool>)
    requires |inUse| == 256 && |list| == 256 && (forall q :: 0 <= q < 256 ==> list[q] == q)
    requires |unzftab| == 256 && forall c :: 0 <= c < 256 ==> unzftab[c] == 0
    ensures Decoding([], [], list, unzftab, inUse)
  {
    assert list[..|M.Used(inUse, 256)|] == M.Identity(|M.Used(inUse, 256)|);
    assert forall c :: 0 <= c < 256 ==> CountOf([], c) == 0;
  }

  lemma DecodingFacts(pos: seq<nat>, col: seq<nat>, list: seq<nat>, unzftab: seq<nat>, inUse: seq<bool>)
    requires Decoding(pos, col, list, unzftab, inUse)
    ensures |col| == |pos| && |inUse| == 256 && |list| == 256 && |unzftab| == 256
    ensures forall k :: 0 <= k < |M.Used(inUse, 256)| ==> list[k] < |M.Used(inUse, 256)|
    ensures AllBelow(pos, |M.Used(inUse, 256)|)
    ensures forall k :: 0 <= k < |col| ==> col[k] < 256
  {
    var n := |M.Used(inUse, 256)|;
    LookupsOnList(M.Identity(n), pos, n);
    forall k | 0 <= k < n ensures list[k] < n { assert list[k] == list[..n][k]; }
  }

  /** Storing the byte at a list position. */
  lemma DecodingStep(pos: seq<nat>, col: seq<nat>, list: seq<nat>, unzftab: seq<nat>, inUse: seq<bool>, j: nat)
    requires Decoding(pos, col, list, unzftab, inUse) && j < |M.Used(inUse, 256)| && list[j] < |M.Used(inUse, 256)|
    ensures var c := M.Used(inUse, 256)[list[j]];
            c < |unzftab| && Decoding(pos + [j], col + [c], MoveToFront(list, j), unzftab[c := unzftab[c] + 1], inUse)
  {
    hide Lookups, M.Used;
    var used := M.Used(inUse, 256);
    var n := |used|;
    var id := M.Identity(n);
    LookupsOnList(id, pos, n);
    LookupsOnList(id, pos + [j], n);
    LookupsOne(id, pos, j);
    var l := Lookups(id, pos).1;
    assert l[j] == list[j];
    assert MoveToFront(list, j)[..n] == MoveToFront(l, j);
    var c: Byte := used[list[j]];
    assert Column(inUse, pos + [j]) == Column(inUse, pos) + [c];
    CountsOne(unzftab, Column(inUse, pos), c);
  }

  lemma CountsOne(unzftab: seq<nat>, col: seq<Byte>, c: Byte)
    requires U.Counts(unzftab, col)
    ensures U.Counts(unzftab[c := unzftab[c] + 1], col + [c])
  {
    assert (col + [c])[..|col|] == col;
  }

  /** Storing the front byte es times. */
  lemma {:induction false} DecodingRun(pos: seq<nat>, col: seq<nat>, list: seq<nat>, unzftab: seq<nat>, inUse: seq<bool>, es: nat)
    requires Decoding(pos, col, list, unzftab, inUse) && 0 < |M.Used(inUse, 256)| && list[0] < |M.Used(inUse, 256)|
    ensures var c := M.Used(inUse, 256)[list[0]];
            c < |unzftab| && Decoding(pos + Zeros(es), col + CellRun(c, es), list, unzftab[c := unzftab[c] + es], inUse)
  {
    hide Decoding, M.Used;
    DecodingFacts(pos, col, list, unzftab, inUse);
    var c := M.Used(inUse, 256)[list[0]];
    if es == 0 {
      assert pos + Zeros(0) == pos && col + CellRun(c, 0) == col && unzftab[c := unzftab[c] + 0] == unzftab;
    } else {
      DecodingRun(pos, col, list, unzftab, inUse, es - 1);
      var u := unzftab[c := unzftab[c] + (es - 1)];
      DecodingStep(pos + Zeros(es - 1), col + CellRun(c, es - 1), list, u, inUse, 0);
      assert MoveToFront(list, 0) == list;
      assert pos + Zeros(es - 1) + [0] == pos + Zeros(es);
      assert col + CellRun(c, es - 1) + [c] == col + CellRun(c, es);
      assert u[c := u[c] + 1] == unzftab[c := unzftab[c] + es];
    }
  }

  /** A run of one cell of the sixteen-bit area. */
  function CellRun(c: nat, n: nat): seq<nat> { seq(n, _ => c) }

  // ----- runs -----

  /** A finished run may be written out before the symbol that ends it. */
  lemma Flush(max: nat, tables: seq<seq<nat>>, sel: seq<nat>, eob: nat, i: nat, st: Runs, sym: nat, rest: bits)
    requires Selects(sel, |tables|) && TablesIn(tables, eob + 1) && eob >= 2 && st.Runs? && AllBelow(st.pos, eob - 1) && sym <= eob
    requires i < GROUP * |sel| && sym != RUNA && sym != RUNB
    ensures AllBelow(st.pos + Zeros(st.es), eob - 1)
    ensures Size(st) > max ==> AfterSymbol(max, tables, sel, eob, i, st, sym, rest) == Malformed
    ensures AfterSymbol(max, tables, sel, eob, i, st, sym, rest) ==
            AfterSymbol(max, tables, sel, eob, i, Runs(st.pos + Zeros(st.es), 0, 1), sym, rest)
  {
    hide ReadData;
    var st' := Runs(st.pos + Zeros(st.es), 0, 1);
    assert Zeros(0) == [] && st'.pos + [] == st'.pos;
    assert Step(st', sym, max) == Step(st, sym, max);
  }

  /** One digit of a run. */
  lemma Digit(max: nat, tables: seq<seq<nat>>, sel: seq<nat>, eob: nat, i: nat, st: Runs, sym: nat, rest: bits)
    requires Selects(sel, |tables|) && TablesIn(tables, eob + 1) && eob >= 2 && st.Runs? && AllBelow(st.pos, eob - 1) && sym <= eob
    requires i < GROUP * |sel| && (sym == RUNA || sym == RUNB)
    ensures st.n >= RUN_CAP ==> AfterSymbol(max, tables, sel, eob, i, st, sym, rest) == Malformed
    ensures st.n < RUN_CAP ==>
      AfterSymbol(max, tables, sel, eob, i, st, sym, rest) ==
      ReadData(max, tables, sel, eob, i + 1, Runs(st.pos, st.es + (sym + 1) * st.n, 2 * st.n), rest)
  {
    hide ReadData;
  }

  lemma Plain(max: nat, tables: seq<seq<nat>>, sel: seq<nat>, eob: nat, i: nat, pos: seq<nat>, sym: nat, rest: bits)
    requires Selects(sel, |tables|) && TablesIn(tables, eob + 1) && eob >= 2 && AllBelow(pos, eob - 1) && sym <= eob
    requires i < GROUP * |sel| && sym != RUNA && sym != RUNB
    ensures sym != eob ==> AllBelow(pos + [sym - 1], eob - 1)
    ensures sym != eob && |pos| >= max ==> AfterSymbol(max, tables, sel, eob, i, Runs(pos, 0, 1), sym, rest) == Malformed
    ensures sym != eob && |pos| < max ==>
      AfterSymbol(max, tables, sel, eob, i, Runs(pos, 0, 1), sym, rest) ==
      ReadData(max, tables, sel, eob, i + 1, Runs(pos + [sym - 1], 0, 1), rest)
    ensures sym == eob && |pos| <= max ==> AfterSymbol(max, tables, sel, eob, i, Runs(pos, 0, 1), sym, rest) == Parsed(pos, rest)
  {
    hide ReadData;
    assert pos + Zeros(0) == pos;
  }

  lemma Next(max: nat, tables: seq<seq<nat>>, sel: seq<nat>, eob: nat, i: nat, st: Runs, input: bits)
    requires Selects(sel, |tables|) && TablesIn(tables, eob + 1) && eob >= 2 && st.Runs? && AllBelow(st.pos, eob - 1)
    ensures match Wanted(tables, sel, i, input)
      case Corrupt => ReadData(max, tables, sel, eob, i, st, input) == Malformed
      case Truncated => ReadData(max, tables, sel, eob, i, st, input) == Short
      case Symbol(sym, rest) =>
        i < GROUP * |sel| && sym <= eob &&
        ReadData(max, tables, sel, eob, i, st, input) == AfterSymbol(max, tables, sel, eob, i, st, sym, rest)
  {
    hide AfterSymbol;
    if i / GROUP < |sel| {
      assert Covered(i, tables, sel);
      assert |TableFor(i, tables, sel)| == eob + 1;
    }
  }

  /** Adds up the digits of a run. */
  method GetRun(r: BitReader, ts: seq<Table>, selector: seq<nat>, first: nat, groupNo0: int, groupPos0: nat,
                ghost tables: seq<seq<nat>>, ghost eob: nat, ghost i0: nat, ghost pos: seq<nat>, ghost max: nat)
    returns (status: Status, es: nat, sym: nat, groupNo: int, groupPos: nat, ghost i: nat, ghost n: nat)
    requires r.Valid() && TablesOk(ts, tables) && TablesIn(tables, eob + 1) && Selects(selector, |tables|)
    requires eob >= 2 && AllBelow(pos, eob - 1) && (first == RUNA || first == RUNB)
    requires i0 < GROUP * |selector| && At(i0 + 1, groupNo0, groupPos0)
    modifies r
    ensures r.Valid()
    ensures var goal := AfterSymbol(max, tables, selector, eob, i0, Runs(pos, 0, 1), first, old(r.Rest()));
      if status == Fine then
        es > 0 && i > i0 && sym <= eob && sym != RUNA && sym != RUNB && i < GROUP * |selector| && At(i + 1, groupNo, groupPos) &&
        goal == AfterSymbol(max, tables, selector, eob, i, Runs(pos, es, n), sym, r.Rest())
      else Stopped(goal, status)
  {
    hide BitReader.Rest, BitReader.Valid, At, TablesOk, AfterSymbol, ReadData, Wanted, TablesIn;
    ghost var goal := AfterSymbol(max, tables, selector, eob, i0, Runs(pos, 0, 1), first, r.Rest());
    sym, groupNo, groupPos, i := first, groupNo0, groupPos0, i0;
    es, n := 0, 1;
    ghost var acc: nat := 0;
    var sum: int, N := -1, 1;
    while true
      invariant r.Valid() && (sym == RUNA || sym == RUNB) && i < GROUP * |selector| && At(i + 1, groupNo, groupPos)
      invariant i0 <= i && (i > i0 || acc == 0) && sum + 1 == acc && N == n && 1 <= n
      invariant goal == AfterSymbol(max, tables, selector, eob, i, Runs(pos, acc, n), sym, r.Rest())
      decreases RUN_CAP - N
    {
      Digit(max, tables, selector, eob, i, Runs(pos, acc, n), sym, r.Rest());
      if N >= RUN_CAP { status := DataError; return; }
      acc := acc + (sym + 1) * n;
      if sym == RUNA { sum := sum + (0 + 1) * N; } else if sym == RUNB { sum := sum + (1 + 1) * N; }
      N := N * 2;
      n, i := 2 * n, i + 1;
      Next(max, tables, selector, eob, i, Runs(pos, acc, n), r.Rest());
      status, sym, groupNo, groupPos := GetMtfVal(r, ts, selector, groupNo, groupPos, tables, i, eob + 1);
      if status != Fine { return; }
      if sym != RUNA && sym != RUNB { break; }
    }
    es := sum + 1;
  }

  /** Every cell fits sixteen bits. */
  ghost predicate Halfwords(s: seq<nat>) {
    forall k :: 0 <= k < |s| ==> s[k] < 65536
  }

  /** Stores the front byte es times, unless the block grows too long. */
  method StoreRun(out: array<nat>, nblock0: nat, nblockMAX: nat, uc: nat, es0: nat) returns (ok: bool, nblock: nat)
    requires nblock0 <= nblockMAX <= out.Length
    modifies out
    ensures ok == (nblock0 + es0 <= nblockMAX)
    ensures ok ==> nblock == nblock0 + es0 && out[..nblock] == old(out[..nblock0]) + CellRun(uc, es0)
    ensures uc < 65536 && old(Halfwords(out[..])) ==> Halfwords(out[..])
  {
    var es := es0;
    nblock := nblock0;
    while es > 0
      invariant nblock + es == nblock0 + es0 && nblock0 <= nblock <= nblockMAX
      invariant out[..nblock] == old(out[..nblock0]) + CellRun(uc, nblock - nblock0)
      invariant uc < 65536 && old(Halfwords(out[..])) ==> Halfwords(out[..])
    {
      if nblock >= nblockMAX { return false, nblock; }
      out[nblock] := uc;
      nblock := nblock + 1;
      es := es - 1;
    }
    ok := true;
  }

  /** The decoder's tables and buffers for one block. */
  ghost predicate Buffers(out: array<nat>, mtfa: array<nat>, mtfbase: array<int>, unzftab: array<nat>, nblockMAX: nat) {
    out != mtfa && out != unzftab && mtfa != unzftab && mtfa.Length == 4096 && mtfbase.Length == 16 &&
    unzftab.Length == 256 && nblockMAX <= out.Length
  }

  ghost predicate State(out: array<nat>, mtfa: array<nat>, mtfbase: array<int>, unzftab: array<nat>, nblock: nat,
                        pos: seq<nat>, inUse: seq<bool>)
    reads out, mtfa, mtfbase, unzftab
  {
    nblock <= out.Length && mtfa.Length == 4096 && mtfbase.Length == 16 &&
    S.Segments(mtfbase[..]) && mtfbase[0] >= 1 &&
    Decoding(pos, out[..nblock], S.List(mtfa[..], mtfbase[..]), unzftab[..], inUse)
  }

  lemma UsedBytes(inUse: seq<bool>)
    requires |inUse| == 256
    ensures forall k :: 0 <= k < |M.Used(inUse, 256)| ==> M.Used(inUse, 256)[k] < 256
  {}

  /** A run of the byte at the front of the list. */
  method ApplyRun(out: array<nat>, mtfa: array<nat>, mtfbase: array<int>, unzftab: array<nat>, nblock0: nat, nblockMAX: nat,
                  seqToUnseq: seq<nat>, es: nat, ghost pos: seq<nat>, ghost inUse: seq<bool>)
    returns (ok: bool, nblock: nat)
    requires Buffers(out, mtfa, mtfbase, unzftab, nblockMAX) && nblock0 == |pos| <= nblockMAX
    requires State(out, mtfa, mtfbase, unzftab, nblock0, pos, inUse)
    requires |inUse| == 256 && 0 < |M.Used(inUse, 256)| <= |seqToUnseq| && seqToUnseq[..|M.Used(inUse, 256)|] == M.Used(inUse, 256)
    modifies out, unzftab
    ensures ok == (|pos| + es <= nblockMAX)
    ensures ok ==> nblock == |pos| + es && State(out, mtfa, mtfbase, unzftab, nblock, pos + Zeros(es), inUse)
    ensures old(Halfwords(out[..])) ==> Halfwords(out[..])
  {
    hide Decoding, S.Segments, S.List, M.Used, CellRun, Halfwords;
    UsedBytes(inUse);
    ghost var list := S.List(mtfa[..], mtfbase[..]);
    DecodingFacts(pos, out[..nblock0], list, unzftab[..], inUse);
    DecodingRun(pos, out[..nblock0], list, unzftab[..], inUse, es);
    S.CellAt(mtfa[..], mtfbase[..], 0);
    assert seqToUnseq[list[0]] == seqToUnseq[..|M.Used(inUse, 256)|][list[0]];
    var uc := seqToUnseq[mtfa[mtfbase[0]]];
    ghost var u := unzftab[..][uc := unzftab[uc] + es];
    unzftab[uc] := unzftab[uc] + es;
    assert unzftab[..] == u;
    ok, nblock := StoreRun(out, nblock0, nblockMAX, uc, es);
  }

  /** The byte at list position nn, moved to the front. */
  method ApplyPosition(out: array<nat>, mtfa: array<nat>, mtfbase: array<int>, unzftab: array<nat>, nblock: nat, nblockMAX: nat,
                       seqToUnseq: seq<nat>, nn: nat, ghost pos: seq<nat>, ghost inUse: seq<bool>)
    requires Buffers(out, mtfa, mtfbase, unzftab, nblockMAX) && nblock == |pos| < nblockMAX
    requires State(out, mtfa, mtfbase, unzftab, nblock, pos, inUse)
    requires |inUse| == 256 && nn < |M.Used(inUse, 256)| <= |seqToUnseq| && seqToUnseq[..|M.Used(inUse, 256)|] == M.Used(inUse, 256)
    modifies out, mtfa, mtfbase, unzftab
    ensures State(out, mtfa, mtfbase, unzftab, nblock + 1, pos + [nn], inUse)
    ensures old(Halfwords(out[..])) ==> Halfwords(out[..])
  {
    hide Decoding, S.Segments, S.List, M.Used, MoveToFront;
    UsedBytes(inUse);
    ghost var list := S.List(mtfa[..], mtfbase[..]);
    DecodingFacts(pos, out[..nblock], list, unzftab[..], inUse);
    DecodingStep(pos, out[..nblock], list, unzftab[..], inUse, nn);
    assert seqToUnseq[list[nn]] == seqToUnseq[..|M.Used(inUse, 256)|][list[nn]];
    ghost var col := out[..nblock];
    var uc := S.UseMtf(mtfa, mtfbase, nn);
    var c := seqToUnseq[uc];
    ghost var u := unzftab[..][c := unzftab[c] + 1];
    unzftab[c] := unzftab[c] + 1;
    assert unzftab[..] == u;
    out[nblock] := c;
    assert out[..nblock + 1] == col + [c];
  }

  /** The MTF values: symbols until end of block, each run or byte stored as it comes. */
  method GetData(r: BitReader, ts: seq<Table>, selector: seq<nat>, nInUse: nat, seqToUnseq: seq<nat>, nblockMAX: nat,
                 out: array<nat>, mtfa: array<nat>, mtfbase: array<int>, unzftab: array<nat>,
                 ghost tables: seq<seq<nat>>, ghost inUse: seq<bool>)
    returns (status: Status, nblock: nat, ghost pos: seq<nat>)
    requires r.Valid() && |inUse| == 256 && nInUse == |M.Used(inUse, 256)| > 0
    requires nInUse <= |seqToUnseq| && seqToUnseq[..nInUse] == M.Used(inUse, 256)
    requires TablesOk(ts, tables) && TablesIn(tables, nInUse + 2) && Selects(selector, |tables|)
    requires Buffers(out, mtfa, mtfbase, unzftab, nblockMAX)
    modifies r, out, mtfa, mtfbase, unzftab
    ensures r.Valid()
    ensures Agree(ReadData(nblockMAX, tables, selector, nInUse + 1, 0, START, old(r.Rest())), status, pos, r.Rest())
    ensures status == Fine ==> nblock == |pos| <= nblockMAX && State(out, mtfa, mtfbase, unzftab, nblock, pos, inUse)
    ensures old(Halfwords(out[..])) ==> Halfwords(out[..])
  {
    hide BitReader.Rest, BitReader.Valid, At, TablesOk, AfterSymbol, ReadData, Wanted, State, TablesIn, M.Used, S.Segments, S.List, Decoding, Halfwords;
    ghost var input := r.Rest();
    var EOB := nInUse + 1;
    var groupNo, groupPos := -1, 0;
    AtStart();
    StartBuffers(out, mtfa, mtfbase, unzftab, inUse);
    nblock, pos := 0, [];
    ghost var i: nat := 0;
    Next(nblockMAX, tables, selector, EOB, i, Runs(pos, 0, 1), r.Rest());
    var nextSym: nat;
    status, nextSym, groupNo, groupPos := GetMtfVal(r, ts, selector, groupNo, groupPos, tables, i, EOB + 1);
    if status != Fine { return; }
    while true
      invariant r.Valid() && status == Fine && nextSym <= EOB && i < GROUP * |selector| && At(i + 1, groupNo, groupPos)
      invariant old(Halfwords(out[..])) ==> Halfwords(out[..])
      invariant nblock == |pos| <= nblockMAX && AllBelow(pos, nInUse) && State(out, mtfa, mtfbase, unzftab, nblock, pos, inUse)
      invariant ReadData(nblockMAX, tables, selector, EOB, 0, START, input) ==
                AfterSymbol(nblockMAX, tables, selector, EOB, i, Runs(pos, 0, 1), nextSym, r.Rest())
      decreases GROUP * |selector| - i
    {
      if nextSym == RUNA || nextSym == RUNB {
        var es;
        ghost var n;
        status, es, nextSym, groupNo, groupPos, i, n :=
          GetRun(r, ts, selector, nextSym, groupNo, groupPos, tables, EOB, i, pos, nblockMAX);
        if status != Fine { return; }
        Flush(nblockMAX, tables, selector, EOB, i, Runs(pos, es, n), nextSym, r.Rest());
        var ok;
        ok, nblock := ApplyRun(out, mtfa, mtfbase, unzftab, nblock, nblockMAX, seqToUnseq, es, pos, inUse);
        if !ok { status := DataError; return; }
        pos := pos + Zeros(es);
      }
      Plain(nblockMAX, tables, selector, EOB, i, pos, nextSym, r.Rest());
      if nextSym == EOB { break; }
      if nblock >= nblockMAX { status := DataError; return; }
      ApplyPosition(out, mtfa, mtfbase, unzftab, nblock, nblockMAX, seqToUnseq, nextSym - 1, pos, inUse);
      pos := pos + [nextSym - 1];
      nblock := nblock + 1;
      i := i + 1;
      Next(nblockMAX, tables, selector, EOB, i, Runs(pos, 0, 1), r.Rest());
      status, nextSym, groupNo, groupPos := GetMtfVal(r, ts, selector, groupNo, groupPos, tables, i, EOB + 1);
      if status != Fine { return; }
    }
  }

  lemma AtStart()
    ensures At(0, -1, 0) && AllBelow([], 1)
  {}

  method StartBuffers(out: array<nat>, mtfa: array<nat>, mtfbase: array<int>, unzftab: array<nat>, ghost inUse: seq<bool>)
    requires Buffers(out, mtfa, mtfbase, unzftab, 0) && |inUse| == 256
    modifies mtfa, mtfbase, unzftab
    ensures State(out, mtfa, mtfbase, unzftab, 0, [], inUse)
  {
    hide Decoding, S.Segments, S.List;
    for i := 0 to 256
      invariant forall c :: 0 <= c < i ==> unzftab[c] == 0
    {
      unzftab[i] := 0;
    }
    S.InitMtf(mtfa, mtfbase);
    assert out[..0] == [];
    DecodingStart(S.List(mtfa[..], mtfbase[..]), unzftab[..], inUse);
  }

  // ----- the block -----

  /** A block's header and coded symbols, the first byte being at hand: agrees with the format on every input.  The counts of the stored bytes
      are those of the column, so the cumulative table gives the first rows. */
  method GetBlock(r: BitReader, uc: nat, blockSize100k: nat, out: array<nat>, ghost input: bits)
    returns (status: Status, h: Header, nblock: nat, cftab: array<nat>, ghost col: seq<Byte>)
    requires r.Valid() && 100000 * blockSize100k <= out.Length && ReadField(8, input) == Parsed(uc, r.Rest())
    modifies r, out
    ensures r.Valid() && Agree(ReadBlock(blockSize100k, input), status, Received(h, col), r.Rest())
    ensures status == Fine ==> h.origPtr < nblock == |col| <= 100000 * blockSize100k && out[..nblock] == col
    ensures status == Fine ==> fresh(cftab) && U.FirstRows(cftab[..], col)
    ensures old(Halfwords(out[..])) ==> Halfwords(out[..])
  {
    hide BitReader.Rest, BitReader.Valid, ReadHeader, ReadCoded, ReadMap, ReadField, M.Used, Column, CountBelow, Halfwords;
    nblock, col, cftab := 0, [], new nat[257];
    status, h := GetHeader(r, uc, blockSize100k, input);
    if status != Fine { return; }
    var inUse := new bool[256];
    status := GetMap(r, inUse);
    if status != Fine { return; }
    var seqToUnseq := new nat[256];
    var nInUse := M.MakeMapsD(inUse, seqToUnseq);
    if nInUse == 0 { status := DataError; return; }
    status, nblock, cftab, col := GetCoded(r, blockSize100k, h, nInUse, seqToUnseq[..], out, inUse[..]);
  }

  method GetCoded(r: BitReader, blockSize100k: nat, h: Header, nInUse: nat, seqToUnseq: seq<nat>, out: array<nat>, ghost inUse: seq<bool>)
    returns (status: Status, nblock: nat, cftab: array<nat>, ghost col: seq<Byte>)
    requires r.Valid() && 100000 * blockSize100k <= out.Length
    requires |inUse| == 256 && nInUse == |M.Used(inUse, 256)| && 0 < nInUse <= 256 == |seqToUnseq| && seqToUnseq[..nInUse] == M.Used(inUse, 256)
    modifies r, out
    ensures r.Valid() && Agree(ReadCoded(blockSize100k, h, inUse, old(r.Rest())), status, Received(h, col), r.Rest())
    ensures status == Fine ==> h.origPtr < nblock == |col| <= 100000 * blockSize100k && out[..nblock] == col
    ensures status == Fine ==> fresh(cftab) && U.FirstRows(cftab[..], col)
    ensures old(Halfwords(out[..])) ==> Halfwords(out[..])
  {
    hide BitReader.Rest, BitReader.Valid, ReadSelectors, ReadTables, ReadData, M.Used, Column, CountBelow, TablesOk, State, Halfwords;
    nblock, col, cftab := 0, [], new nat[257];
    var s, len;
    status, s := GetSelectors(r);
    if status != Fine { return; }
    status, len := GetTables(r, s.nGroups, nInUse + 2);
    if status != Fine { return; }
    var ts := CreateTables(len, nInUse + 2);
    var mtfa, mtfbase, unzftab := new nat[4096], new int[16], new nat[256];
    ghost var pos;
    status, nblock, pos := GetData(r, ts, s.sel, nInUse, seqToUnseq, 100000 * blockSize100k, out, mtfa, mtfbase, unzftab, len, inUse);
    if status != Fine { return; }
    if h.origPtr >= nblock { status := DataError; return; }
    StateFacts(out, mtfa, mtfbase, unzftab, nblock, pos, inUse);
    col := Column(inUse, pos);
    cftab := U.BuildCftab(unzftab[..], col);
  }

  lemma StateFacts(out: array<nat>, mtfa: array<nat>, mtfbase: array<int>, unzftab: array<nat>, nblock: nat, pos: seq<nat>, inUse: seq<bool>)
    requires State(out, mtfa, mtfbase, unzftab, nblock, pos, inUse)
    ensures nblock <= out.Length && |inUse| == 256 && AllBelow(pos, |M.Used(inUse, 256)|)
    ensures out[..nblock] == Column(inUse, pos) && U.Counts(unzftab[..], Column(inUse, pos))
  {}
}
