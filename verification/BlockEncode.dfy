/** Writing a block: sort, move-to-front, choice of tables, and the bits themselves. */
module BlockEncode {
  import opened Rotations
  import opened Words
  import opened Bits
  import opened BitIO
  import opened Codes
  import opened CodeTables
  import opened Bwt
  import opened ByteArea
  import opened Mtf
  import opened BlockFormat
  import R = BlockRoom
  import M = MtfEncode
  import T = TableChoice
  import S = BlockSort

  /** A writer that is not finished. */
  ghost predicate Open(w: BitWriter)
    reads w
  {
    w.Valid() && w.bsLive >= 0
  }

  // ----- numbers -----

  lemma {:induction false} BitsOfSplit(v: nat, a: nat, b: nat)
    ensures BitsOf(v, a + b) == BitsOf(Shr(v, b), a) + BitsOf(LowBits(v, b), b)
  {
    if b > 0 { BitsOfSplit(v / 2, a, b - 1); }
  }

  /** The top byte of the low n bits of v, then the rest. */
  lemma ByteOff(v: nat, n: nat)
    requires n >= 8
    ensures BitsOf(v, n) == BitsOf(LowBits(Shr(v, n - 8), 8), 8) + BitsOf(v, n - 8)
  {
    BitsOfSplit(v, 8, n - 8);
    BitsOfLow(Shr(v, n - 8), 8, 8);
    BitsOfLow(v, n - 8, n - 8);
  }

  method PutUChar(w: BitWriter, c: nat)
    requires Open(w) && c < 256
    modifies w
    ensures Open(w) && w.Written() == old(w.Written()) + BitsOf(c, 8)
  {
    Pow2Byte();
    w.Put(8, c);
  }

  method PutUInt32(w: BitWriter, u: nat)
    requires Open(w) && u < Pow2(32)
    modifies w
    ensures Open(w) && w.Written() == old(w.Written()) + BitsOf(u, 32)
  {
    hide BitsOf, Shr, LowBits, Pow2, BitWriter.Written;
    ByteOff(u, 32);
    ByteOff(u, 24);
    ByteOff(u, 16);
    ShrZero(u);
    ByteOff(u, 8);
    BitsZero(u);
    w.Put(8, LowBits(Shr(u, 24), 8));
    w.Put(8, LowBits(Shr(u, 16), 8));
    w.Put(8, LowBits(Shr(u, 8), 8));
    w.Put(8, LowBits(u, 8));
  }

  lemma ShrZero(v: nat)
    ensures Shr(v, 0) == v
  {}

  lemma BitsZero(v: nat)
    ensures BitsOf(v, 0) == []
  {}

  // ----- selectors -----

  /** List positions of the selectors, the list kept up to date in place. */
  method SelectorPositions(selector: seq<nat>, nGroups: nat) returns (selectorMtf: seq<nat>)
    requires 1 <= nGroups && Selects(selector, nGroups)
    ensures Drawn(selector, M.Identity(nGroups)) && selectorMtf == Positions(M.Identity(nGroups), selector)
  {
    hide Positions, ListAfter, IndexOf, MoveToFront, Drawn;
    ghost var id := M.Identity(nGroups);
    SelectsDrawn(selector, nGroups);
    var pos := new nat[nGroups];
    for i := 0 to nGroups
      invariant forall k :: 0 <= k < i ==> pos[k] == k
    {
      pos[i] := i;
    }
    assert pos[..] == id;
    selectorMtf := [];
    PositionsNone(id);
    assert selector[..0] == [];
    for i := 0 to |selector|
      invariant Drawn(selector[..i], id) && selectorMtf == Positions(id, selector[..i]) && pos[..] == ListAfter(id, selector[..i])
    {
      assert id[selector[i]] == selector[i];
      PositionsOne(id, selector[..i], selector[i]);
      assert selector[..i + 1] == selector[..i] + [selector[i]];
      var j := FrontIn(pos, selector[i]);
      selectorMtf := selectorMtf + [j];
    }
    assert selector[..|selector|] == selector;
  }

  lemma PositionsNone(list: seq<nat>)
    ensures Drawn([], list) && Positions(list, []) == [] && ListAfter(list, []) == list
  {}

  /** Finds a selector and moves it to the front, shifting entries on the way. */
  method FrontIn(pos: array<nat>, ll: nat) returns (j: nat)
    requires ll in pos[..]
    modifies pos
    ensures j == IndexOf(old(pos[..]), ll) && pos[..] == MoveToFront(old(pos[..]), j)
  {
    hide MoveToFront;
    ghost var y0 := pos[..];
    ghost var t := IndexOf(y0, ll);
    j := 0;
    var tmp := pos[j];
    while ll != tmp
      invariant 0 <= j <= t && tmp == y0[j]
      invariant forall k :: 1 <= k <= j ==> pos[k] == y0[..|y0| - 1][k - 1]
      invariant forall k :: j < k < pos.Length ==> pos[k] == y0[k]
      decreases t - j
    {
      j := j + 1;
      var tmp2 := tmp;
      tmp := pos[j];
      pos[j] := tmp2;
    }
    pos[0] := tmp;
    Fronted(y0, pos[..], j);
  }

  lemma Fronted(y0: seq<nat>, y: seq<nat>, j: nat)
    requires j < |y0| == |y| && y[0] == y0[j]
    requires forall k :: 1 <= k <= j ==> y[k] == y0[..|y0| - 1][k - 1]
    requires forall k :: j < k < |y| ==> y[k] == y0[k]
    ensures y == MoveToFront(y0, j)
  {}

  // ----- the parts of the block -----

  /** Which groups of sixteen bytes have a byte in use. */
  method MarkGroups(inUse: array<bool>) returns (inUse16: seq<bool>)
    requires inUse.Length == 256
    ensures inUse16 == Groups(inUse[..])
  {
    hide GroupUsed;
    ghost var flags := inUse[..];
    inUse16 := [];
    for i := 0 to 16
      invariant |inUse16| == i && forall k :: 0 <= k < i ==> inUse16[k] == GroupUsed(flags, k)
    {
      var any := false;
      for j := 0 to 16
        invariant any == (true in flags[16 * i..16 * i + j])
      {
        assert flags[16 * i..16 * i + j + 1] == flags[16 * i..16 * i + j] + [flags[16 * i + j]];
        if inUse[i * 16 + j] { any := true; }
      }
      GroupIs(flags, i);
      inUse16 := inUse16 + [any];
    }
  }

  method WriteFlags(w: BitWriter, flags: seq<bool>)
    requires Open(w)
    modifies w
    ensures Open(w) && w.Written() == old(w.Written()) + flags
  {
    hide BitWriter.Written;
    ghost var w0 := w.Written();
    for i := 0 to |flags|
      invariant Open(w) && w.Written() == w0 + flags[..i]
    {
      WriteFlag(w, flags[i]);
      assert flags[..i + 1] == flags[..i] + [flags[i]];
    }
    assert flags[..|flags|] == flags;
  }

  method WriteMap(w: BitWriter, inUse: array<bool>)
    requires Open(w) && inUse.Length == 256
    modifies w
    ensures Open(w) && w.Written() == old(w.Written()) + MapBits(inUse[..])
  {
    hide UseBits, GroupUsed, Groups, BitWriter.Written;
    ghost var flags := inUse[..];
    var inUse16 := MarkGroups(inUse);
    WriteFlags(w, inUse16);
    ghost var w1 := w.Written();
    UseNone(flags);
    for i := 0 to 16
      invariant Open(w) && w.Written() == w1 + UseBits(flags, i)
    {
      UseNext(flags, i);
      if inUse16[i] { WriteFlags(w, inUse[i * 16..i * 16 + 16]); }
    }
  }

  lemma GroupIs(flags: seq<bool>, k: nat)
    requires |flags| == 256 && k < 16
    ensures GroupUsed(flags, k) == (true in flags[16 * k..16 * k + 16])
  {}

  lemma UseNone(flags: seq<bool>)
    requires |flags| == 256
    ensures UseBits(flags, 0) == []
  {}

  lemma UseNext(flags: seq<bool>, k: nat)
    requires |flags| == 256 && k < 16
    ensures UseBits(flags, k + 1) == UseBits(flags, k) + if Groups(flags)[k] then flags[16 * k..16 * k + 16] else []
  {}

  /** One bit. */
  method WriteFlag(w: BitWriter, b: bool)
    requires Open(w)
    modifies w
    ensures Open(w) && w.Written() == old(w.Written()) + [b]
  {
    OneBitOf(b);
    if b { w.Put(1, 1); } else { w.Put(1, 0); }
  }

  lemma OneBitOf(b: bool)
    ensures BitsOf(if b then 1 else 0, 1) == [b] && Pow2(1) == 2
  {
    assert BitsOf(0, 0) == [];
  }

  method WriteSelectors(w: BitWriter, nGroups: nat, selector: seq<nat>)
    requires Open(w) && 2 <= nGroups <= 6 && |selector| <= MAX_SELECTORS && Selects(selector, nGroups)
    modifies w
    ensures Open(w) && w.Written() == old(w.Written()) + SelectorBits(nGroups, selector)
  {
    hide Positions, BitsOf, Pow2, BitWriter.Written, UnaryList, Unary;
    ghost var w0 := w.Written();
    var selectorMtf := SelectorPositions(selector, nGroups);
    assert 6 < Pow2(3) by { Pow2Three(); }
    w.Put(3, nGroups);
    assert |selector| < Pow2(15) by { FifteenBits(); }
    w.Put(15, |selector|);
    ghost var w1 := w.Written();
    UnaryNone();
    assert selectorMtf[..0] == [];
    for i := 0 to |selectorMtf|
      invariant Open(w) && w.Written() == w1 + UnaryList(selectorMtf[..i])
    {
      ghost var w2 := w.Written();
      UnaryNext(selectorMtf, i);
      UnaryOnes(0);
      for j := 0 to selectorMtf[i]
        invariant Open(w) && w.Written() == w2 + Ones(j)
      {
        WriteFlag(w, true);
        UnaryOnes(j + 1);
      }
      WriteFlag(w, false);
      UnaryOnes(selectorMtf[i]);
    }
    assert selectorMtf[..|selectorMtf|] == selectorMtf;
  }

  lemma Pow2Three()
    ensures Pow2(3) == 8 && Pow2(5) == 32 && Pow2(2) == 4
  {}

  function Ones(j: nat): bits { seq(j, _ => true) }

  lemma {:induction false} UnaryOnes(j: nat)
    ensures Unary(j) == Ones(j) + [false]
    ensures j > 0 ==> Ones(j) == Ones(j - 1) + [true]
  {
    if j > 0 {
      UnaryOnes(j - 1);
      assert Ones(j) == [true] + Ones(j - 1);
    }
  }

  lemma UnaryNone()
    ensures UnaryList([]) == [] && Ones(0) == []
  {}

  lemma UnaryNext(s: seq<nat>, i: nat)
    requires i < |s|
    ensures UnaryList(s[..i + 1]) == UnaryList(s[..i]) + Unary(s[i])
  {
    assert s[..i + 1][..i] == s[..i];
  }

  /** Steps the current length to v. */
  method WriteDelta(w: BitWriter, start: nat, v: nat)
    requires Open(w)
    modifies w
    ensures Open(w) && w.Written() == old(w.Written()) + DeltaBits(start, v)
  {
    hide BitsOf, Pow2, BitWriter.Written, DeltaBits;
    var curr := start;
    ghost var goal := w.Written() + DeltaBits(start, v);
    Pow2Three();
    while curr < v
      invariant Open(w) && w.Written() + DeltaBits(curr, v) == goal
    {
      DeltaSteps(curr, v);
      w.Put(2, 2);
      curr := curr + 1;
    }
    while curr > v
      invariant Open(w) && v <= curr && w.Written() + DeltaBits(curr, v) == goal
    {
      DeltaSteps(curr, v);
      w.Put(2, 3);
      curr := curr - 1;
    }
    DeltaSteps(curr, v);
    WriteFlag(w, false);
  }

  method WriteTable(w: BitWriter, len: seq<nat>)
    requires Open(w) && len != [] && LengthsIn(len, 1, LONGEST)
    modifies w
    ensures Open(w) && w.Written() == old(w.Written()) + TableBits(len)
  {
    hide BitsOf, Pow2, BitWriter.Written, DeltaBits, DeltaList;
    var curr := len[0];
    Pow2Three();
    w.Put(5, curr);
    ghost var w1 := w.Written();
    DeltaNone(len[0]);
    assert len[..0] == [];
    for i := 0 to |len|
      invariant Open(w) && curr == Current(len[0], len[..i])
      invariant w.Written() == w1 + DeltaList(len[0], len[..i])
    {
      DeltaNext(len[0], len, i);
      WriteDelta(w, curr, len[i]);
      curr := len[i];
    }
    assert len[..|len|] == len;
  }

  lemma DeltaSteps(curr: nat, v: nat)
    ensures curr < v ==> DeltaBits(curr, v) == BitsOf(2, 2) + DeltaBits(curr + 1, v)
    ensures curr > v ==> DeltaBits(curr, v) == BitsOf(3, 2) + DeltaBits(curr - 1, v)
    ensures curr == v ==> DeltaBits(curr, v) == [false]
  {
    assert BitsOf(1, 1) == [true] && BitsOf(1, 0) == [];
  }

  lemma DeltaNone(start: nat)
    ensures DeltaList(start, []) == []
  {}

  lemma DeltaNext(start: nat, len: seq<nat>, i: nat)
    requires i < |len|
    ensures DeltaList(start, len[..i + 1]) == DeltaList(start, len[..i]) + DeltaBits(Current(start, len[..i]), len[i])
    ensures Current(start, len[..i + 1]) == len[i]
  {
    assert len[..i + 1][..i] == len[..i];
  }

  method WriteTables(w: BitWriter, len: seq<seq<nat>>, alphaSize: nat)
    requires Open(w) && TablesIn(len, alphaSize)
    modifies w
    ensures Open(w) && w.Written() == old(w.Written()) + TablesBits(len, alphaSize)
  {
    hide TableBits, BitWriter.Written, TablesBits;
    ghost var w0 := w.Written();
    TablesNone(alphaSize);
    assert len[..0] == [];
    for t := 0 to |len|
      invariant Open(w) && w.Written() == w0 + TablesBits(len[..t], alphaSize)
    {
      TablesNext(len, alphaSize, t);
      WriteTable(w, len[t]);
    }
    assert len[..|len|] == len;
  }

  lemma TablesNone(alphaSize: nat)
    requires alphaSize > 0
    ensures TablesBits([], alphaSize) == []
  {}

  lemma TablesNext(len: seq<seq<nat>>, alphaSize: nat, t: nat)
    requires TablesIn(len, alphaSize) && t < |len|
    ensures TablesBits(len[..t + 1], alphaSize) == TablesBits(len[..t], alphaSize) + TableBits(len[t])
  {
    assert len[..t + 1][..t] == len[..t];
  }

  /** The code array of every table. */
  ghost predicate CodesFor(code: seq<seq<nat>>, len: seq<seq<nat>>) {
    |code| == |len| && forall t :: 0 <= t < |len| ==> CodeRow(code[t], len[t])
  }

  ghost predicate CodeRow(code: seq<nat>, len: seq<nat>) {
    |code| == |len| && forall s :: 0 <= s < |len| ==> code[s] == Code(len, s)
  }

  method AssignAll(len: seq<seq<nat>>, alphaSize: nat) returns (code: seq<seq<nat>>)
    requires TablesIn(len, alphaSize)
    ensures CodesFor(code, len)
  {
    hide MinLen, MaxLen, Code;
    code := [];
    for t := 0 to |len|
      invariant CodesFor(code, len[..t])
    {
      var minLen, maxLen := 32, 0;
      MinMaxNone(len[t]);
      for i := 0 to alphaSize
        invariant minLen == MinLen(len[t][..i]) && maxLen == MaxLen(len[t][..i])
      {
        MinMaxNext(len[t], i);
        if len[t][i] > maxLen { maxLen := len[t][i]; }
        if len[t][i] < minLen { minLen := len[t][i]; }
      }
      assert len[t][..alphaSize] == len[t];
      var row := new nat[alphaSize];
      AssignCodes(row, len[t], minLen, maxLen);
      code := code + [row[..]];
    }
    assert len[..|len|] == len;
  }

  /** The codes of all symbols, group by group. */
  method WriteData(w: BitWriter, mtfv: seq<nat>, len: seq<seq<nat>>, code: seq<seq<nat>>, selector: seq<nat>)
    requires Open(w) && CodesFor(code, len) && Prefix(len) && Codable(mtfv, len, selector)
    requires GROUP * (|selector| - 1) < |mtfv| <= GROUP * |selector|
    modifies w
    ensures Open(w) && w.Written() == old(w.Written()) + DataBits(mtfv, len, selector, 0)
  {
    hide BitsOf, Pow2, BitWriter.Written, DataBits, CodesFor, Prefix, Code;
    var nMTF := |mtfv|;
    ghost var goal := w.Written() + DataBits(mtfv, len, selector, 0);
    var selCtr, gs := 0, 0;
    while true
      invariant 0 <= selCtr <= |selector| && 0 <= gs <= nMTF && gs <= GROUP * selCtr
      invariant selCtr < |selector| ==> gs == GROUP * selCtr
      invariant selCtr == |selector| ==> gs == nMTF
      invariant Open(w) && w.Written() + DataBits(mtfv, len, selector, gs) == goal
      decreases nMTF - gs
    {
      if gs >= nMTF { break; }
      var ge := gs + GROUP - 1;
      if ge >= nMTF { ge := nMTF - 1; }
      assert Covered(gs, len, selector);
      CodesSize(code, len);
      assert selector[selCtr] < |len|;
      for i := gs to ge + 1
        invariant Open(w) && w.Written() + DataBits(mtfv, len, selector, i) == goal
      {
        assert i / GROUP == selCtr && Covered(i, len, selector);
        CodeReady(code, len, selector[selCtr], mtfv[i]);
        DataNext(mtfv, len, selector, i);
        w.Put(len[selector[selCtr]][mtfv[i]], code[selector[selCtr]][mtfv[i]]);
      }
      gs := ge + 1;
      selCtr := selCtr + 1;
    }
    DataNone(mtfv, len, selector);
  }

  lemma CodesSize(code: seq<seq<nat>>, len: seq<seq<nat>>)
    requires CodesFor(code, len)
    ensures |code| == |len|
  {}

  lemma CodeReady(code: seq<seq<nat>>, len: seq<seq<nat>>, t: nat, s: nat)
    requires CodesFor(code, len) && Prefix(len) && t < |len| && s < |len[t]|
    ensures |code| == |len| && |code[t]| == |len[t]| && len[t][s] <= 24 && code[t][s] < Pow2(len[t][s])
    ensures CodeBits(len[t], s) == BitsOf(code[t][s], len[t][s])
  {
    CodeFits(len[t], s);
  }

  lemma DataNext(mtfv: seq<nat>, len: seq<seq<nat>>, selector: seq<nat>, i: nat)
    requires Codable(mtfv, len, selector) && i < |mtfv|
    ensures Covered(i, len, selector) && mtfv[i] < |len[selector[i / GROUP]]|
    ensures DataBits(mtfv, len, selector, i) ==
            CodeBits(len[selector[i / GROUP]], mtfv[i]) + DataBits(mtfv, len, selector, i + 1)
  {
    assert Covered(i, len, selector);
  }

  lemma DataNone(mtfv: seq<nat>, len: seq<seq<nat>>, selector: seq<nat>)
    requires Codable(mtfv, len, selector)
    ensures DataBits(mtfv, len, selector, |mtfv|) == []
  {}

  // ----- sendMTFValues -----

  /** The tables and selectors of a coding are what the passes of the encoder come to. */
  ghost predicate Settled(c: Coding, alphaSize: nat) {
    |c.tables| == T.GroupCount(|c.syms|) && T.Complete(c.tables, alphaSize) && T.Tuned(c.tables, c.syms, c.sel, alphaSize) &&
    exists passes: seq<T.Pass>, freq: seq<nat> :: M.Tallied(freq, c.syms, alphaSize) && |passes| == T.N_ITERS && T.InRow(passes, c.syms, freq, alphaSize) &&
      passes[T.N_ITERS - 1].sel == c.sel && |passes[T.N_ITERS - 1].tables| == |c.tables|
  }

  lemma Choosable(inUse: seq<bool>, len: seq<seq<nat>>, selector: seq<nat>, syms: seq<nat>, freq: seq<nat>, passes: seq<T.Pass>)
    requires |inUse| == 256 && 1 <= |syms| <= T.MAX_SYMBOLS && |len| == T.GroupCount(|syms|)
    requires T.Complete(len, EndOfBlock(inUse) + 1) && |selector| <= MAX_SELECTORS && T.Tuned(len, syms, selector, EndOfBlock(inUse) + 1)
    requires |passes| == T.N_ITERS && T.InRow(passes, syms, freq, EndOfBlock(inUse) + 1)
    requires M.Tallied(freq, syms, EndOfBlock(inUse) + 1)
    requires passes[T.N_ITERS - 1].sel == selector && |passes[T.N_ITERS - 1].tables| == |len|
    requires forall i :: 0 <= i < |syms| ==> syms[i] < EndOfBlock(inUse) + 1
    ensures Sendable(Coding(inUse, len, selector, syms)) && Settled(Coding(inUse, len, selector, syms), EndOfBlock(inUse) + 1)
    ensures GROUP * (|selector| - 1) < |syms| <= GROUP * |selector|
  {
    hide T.Tuned, Prefix;
    var p := passes[T.N_ITERS - 1];
    assert T.Passed(p, syms);
    assert Selects(selector, |len|) by {
      forall k | 0 <= k < |selector| ensures selector[k] < |len| { assert T.BestFor(syms, p.tables, k, selector[k]); }
    }
    forall i | 0 <= i < |syms| ensures Covered(i, len, selector) && syms[i] < |TableFor(i, len, selector)| {
      assert i / GROUP < |selector|;
    }
    AllPrefix(len, EndOfBlock(inUse) + 1);
  }

  lemma AllPrefix(len: seq<seq<nat>>, alphaSize: nat)
    requires T.Complete(len, alphaSize)
    ensures Prefix(len)
  {}

  /** Chooses tables and selectors for the symbols and writes the body of the block. */
  method SendMtfValues(w: BitWriter, inUse: array<bool>, mtfv: seq<nat>, mtfFreq: seq<nat>) returns (ghost c: Coding)
    requires Open(w) && inUse.Length == 256 && 1 <= |mtfv| <= T.MAX_SYMBOLS
    requires |mtfFreq| == EndOfBlock(inUse[..]) + 1 && 3 <= |mtfFreq|
    requires M.Tallied(mtfFreq, mtfv, |mtfFreq|) && forall i :: 0 <= i < |mtfv| ==> mtfv[i] < |mtfFreq|
    modifies w
    ensures Open(w) && Sendable(c) && c.inUse == inUse[..] && c.syms == mtfv
    ensures Settled(c, |mtfFreq|)
    ensures w.Written() == old(w.Written()) + BodyBits(c)
  {
    hide Pow2, BitWriter.Written, DataBits, Prefix, TablesBits, SelectorBits, MapBits, T.BestFor, T.Complete, EndOfBlock, Codable, M.Tallied, T.Sum, T.Tuned, T.InRow, Settled;
    ghost var flags := inUse[..];
    T.TallySum(mtfv, mtfFreq, |mtfFreq|);
    var len, selector;
    ghost var passes;
    UsedFits(flags);
    len, selector, passes := T.ChooseTables(mtfv, mtfFreq);
    Choosable(flags, len, selector, mtfv, mtfFreq, passes);
    c := Coding(flags, len, selector, mtfv);
    assert Sendable(c);
    var code := AssignAll(len, |mtfFreq|);
    WriteMap(w, inUse);
    WriteSelectors(w, |len|, selector);
    WriteTables(w, len, |mtfFreq|);
    WriteData(w, mtfv, len, code, selector);
  }

  lemma UsedFits(inUse: seq<bool>)
    requires |inUse| == 256
    ensures EndOfBlock(inUse) + 1 <= MAX_ALPHA_SIZE
  {}

  // ----- the block -----

  /** The same storage seen as 32-bit words and as pairs of 16-bit halves, low half first. */
  method Halves(ptr: array<nat>) returns (arr1: array<nat>)
    ensures fresh(arr1) && arr1.Length == 2 * ptr.Length
    ensures M.Pointers(arr1[..], ptr.Length) == ptr[..]
  {
    arr1 := new nat[2 * ptr.Length];
    for i := 0 to ptr.Length
      invariant forall k :: 0 <= k < i ==> M.PtrAt(arr1[..], k) == ptr[k]
    {
      arr1[2 * i] := ptr[i] % 65536;
      arr1[2 * i + 1] := ptr[i] / 65536;
    }
  }

  /** One byte of a magic number, the rest still to come. */
  method WriteMagicByte(w: BitWriter, c: nat, ghost magic: seq<nat>, ghost k: nat, ghost goal: bits)
    requires Open(w) && k < |magic| && magic[k] == c < 256 && w.Written() + MagicBits(magic[k..]) == goal
    modifies w
    ensures Open(w) && w.Written() + MagicBits(magic[k + 1..]) == goal
  {
    hide BitsOf, BitWriter.Written, MagicBits;
    MagicOne(magic[k..]);
    assert magic[k..][1..] == magic[k + 1..];
    PutUChar(w, c);
  }

  method WriteMagic(w: BitWriter)
    requires Open(w)
    modifies w
    ensures Open(w) && w.Written() == old(w.Written()) + MagicBits(MAGIC)
  {
    hide BitsOf, BitWriter.Written, MagicBits;
    ghost var goal := w.Written() + MagicBits(MAGIC);
    assert MAGIC[0..] == MAGIC;
    WriteMagicByte(w, 0x31, MAGIC, 0, goal);
    WriteMagicByte(w, 0x41, MAGIC, 1, goal);
    WriteMagicByte(w, 0x59, MAGIC, 2, goal);
    WriteMagicByte(w, 0x26, MAGIC, 3, goal);
    WriteMagicByte(w, 0x53, MAGIC, 4, goal);
    WriteMagicByte(w, 0x59, MAGIC, 5, goal);
    MagicNone(MAGIC, 6);
  }

  lemma MagicNone(magic: seq<nat>, n: nat)
    requires n == |magic|
    ensures MagicBits(magic[n..]) == []
  {}

  method WriteHeader(w: BitWriter, blockCRC: nat, origPtr: nat)
    requires Open(w) && blockCRC < Pow2(32) && origPtr < Pow2(24)
    modifies w
    ensures Open(w) && w.Written() == old(w.Written()) + HeaderBits(Header(blockCRC, 0, origPtr))
  {
    hide BitsOf, Pow2, BitWriter.Written, MagicBits;
    WriteMagic(w);
    PutUInt32(w, blockCRC);
    w.Put(1, 0);
    w.Put(24, origPtr);
  }

  lemma MagicOne(m: seq<nat>)
    requires m != []
    ensures MagicBits(m) == BitsOf(m[0], 8) + MagicBits(m[1..])
  {}

  /** generateMTFValues and sendMTFValues, the sorted pointers being at hand. */
  method CodeColumn(w: BitWriter, arr1: array<nat>, area: array<nat>, nblock: nat, inUse: array<bool>, ghost s: seq<Byte>, ghost p: seq<nat>)
    returns (ghost c: Coding)
    requires Open(w) && arr1 != area && inUse.Length == 256 && 0 < nblock <= MAX_BLOCK
    requires 2 * nblock <= arr1.Length && nblock <= 4 * area.Length && s == Bytes(area[..], nblock) && p == M.Pointers(arr1[..], nblock)
    requires RotationSorted(s, p) && M.AllMarked(s, inUse[..])
    modifies w, arr1
    ensures Open(w) && Sendable(c) && c.inUse == inUse[..] && c.syms == M.ColumnSymbols(LastColumn(s, p), inUse[..])
    ensures |c.syms| <= nblock + 1 && w.Written() == old(w.Written()) + BodyBits(c) && Settled(c, EndOfBlock(c.inUse) + 1)
  {
    hide Settled, BitsOf, Pow2, BitWriter.Written, Sendable, M.Tallied, Bytes, RotationSorted, BodyBits, M.AllMarked, M.ColumnSymbols, LastColumn, EndOfBlock;
    SortedFacts(s, p, inUse[..]);
    var mtfFreq := new nat[M.MAX_ALPHA_SIZE];
    var nMTF, nInUse := M.GenerateMtfValues(arr1, area, nblock, inUse, mtfFreq);
    ColumnAlphabet(LastColumn(s, p), inUse[..], mtfFreq[..], nInUse);
    c := SendMtfValues(w, inUse, arr1[..nMTF], mtfFreq[..nInUse + 2]);
  }

  /** The bits of a block are those of its header and of the symbols of its column, with the tables the encoder settles on. */
  ghost predicate CodedWith(r: bits, got: Received, c: Coding, inUse: seq<bool>) {
    Sendable(c) && r == BlockBits(got.header, c) && |inUse| == 256 && c.inUse == inUse &&
    M.AllMarked(got.col, inUse) && c.syms == M.ColumnSymbols(got.col, inUse) && Settled(c, EndOfBlock(inUse) + 1)
  }

  /** Sorts a block and writes it: the bits decode, with any bits after them, to a column from which the block
      is restored. */
  method CompressBlock(w: BitWriter, ptr: array<nat>, area: array<nat>, ftab: array<nat>, nblock: nat, inUse: array<bool>,
                       workFactor: int, blockCRC: nat, ghost size100k: nat)
    returns (ghost new': bits, ghost got: Received, ghost c: Coding)
    requires Open(w) && ptr != area && ptr != ftab && area != ftab && inUse.Length == 256
    requires 0 < nblock <= MAX_BLOCK && nblock <= 100000 * size100k <= MAX_BLOCK
    requires nblock == ptr.Length <= area.Length && ftab.Length == S.FTAB_SIZE
    requires M.AllMarked(Bytes(area[..], nblock), inUse[..]) && blockCRC < Pow2(32)
    modifies w, ptr, area, ftab
    ensures Open(w) && w.Written() == old(w.Written()) + new'
    ensures forall rest :: ReadBlock(size100k, new' + rest) == Parsed(got, rest)
    ensures got.header.crc == blockCRC && got.header.randomised == 0 && got.header.origPtr < |got.col|
    ensures Invert(got.col, got.header.origPtr) == old(Bytes(area[..], nblock))
    ensures |new'| <= R.Longest(nblock + 1)
    ensures CodedWith(new', got, c, inUse[..])
  {
    hide Settled, CodedWith, R.Longest, BitsOf, Pow2, BitWriter.Written, Sendable, M.Tallied, Bytes, RotationSorted, BodyBits, HeaderBits, ReadBlock, Invert, M.AllMarked, M.ColumnSymbols, LastColumn, EndOfBlock;
    ghost var s := Bytes(area[..], nblock);
    var origPtr := S.SortBlock(ptr, area, ftab, nblock, workFactor);
    ghost var p := ptr[..];
    SortedFacts(s, p, inUse[..]);
    var arr1 := Halves(ptr);
    OrigPtrFits(origPtr);
    WriteHeader(w, blockCRC, origPtr);
    c := CodeColumn(w, arr1, area, nblock, inUse, s, p);
    ghost var h := Header(blockCRC, 0, origPtr);
    new', got := BlockBits(h, c), Received(h, LastColumn(s, p));
    BlockRestored(s, p, h, c, size100k);
    R.BlockNoLonger(h, c, nblock + 1);
    CodedIs(new', got, c, inUse[..]);
  }

  lemma CodedIs(r: bits, got: Received, c: Coding, inUse: seq<bool>)
    requires Sendable(c) && r == BlockBits(got.header, c) && c.inUse == inUse && |inUse| == 256
    requires M.AllMarked(got.col, inUse) && c.syms == M.ColumnSymbols(got.col, inUse) && Settled(c, EndOfBlock(inUse) + 1)
    ensures CodedWith(r, got, c, inUse)
  {}

  lemma BlockRestored(s: seq<Byte>, p: seq<nat>, h: Header, c: Coding, size100k: nat)
    requires 0 < |s| <= 100000 * size100k <= MAX_BLOCK && RotationSorted(s, p) && M.AllMarked(s, c.inUse)
    requires h.crc < Pow2(32) && h.randomised == 0 && h.origPtr < |s| && p[h.origPtr] == 0
    requires Sendable(c) && M.AllMarked(LastColumn(s, p), c.inUse) && c.syms == M.ColumnSymbols(LastColumn(s, p), c.inUse)
    ensures forall rest :: ReadBlock(size100k, BlockBits(h, c) + rest) == Parsed(Received(h, LastColumn(s, p)), rest)
    ensures Invert(LastColumn(s, p), h.origPtr) == s
  {
    hide Pow2, Sendable, RotationSorted, ReadBlock, Invert, M.AllMarked, M.ColumnSymbols, LastColumn, BlockBits;
    SortedFacts(s, p, c.inUse);
    forall rest ensures ReadBlock(size100k, BlockBits(h, c) + rest) == Parsed(Received(h, LastColumn(s, p)), rest) {
      BlockRoundTrip(s, p, h, c, size100k, rest);
    }
    InvertCorrect(s, p, h.origPtr);
  }

  lemma SortedFacts(s: seq<Byte>, p: seq<nat>, inUse: seq<bool>)
    requires RotationSorted(s, p) && M.AllMarked(s, inUse)
    ensures (forall i :: 0 <= i < |p| ==> p[i] < |s|) && M.AllMarked(LastColumn(s, p), inUse) && |inUse| == 256
  {}

  /** Symbols of a column lie in the alphabet of the bytes in use. */
  lemma ColumnAlphabet(col: seq<Byte>, inUse: seq<bool>, freq: seq<nat>, n: nat)
    requires col != [] && M.AllMarked(col, inUse) && n == |M.Used(inUse, 256)| && n + 2 <= |freq|
    requires M.Tallied(freq, M.ColumnSymbols(col, inUse), n + 2)
    ensures 1 <= n <= 256 && n + 1 == EndOfBlock(inUse)
    ensures var syms := M.ColumnSymbols(col, inUse);
            (forall i :: 0 <= i < |syms| ==> syms[i] < n + 2) && M.Tallied(freq[..n + 2], syms, n + 2)
  {
    hide Positions, Symbols, M.Used, M.Numbered;
    ColumnRoundTrip(col, inUse);
    var pos := Positions(M.Identity(n), M.Numbered(col, inUse));
    SymbolsBelow(pos, n);
    RunsBelow(pos, n + 1);
  }
}
