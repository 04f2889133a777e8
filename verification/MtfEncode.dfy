/** The encoder's move-to-front stage.  The symbols are 16-bit values written over the 32-bit sort
    pointers they are computed from; both views share one array of halfwords. */
module MtfEncode {
  import opened Rotations
  import opened Bwt
  import opened ByteArea
  import opened Mtf

  const MAX_ALPHA_SIZE := 258

  // ----- the bytes in use -----

  /** The bytes below k that are in use, ascending. */
  function Used(inUse: seq<bool>, k: nat): (r: seq<nat>)
    requires k <= |inUse|
    ensures |r| <= k && forall i :: 0 <= i < |r| ==> r[i] < k && inUse[r[i]]
  {
    if k == 0 then [] else Used(inUse, k - 1) + if inUse[k - 1] then [k - 1] else []
  }

  lemma {:induction false} UsedHas(inUse: seq<bool>, k: nat, c: nat)
    requires c < k <= |inUse| && inUse[c]
    ensures |Used(inUse, c)| < |Used(inUse, k)| && Used(inUse, k)[|Used(inUse, c)|] == c
  {
    if c < k - 1 { UsedHas(inUse, k - 1, c); }
  }

  lemma UsedNext(inUse: seq<bool>, i: nat)
    requires i < |inUse|
    ensures |Used(inUse, i + 1)| == |Used(inUse, i)| + if inUse[i] then 1 else 0
  {}

  /** Numbers the bytes in use: the encoder's map. */
  method MakeMapsE(inUse: array<bool>, unseqToSeq: array<nat>) returns (nInUse: nat)
    requires inUse.Length == 256 && unseqToSeq.Length == 256
    modifies unseqToSeq
    ensures nInUse == |Used(inUse[..], 256)| <= 256
    ensures forall c :: 0 <= c < 256 && inUse[c] ==> unseqToSeq[c] == |Used(inUse[..], c)|
  {
    hide Used;
    nInUse := 0;
    for i := 0 to 256
      invariant nInUse == |Used(inUse[..], i)|
      invariant forall c :: 0 <= c < i && inUse[c] ==> unseqToSeq[c] == |Used(inUse[..], c)|
    {
      UsedNext(inUse[..], i);
      if inUse[i] {
        unseqToSeq[i] := nInUse;
        nInUse := nInUse + 1;
      }
    }
  }

  /** Lists the bytes in use: the decoder's map. */
  method MakeMapsD(inUse: array<bool>, seqToUnseq: array<nat>) returns (nInUse: nat)
    requires inUse.Length == 256 && seqToUnseq.Length == 256
    modifies seqToUnseq
    ensures nInUse == |Used(inUse[..], 256)| <= 256 && seqToUnseq[..nInUse] == Used(inUse[..], 256)
    ensures forall c :: 0 <= c < 256 && old(seqToUnseq[c]) < 256 ==> seqToUnseq[c] < 256
  {
    nInUse := 0;
    for i := 0 to 256
      invariant nInUse == |Used(inUse[..], i)| <= i && seqToUnseq[..nInUse] == Used(inUse[..], i)
      invariant forall c :: 0 <= c < 256 && old(seqToUnseq[c]) < 256 ==> seqToUnseq[c] < 256
    {
      if inUse[i] {
        seqToUnseq[nInUse] := i;
        nInUse := nInUse + 1;
      }
    }
  }

  /** Every byte of the block is marked. */
  predicate AllMarked(s: seq<Byte>, inUse: seq<bool>) {
    |inUse| == 256 && forall i :: 0 <= i < |s| ==> inUse[s[i]]
  }

  /** The column with every byte replaced by its number. */
  function Numbered(col: seq<Byte>, inUse: seq<bool>): (r: seq<nat>)
    requires |inUse| == 256
    ensures |r| == |col|
  {
    seq(|col|, i requires 0 <= i < |col| => |Used(inUse, col[i])|)
  }

  lemma NumberedBack(col: seq<Byte>, inUse: seq<bool>, i: nat)
    requires AllMarked(col, inUse) && i < |col|
    ensures Numbered(col, inUse)[i] < |Used(inUse, 256)|
    ensures Used(inUse, 256)[Numbered(col, inUse)[i]] == col[i]
  {
    UsedHas(inUse, 256, col[i]);
  }

  function Identity(n: nat): (r: seq<nat>)
    ensures |r| == n && forall i :: 0 <= i < n ==> r[i] == i
  {
    seq(n, i requires 0 <= i < n => i)
  }

  lemma NumberedDrawn(col: seq<Byte>, inUse: seq<bool>)
    requires AllMarked(col, inUse)
    ensures Drawn(Numbered(col, inUse), Identity(|Used(inUse, 256)|))
  {
    forall i | 0 <= i < |col| ensures Numbered(col, inUse)[i] in Identity(|Used(inUse, 256)|) {
      NumberedBack(col, inUse, i);
      assert Identity(|Used(inUse, 256)|)[Numbered(col, inUse)[i]] == Numbered(col, inUse)[i];
    }
  }

  /** The symbols of a column: what this stage computes. */
  function ColumnSymbols(col: seq<Byte>, inUse: seq<bool>): (r: seq<nat>)
    requires AllMarked(col, inUse)
    ensures 1 <= |r| <= |col| + 1
  {
    var n := |Used(inUse, 256)|;
    NumberedDrawn(col, inUse);
    Symbols(Positions(Identity(n), Numbered(col, inUse)), n + 1)
  }

  // ----- counting symbols -----

  function Tally(syms: seq<nat>, v: nat): (r: nat)
    ensures r <= |syms|
  {
    if syms == [] then 0
    else Tally(syms[..|syms| - 1], v) + if syms[|syms| - 1] == v then 1 else 0
  }

  lemma TallyOne(syms: seq<nat>, x: nat, v: nat)
    ensures Tally(syms + [x], v) == Tally(syms, v) + if x == v then 1 else 0
  {
    assert (syms + [x])[..|syms|] == syms;
  }

  ghost predicate Tallied(freq: seq<nat>, syms: seq<nat>, n: nat) {
    n <= |freq| && forall v :: 0 <= v < n ==> freq[v] == Tally(syms, v)
  }

  lemma TalliedOne(freq: seq<nat>, syms: seq<nat>, n: nat, x: nat)
    requires Tallied(freq, syms, n) && x < n
    ensures Tallied(freq[x := freq[x] + 1], syms + [x], n)
  {
    forall v | 0 <= v < n ensures freq[x := freq[x] + 1][v] == Tally(syms + [x], v) {
      TallyOne(syms, x, v);
    }
  }

  /** Appends one symbol and counts it. */
  method Put(arr1: array<nat>, mtfFreq: array<nat>, wr: nat, x: nat, ghost n: nat)
    requires arr1 != mtfFreq && wr < arr1.Length && x < n
    requires Tallied(mtfFreq[..], arr1[..wr], n)
    modifies arr1, mtfFreq
    ensures arr1[..wr + 1] == old(arr1[..wr]) + [x]
    ensures forall k :: wr < k < arr1.Length ==> arr1[k] == old(arr1[k])
    ensures Tallied(mtfFreq[..], arr1[..wr + 1], n)
  {
    TalliedOne(mtfFreq[..], arr1[..wr], n, x);
    arr1[wr] := x;
    mtfFreq[x] := mtfFreq[x] + 1;
    assert arr1[..wr + 1] == old(arr1[..wr]) + [x];
    assert mtfFreq[..] == old(mtfFreq[..])[x := old(mtfFreq[x]) + 1];
  }

  /** Writes a pending run of zeros. */
  method PutRun(arr1: array<nat>, mtfFreq: array<nat>, wr0: nat, zeros: nat, ghost n: nat) returns (wr: nat)
    requires arr1 != mtfFreq && wr0 + zeros <= arr1.Length && zeros > 0 && n >= 2
    requires Tallied(mtfFreq[..], arr1[..wr0], n)
    modifies arr1, mtfFreq
    ensures wr == wr0 + |RunDigits(zeros)| <= wr0 + zeros
    ensures arr1[..wr] == old(arr1[..wr0]) + RunDigits(zeros)
    ensures forall k :: wr0 + zeros <= k < arr1.Length ==> arr1[k] == old(arr1[k])
    ensures Tallied(mtfFreq[..], arr1[..wr], n)
  {
    hide Tallied;
    ghost var goal := arr1[..wr0] + RunDigits(zeros);
    wr := wr0;
    var zPend := zeros - 1;
    while true
      invariant 0 <= zPend && wr0 <= wr && wr + zPend + 1 <= wr0 + zeros
      invariant arr1[..wr] + RunDigits(zPend + 1) == goal
      invariant forall k :: wr0 + zeros <= k < arr1.Length ==> arr1[k] == old(arr1[k])
      invariant Tallied(mtfFreq[..], arr1[..wr], n)
      decreases zPend
    {
      ghost var done := arr1[..wr];
      assert RunDigits(zPend + 1) == [zPend % 2] + RunDigits(zPend / 2);
      assert goal == done + [zPend % 2] + RunDigits(zPend / 2);
      if zPend % 2 == 1 {
        Put(arr1, mtfFreq, wr, RUNB, n);
        wr := wr + 1;
      } else {
        Put(arr1, mtfFreq, wr, RUNA, n);
        wr := wr + 1;
      }
      if zPend < 2 { break; }
      assert zPend / 2 == (zPend - 2) / 2 + 1;
      zPend := (zPend - 2) / 2;
    }
  }

  /** Finds ll beyond the front of the list and moves it there, shifting entries on the way. */
  method MoveInList(yy: array<nat>, ll: nat, ghost n: nat) returns (j: nat)
    requires n <= yy.Length && ll in yy[..n] && yy[0] != ll
    modifies yy
    ensures 0 < j < n && j == IndexOf(old(yy[..n]), ll)
    ensures yy[..n] == MoveToFront(old(yy[..n]), j)
  {
    hide IndexOf;
    ghost var y0 := yy[..n];
    ghost var t := IndexOf(y0, ll);
    var rtmp := yy[1];
    yy[1] := yy[0];
    j := 1;
    while ll != rtmp
      invariant 1 <= j <= t && rtmp == y0[j] && yy[0] == y0[0]
      invariant forall k :: 1 <= k <= j ==> yy[k] == y0[..n - 1][k - 1]
      invariant forall k :: j < k < n ==> yy[k] == y0[k]
      decreases t - j
    {
      j := j + 1;
      var rtmp2 := rtmp;
      rtmp := yy[j];
      yy[j] := rtmp2;
    }
    yy[0] := rtmp;
  }

  /** Sort pointer i, a 32-bit word in two halfwords. */
  function PtrAt(h: seq<nat>, i: nat): nat
    requires 2 * i + 1 < |h|
  {
    h[2 * i] + 65536 * h[2 * i + 1]
  }

  function Pointers(h: seq<nat>, n: nat): (p: seq<nat>)
    requires 2 * n <= |h|
    ensures |p| == n
  {
    seq(n, i requires 0 <= i < n => PtrAt(h, i))
  }

  /** The symbol stream after the first i rows: written symbols, pending run, list. */
  ghost predicate Encoding(syms: seq<nat>, zPend: nat, list: seq<nat>, data: seq<nat>, n: nat) {
    Drawn(data, Identity(n)) &&
    syms == Written(Positions(Identity(n), data)) &&
    zPend == TrailingZeros(Positions(Identity(n), data)) &&
    list == ListAfter(Identity(n), data)
  }

  lemma EncodingFacts(syms: seq<nat>, zPend: nat, list: seq<nat>, data: seq<nat>, n: nat, v: nat)
    requires Encoding(syms, zPend, list, data, n) && v < n
    ensures |syms| + zPend <= |data| && |list| == n && v in list
  {
    assert Identity(n)[v] == v;
  }

  /** One more row: a found-at-front entry lengthens the run, any other ends it. */
  lemma EncodingStep(syms: seq<nat>, zPend: nat, list: seq<nat>, data: seq<nat>, n: nat, v: nat)
    requires Encoding(syms, zPend, list, data, n) && v < n && v in list
    ensures IndexOf(list, v) == 0 ==> Encoding(syms, zPend + 1, list, data + [v], n)
    ensures var j := IndexOf(list, v);
            j > 0 ==> Encoding(syms + RunDigits(zPend) + [j + 1], 0, MoveToFront(list, j), data + [v], n)
  {
    hide RunDigits, IndexOf, Written, TrailingZeros, Positions, ListAfter, Drawn;
    var id := Identity(n);
    assert id[v] == v;
    var j := IndexOf(list, v);
    PositionsOne(id, data, v);
    WrittenOne(Positions(id, data), j);
    if j == 0 { assert MoveToFront(list, 0) == list; }
  }

  /** One row: lengthen the pending run, or write it out and then the raised list position. */
  method EncodeRow(arr1: array<nat>, mtfFreq: array<nat>, yy: array<nat>, wr0: nat, zPend0: nat, ll: nat,
                   ghost data: seq<nat>, n: nat)
    returns (wr: nat, zPend: nat)
    requires arr1 != mtfFreq && arr1 != yy && mtfFreq != yy && 0 < n <= yy.Length && ll < n
    requires wr0 + zPend0 <= |data| && |data| < arr1.Length
    requires Encoding(arr1[..wr0], zPend0, yy[..n], data, n) && Tallied(mtfFreq[..], arr1[..wr0], n + 2)
    modifies arr1, mtfFreq, yy
    ensures wr + zPend <= |data| + 1
    ensures Encoding(arr1[..wr], zPend, yy[..n], data + [ll], n) && Tallied(mtfFreq[..], arr1[..wr], n + 2)
    ensures forall k :: |data| < k < arr1.Length ==> arr1[k] == old(arr1[k])
  {
    hide Encoding, Tallied, RunDigits, MoveToFront;
    ghost var syms, list := arr1[..wr0], yy[..n];
    wr, zPend := wr0, zPend0;
    EncodingFacts(syms, zPend, list, data, n, ll);
    EncodingStep(syms, zPend, list, data, n, ll);
    if yy[0] == ll {
      zPend := zPend + 1;
    } else {
      if zPend > 0 {
        wr := PutRun(arr1, mtfFreq, wr, zPend, n + 2);
      } else {
        NoRun();
      }
      assert arr1[..wr] == syms + RunDigits(zPend);
      zPend := 0;
      var j := MoveInList(yy, ll, n);
      Put(arr1, mtfFreq, wr, j + 1, n + 2);
      wr := wr + 1;
    }
  }

  /** Numbers the bytes in use, clears the counts and lists the numbers in order. */
  method Prepare(inUse: array<bool>, unseqToSeq: array<nat>, mtfFreq: array<nat>, yy: array<nat>) returns (nInUse: nat)
    requires inUse.Length == 256 && unseqToSeq.Length == 256 && mtfFreq.Length == MAX_ALPHA_SIZE && yy.Length == 256
    requires unseqToSeq != mtfFreq && unseqToSeq != yy && mtfFreq != yy
    modifies unseqToSeq, mtfFreq, yy
    ensures nInUse == |Used(inUse[..], 256)| <= 256
    ensures forall c :: 0 <= c < 256 && inUse[c] ==> unseqToSeq[c] == |Used(inUse[..], c)|
    ensures Encoding([], 0, yy[..nInUse], [], nInUse) && Tallied(mtfFreq[..], [], nInUse + 2)
  {
    hide Used;
    nInUse := MakeMapsE(inUse, unseqToSeq);
    var eob := nInUse + 1;
    for i := 0 to eob + 1
      invariant forall v :: 0 <= v < i ==> mtfFreq[v] == 0
      modifies mtfFreq
    {
      mtfFreq[i] := 0;
    }
    for i := 0 to nInUse
      invariant forall k :: 0 <= k < i ==> yy[k] == k
      modifies yy
    {
      yy[i] := i;
    }
    assert yy[..nInUse] == Identity(nInUse);
    EncodingStart(mtfFreq[..], nInUse);
  }

  /** Number of the byte preceding the rotation that sort pointer i names. */
  method FetchRow(arr1: array<nat>, area: array<nat>, unseqToSeq: array<nat>, i: nat, nblock: nat,
                  ghost p: seq<nat>, ghost flags: seq<bool>)
    returns (ll: nat)
    requires i < nblock == |p| && 2 * i + 1 < arr1.Length && nblock <= 4 * area.Length
    requires PtrAt(arr1[..], i) == p[i] && (forall k :: 0 <= k < nblock ==> p[k] < nblock)
    requires AllMarked(LastColumn(Bytes(area[..], nblock), p), flags)
    requires unseqToSeq.Length == 256 && forall c :: 0 <= c < 256 && flags[c] ==> unseqToSeq[c] == |Used(flags, c)|
    ensures ll == Numbered(LastColumn(Bytes(area[..], nblock), p), flags)[i] < |Used(flags, 256)|
  {
    hide GetByte, Used;
    var j := (arr1[2 * i] + 65536 * arr1[2 * i + 1]) as int - 1;
    if j < 0 { j := j + nblock; }
    ghost var col := LastColumn(Bytes(area[..], nblock), p);
    assert GetByte(area[j / 4], j % 4) == col[i];
    ll := unseqToSeq[GetByte(area[j / 4], j % 4)];
    NumberedBack(col, flags, i);
  }

  /** Turns the sorted pointers into symbols.  The symbols never catch up with the pointers: before row
      i is read at most i symbols have been written, in the space of the first i / 2 pointers. */
  method GenerateMtfValues(arr1: array<nat>, area: array<nat>, nblock: nat, inUse: array<bool>, mtfFreq: array<nat>)
    returns (nMTF: nat, nInUse: nat)
    requires arr1 != area && arr1 != mtfFreq && area != mtfFreq
    requires 0 < nblock && 2 * nblock <= arr1.Length && nblock <= 4 * area.Length
    requires inUse.Length == 256 && mtfFreq.Length == MAX_ALPHA_SIZE
    requires forall i :: 0 <= i < nblock ==> Pointers(arr1[..], nblock)[i] < nblock
    requires AllMarked(LastColumn(Bytes(area[..], nblock), Pointers(arr1[..], nblock)), inUse[..])
    modifies arr1, mtfFreq
    ensures nInUse == |Used(inUse[..], 256)| && 1 <= nMTF <= nblock + 1
    ensures arr1[..nMTF] ==
      ColumnSymbols(LastColumn(Bytes(area[..], nblock), old(Pointers(arr1[..], nblock))), inUse[..])
    ensures Tallied(mtfFreq[..], arr1[..nMTF], nInUse + 2)
  {
    hide GetByte, Encoding, Tallied, Written, ListAfter, Positions, Used, RunDigits, MoveToFront, Drawn, Symbols, Numbered, LastColumn, Bytes;
    ghost var h0 := arr1[..];
    ghost var s, p := Bytes(area[..], nblock), Pointers(h0, nblock);
    ghost var col, flags := LastColumn(s, p), inUse[..];
    ghost var data := Numbered(col, flags);
    var yy := new nat[256];
    var unseqToSeq := new nat[256];
    nInUse := Prepare(inUse, unseqToSeq, mtfFreq, yy);
    var eob := nInUse + 1;
    NumberedBack(col, flags, 0);
    assert forall i :: 0 <= i < nblock ==> p[i] == PtrAt(h0, i);
    var wr, zPend := 0, 0;
    assert arr1[..0] == [] && data[..0] == [];
    for i := 0 to nblock
      invariant 0 <= wr && 0 <= zPend && wr + zPend <= i
      invariant Encoding(arr1[..wr], zPend, yy[..nInUse], data[..i], nInUse)
      invariant forall k :: 2 * i <= k < arr1.Length ==> arr1[k] == h0[k]
      invariant Tallied(mtfFreq[..], arr1[..wr], nInUse + 2)
      modifies arr1, mtfFreq, yy
    {
      assert PtrAt(arr1[..], i) == PtrAt(h0, i);
      var ll := FetchRow(arr1, area, unseqToSeq, i, nblock, p, flags);
      assert data[..i + 1] == data[..i] + [ll];
      wr, zPend := EncodeRow(arr1, mtfFreq, yy, wr, zPend, ll, data[..i], nInUse);
    }
    assert data[..nblock] == data;
    ghost var syms := arr1[..wr];
    if zPend > 0 {
      wr := PutRun(arr1, mtfFreq, wr, zPend, nInUse + 2);
    } else {
      NoRun();
    }
    assert arr1[..wr] == syms + RunDigits(zPend);
    Put(arr1, mtfFreq, wr, eob, nInUse + 2);
    wr := wr + 1;
    EncodingDone(syms, zPend, yy[..nInUse], data, nInUse);
    nMTF := wr;
  }

  lemma NoRun()
    ensures RunDigits(0) == []
  {}

  lemma EncodingStart(freq: seq<nat>, n: nat)
    requires n + 2 <= |freq| && forall v :: 0 <= v < n + 2 ==> freq[v] == 0
    ensures Encoding([], 0, Identity(n), [], n) && Tallied(freq, [], n + 2)
  {}

  lemma EncodingDone(syms: seq<nat>, zPend: nat, list: seq<nat>, data: seq<nat>, n: nat)
    requires Encoding(syms, zPend, list, data, n)
    ensures Drawn(data, Identity(n))
    ensures syms + RunDigits(zPend) + [n + 1] == Symbols(Positions(Identity(n), data), n + 1)
  {}
}
