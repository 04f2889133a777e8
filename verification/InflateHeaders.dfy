/** Inflate's modes TYPE to CODELENS: block types, stored blocks, and the code lengths of dynamic blocks. */
module InflateHeaders {
  import opened Rotations
  import opened Words
  import opened Bits
  import opened InflateBits
  import opened Codes
  import opened InflateCodes
  import opened TableLayout
  import opened Inftrees
  import opened InflateElements
  import opened Outcomes
  import opened InflateBlocks
  import opened InflateState
  import opened InflateViews
  import opened FixedCodes

  /** The arrays are of their sizes and do not overlap. */
  ghost predicate Apart(s: Inflate)
    reads s`output
  {
    && s.lens.Length == 320 && s.work.Length == 288 && s.codes.Length == ENOUGH_LENS + ENOUGH_DISTS && s.lens != s.work
    && var mine: set<object> := {s.lens, s.work, s.codes};
       s.window !in mine && s.output !in mine
  }

  /** The code-length code lengths received, in their order. */
  function Sent(lens: seq<nat>, have: nat): (v: seq<nat>)
    requires |lens| >= 19 && have <= 19
    ensures |v| == have
  {
    seq(have, k requires 0 <= k < have => Ordered(lens, k))
  }

  function Ordered(lens: seq<nat>, k: nat): nat
    requires |lens| >= 19 && k < 19
  {
    lens[ORDER[k]]
  }

  /** The lengths received so far. */
  ghost function Received(s: Inflate): seq<nat>
    reads s`mode, s`have, s.lens
  {
    if s.mode == LENLENS && s.have <= 19 <= s.lens.Length then Sent(s.lens[..], s.have)
    else if s.mode == CODELENS && s.have <= s.lens.Length then s.lens[..s.have]
    else []
  }

  ghost function See(s: Inflate, future: bits): View
    requires s.next <= |s.input| && s.put <= s.output.Length
    reads s, s.lens, s.output
  {
    View(s.mode, s.last, s.window.Length, s.tb, s.length, s.offset, s.extra, s.nlen, s.ndist, s.ncode, Received(s),
         s.Rest() + future, s.Total())
  }

  /** What does not depend on the mode. */
  ghost predicate Kept(s: Inflate)
    reads s`output, s`put, s`wsize, s`whave, s`wnext, s`history, s.window
  {
    s.Room() && s.Windowed() && Apart(s)
  }

  /** What the mode relies on. */
  ghost predicate Prepared(s: Inflate)
    reads s`mode, s`nlen, s`ndist, s`ncode, s`have, s`tb, s.lens
  {
    match s.mode
    case LENLENS =>
      Sizes(s.nlen, s.ndist) && 4 <= s.ncode <= 19 && s.have == |Received(s)| <= s.ncode && AllBelow(Received(s), 8)
    case CODELENS =>
      Sizes(s.nlen, s.ndist) && s.have == |Received(s)| <= s.nlen + s.ndist && AllBelow(Received(s), 16)
      && AllSettled(s.tb.lencode, s.tb.lenbits) && Flat(s.tb.lencode, s.tb.lenbits)
    case _ => true
  }

  lemma PreparedFields(s: Inflate, future: bits)
    requires s.next <= |s.input| && s.put <= s.output.Length && Prepared(s)
    ensures Fields(See(s, future))
  {
    hide Received, Sizes, AllBelow, AllSettled, Flat, Inflate.Rest, Inflate.Total;
  }

  ghost predicate Consistent(s: Inflate)
    reads s, s.window, s.lens
  {
    s.Valid() && Apart(s) && Prepared(s) && Trim(s)
  }

  /** No bits too many are held where bytes are copied or data begin, and only a last block ends the stream. */
  predicate Trim(s: Inflate)
    reads s`mode, s`last, s`bits, s`have, s`nlen, s`ndist
  {
    (s.mode == CHECK ==> s.last) && (s.mode == COPY ==> s.bits == 0) && (s.mode == CODELENS && s.have == s.nlen + s.ndist ==> s.bits < 8)
  }

  lemma Opened(s: Inflate)
    requires Consistent(s) && !InBlock(s.mode) && s.mode != BAD && s.mode != CHECK
    ensures s.Held() && Kept(s) && s.next <= |s.input| && s.put <= s.output.Length && Prepared(s)
    ensures Lean(s.tb, s.mode, s.hold, s.bits, s.extra) && s.lens.Length == 320 && Trim(s)
  {
    hide Inflate.Windowed, Prepared, Lean, ModeFields;
  }

  lemma Closed(s: Inflate)
    requires s.Held() && Kept(s) && s.put <= s.output.Length && Prepared(s) && !InBlock(s.mode)
    requires Lean(s.tb, s.mode, s.hold, s.bits, s.extra) && Trim(s)
    ensures Consistent(s)
  {
    hide Inflate.Windowed, Prepared, Lean;
  }

  /** Modes that rely on nothing. */
  lemma SimplePrepared(s: Inflate)
    requires s.mode != LENLENS && s.mode != CODELENS
    ensures Prepared(s)
  {}

  lemma KeptRoom(s: Inflate)
    requires Kept(s)
    ensures s.put <= s.output.Length && s.Room() && s.Windowed() && Apart(s)
  {}

  lemma KeptBack(s: Inflate)
    requires s.Room() && s.Windowed() && Apart(s)
    ensures Kept(s)
  {}

  /** The input ends before the next step. */
  ghost predicate Starved(s: Inflate)
    reads s, s.lens, s.output
  {
    s.next == |s.input| && s.put <= s.output.Length && Whole(See(s, [])) == Cut(s.Total())
  }

  // ----- bits -----

  /** BITS and DROPBITS. */
  method Take(s: Inflate, n: nat, ghost future: bits) returns (v: nat)
    requires s.Held() && n <= s.bits
    modifies s`hold, s`bits
    ensures s.Held() && s.bits == old(s.bits) - n && n <= |old(s.Rest()) + future|
    ensures v == Hold((old(s.Rest()) + future)[..n]) < Pow2(n) && s.Rest() + future == (old(s.Rest()) + future)[n..]
    ensures s.Rest() == old(s.Rest())[n..]
  {
    hide LowBits, Hold, Extra, Stream, Pow2;
    s.HeldFront(future);
    v := LowBits(s.hold, n);
    s.DropBits(n);
  }

  /** BYTEBITS: the bits held before the next byte boundary. */
  method ByteBits(s: Inflate, ghost future: bits)
    requires s.Held() && Aligned(future)
    modifies s`hold, s`bits
    ensures s.Held() && s.bits == old(s.bits) - old(s.bits) % 8 && s.bits % 8 == 0 && |s.Rest()| <= |old(s.Rest())|
    ensures var r := old(s.Rest()) + future; |r| % 8 <= |r| && s.Rest() + future == r[|r| % 8..]
    ensures s.Rest() == old(s.Rest())[old(s.bits) % 8..]
  {
    hide Extra, Stream, Pow2;
    ghost var r := s.Rest() + future;
    assert |r| % 8 == s.bits % 8;
    s.DropBits(s.bits % 8);
  }

  /** Look up the root entry of a table without links. */
  method GetPlain(s: Inflate, t: seq<Entry>, root: nat, ghost future: bits) returns (ok: bool, here: Entry)
    requires s.Held() && AllSettled(t, root) && Flat(t, root) && (s.bits < 8 || Repeating(t, root, s.hold, s.bits))
    modifies s`hold, s`bits, s`next
    ensures s.Held() && s.Rest() == old(s.Rest())
    ensures ok ==> 1 <= here.bits <= s.bits < here.bits + 8
    ensures ok ==> Lookup(t, root, s.hold) == Hit(here.op, here.val, here.bits)
    ensures !ok ==> s.next == |s.input| && Wanting(t, root, s.hold, s.bits) && ReadCode(t, root, s.Rest()) == Need
  {
    hide Lookup, LowBits, Hold, Extra, Stream, Pow2, Shr, AllSettled, ReadCode, Wanting, Settled, Inflate.Rest, Flat;
    s.CodeSettled(t, root, future);
    RepeatingSnug(t, root, s.Rest() + future, s.hold, s.bits);
    ok, here := s.GetRoot(t, root, future);
    s.CodeSettled(t, root, future);
    if !ok { return; }
    PlainHit(t, root, s.hold);
    s.Sufficient(t, root, s.hold, s.bits, here.op, here.val, here.bits);
    s.HeldBits(future);
    s.ReadFound(t, root, s.Rest() + future, here.op, here.val, here.bits);
    PlainBits(t, root, s.hold, here.bits);
  }

  lemma RepeatingSnug(t: seq<Entry>, root: nat, r: bits, hold: nat, n: nat)
    requires n < 8 || Repeating(t, root, hold, n)
    requires Wanting(t, root, hold, n) ==> Snug(t, root, r, n + 8)
    requires !Wanting(t, root, hold, n) ==> Lookup(t, root, Hold(r)) == Lookup(t, root, hold)
    ensures Snug(t, root, r, n)
  {
    hide Lookup, Hold;
  }

  lemma PlainHit(t: seq<Entry>, root: nat, hold: nat)
    requires AllSettled(t, root) && Flat(t, root)
    ensures LowBits(hold, root) < |t|
    ensures var here := t[LowBits(hold, root)]; Lookup(t, root, hold) == Hit(here.op, here.val, here.bits)
  {
    hide LowBits, Pow2, Settled;
    assert PlainAt(t, LowBits(hold, root));
  }

  lemma PlainBits(t: seq<Entry>, root: nat, hold: nat, n: nat)
    requires AllSettled(t, root) && Lookup(t, root, hold).Hit? && Lookup(t, root, hold).bits == n
    ensures 1 <= n
  {
    hide Lookup;
    assert Settled(t, root, hold);
  }

  // ----- TYPE -----

  /** Tables that decode as the code lengths say. */
  lemma TablesDecode(tb: Tables, lens: seq<nat>, dlens: seq<nat>)
    requires |lens| <= Symbols(LENS) && |dlens| <= Symbols(DISTS)
    requires Decoding(tb.lencode, tb.lenbits, LENS, lens) && Decoding(tb.distcode, tb.distbits, DISTS, dlens)
    ensures Usable(tb) && AlikeTables(tb, IdealTables(lens, dlens))
  {
    hide Decoding, Ideal, Alike, LinksFull, Sound;
    TablesSound(tb, lens, dlens);
    NothingLinks(tb.lencode, tb.lenbits, LENS, lens);
    NothingLinks(tb.distcode, tb.distbits, DISTS, dlens);
    DecodesIdeally(tb.lencode, tb.lenbits, LENS, lens);
    DecodesIdeally(tb.distcode, tb.distbits, DISTS, dlens);
  }

  lemma NothingLinks(t: seq<Entry>, root: nat, kind: Kind, lens: seq<nat>)
    requires Decoding(t, root, kind, lens)
    ensures LinksFull(t, root)
  {
    hide Finds, Rejected, RestInvalid, Lengths;
    assert Pow2(1) == 2;
  }

  /** Set the n lengths from `from` on to v. */
  method SetLens(lens: array<nat>, from: nat, to: nat, v: nat)
    requires from <= to <= lens.Length
    modifies lens
    ensures lens[..to] == old(lens[..from]) + Repeated(v, to - from)
  {
    for sym := from to to
      invariant lens[..sym] == old(lens[..from]) + Repeated(v, sym - from)
    {
      lens[sym] := v;
      assert lens[..sym + 1] == lens[..sym] + [v];
    }
  }

  /** fixedtables: the tables of the fixed codes. */
  method FixedTables(s: Inflate)
    requires Apart(s)
    modifies s`tb, s.lens, s.work
    ensures Decoding(s.tb.lencode, s.tb.lenbits, LENS, FixedLens()) && Decoding(s.tb.distcode, s.tb.distbits, DISTS, FixedDists())
  {
    hide FixedLens, FixedDists, Decoding, TableSize, RootBits, Longest, Rejected, Lengths;
    FixedFit();
    var fixed := new Entry[544];
    SetLens(s.lens, 0, 144, 8);
    SetLens(s.lens, 144, 256, 9);
    SetLens(s.lens, 256, 280, 7);
    SetLens(s.lens, 280, 288, 8);
    assert s.lens[..288] == FixedLens() by { FixedParts(s.lens[..288]); }
    var ret, next, root := InflateTable(LENS, s.lens[..288], fixed, 0, 9, s.work);
    assert fixed[0..] == fixed[..];
    s.tb := Tables(fixed[..], root, [], 0);
    SetLens(s.lens, 0, 32, 5);
    assert s.lens[..32] == FixedDists() by { FixedDistParts(s.lens[..32]); }
    ret, next, root := InflateTable(DISTS, s.lens[..32], fixed, next, 5, s.work);
    s.tb := s.tb.(distcode := fixed[512..], distbits := root);
  }

  lemma FixedParts(lens: seq<nat>)
    requires lens == [] + Repeated(8, 144) + Repeated(9, 112) + Repeated(7, 24) + Repeated(8, 8)
    ensures lens == FixedLens()
  {
    hide Repeated;
    assert [] + Repeated(8, 144) == Repeated(8, 144);
  }

  lemma FixedDistParts(lens: seq<nat>)
    requires lens == [] + Repeated(5, 32)
    ensures lens == FixedDists()
  {}

  lemma TypeBits(r: bits)
    requires |r| >= 3
    ensures r[0] <==> Hold(r[..1]) == 1
    ensures r[1..][..2] == r[1..3] && r[1..][2..] == r[3..]
  {
    assert r[..1][1..] == [];
  }

  /** The three bits that begin a block. */
  method TakeType(s: Inflate, ghost future: bits) returns (last: bool, kind: nat)
    requires s.Held() && 3 <= s.bits < 11
    modifies s`hold, s`bits
    ensures s.Held() && s.bits < 8 && s.Rest() == old(s.Rest())[3..]
    ensures var r := old(s.Rest()) + future;
            |r| >= 3 && last == r[0] && kind == Hold(r[1..3]) && s.Rest() + future == r[3..]
  {
    hide Inflate.Rest, Hold;
    ghost var r := s.Rest() + future;
    var bit := Take(s, 1, future);
    kind := Take(s, 2, future);
    TypeBits(r);
    last := bit == 1;
  }

  lemma LeanType(tb: Tables, hold: nat, n: nat, extra: nat)
    requires Lean(tb, TYPE, hold, n, extra)
    ensures n < 8
  {}

  /** After the last block: on to the next byte boundary. */
  method EndStream(s: Inflate, ghost future: bits)
    requires Consistent(s) && s.mode == TYPE && s.last && Aligned(future)
    modifies s`hold, s`bits, s`mode
    ensures Consistent(s) && s.mode == CHECK && |s.Rest()| <= |old(s.Rest())|
    ensures Whole(See(s, future)) == old(Whole(See(s, future)))
  {
    hide Inflate.Rest, Inflate.Total, Whole, Lean, Consistent, Kept, Prepared;
    Opened(s);
    ghost var v := See(s, future);
    LeanType(s.tb, s.hold, s.bits, s.extra);
    ByteBits(s, future);
    s.mode := CHECK;
    LeanFew(s.tb, s.mode, s.hold, s.bits, s.extra);
    SimplePrepared(s);
    Closed(s);
    LastAligned(v, See(s, future));
  }

  /** The type of a block decides what comes next. */
  method BlockType(s: Inflate, kind: nat, ghost future: bits)
    requires s.Held() && Kept(s) && s.put <= s.output.Length && s.bits < 8
    modifies s`mode, s`tb, s.lens, s.work
    ensures Consistent(s) && (s.mode == BAD || s.mode == LEN || s.mode == STORED || s.mode == TABLE)
    ensures var w := See(s, future); Pend(w) == Block(w.wsize, kind, w.rest, w.total)
  {
    hide Pend, Block, Inflate.Rest, Inflate.Total, Lean, Prepared, Kept, Consistent, FixedLens, FixedDists, Decoding, IdealTables, AlikeTables, Usable;
    if kind == 1 {
      KeptRoom(s);
      FixedTables(s);
      KeptBack(s);
      s.mode := LEN;
      SymbolNumbers();
      TablesDecode(s.tb, FixedLens(), FixedDists());
      FixedBegins(See(s, future));
      LeanFew(s.tb, s.mode, s.hold, s.bits, s.extra);
      SimplePrepared(s);
      ClosedData(s);
    } else {
      s.mode := if kind == 0 then STORED else if kind == 2 then TABLE else BAD;
      TypeModes(See(s, future), kind);
      LeanFew(s.tb, s.mode, s.hold, s.bits, s.extra);
      SimplePrepared(s);
      Closed(s);
    }
  }

  lemma ClosedData(s: Inflate)
    requires s.Held() && Kept(s) && s.put <= s.output.Length && Prepared(s) && s.mode == LEN && Usable(s.tb)
    requires Lean(s.tb, s.mode, s.hold, s.bits, s.extra)
    ensures Consistent(s)
  {
    hide Inflate.Windowed, Prepared, Lean, Usable;
  }

  /** The first bits of a block, all held. */
  method NextBlock(s: Inflate, ghost future: bits)
    requires s.Held() && Kept(s) && s.put <= s.output.Length && s.mode == TYPE && !s.last && 3 <= s.bits < 11
    modifies s`hold, s`bits, s`mode, s`last, s`tb, s.lens, s.work
    ensures Consistent(s) && |s.Rest()| < |old(s.Rest())|
    ensures Whole(See(s, future)) == old(Whole(See(s, future)))
  {
    hide Inflate.Rest, Inflate.Total, Block, Hold, Lean, Pend, Whole, Consistent, Kept, Prepared;
    ghost var v := See(s, future);
    var last, kind := TakeType(s, future);
    s.last := last;
    BlockType(s, kind, future);
    TypeTaken(v, See(s, future));
  }

  /** TYPE and TYPEDO. */
  method TypeDo(s: Inflate, ghost future: bits) returns (ok: bool)
    requires Consistent(s) && s.mode == TYPE && Aligned(future)
    modifies s`hold, s`bits, s`next, s`mode, s`last, s`tb, s.lens, s.work
    ensures Consistent(s) && Whole(See(s, future)) == old(Whole(See(s, future)))
    ensures if ok then s.mode == CHECK || |s.Rest()| < |old(s.Rest())| else Starved(s)
    ensures |s.Rest()| <= |old(s.Rest())| && (!ok ==> s.mode == old(s.mode))
  {
    hide Inflate.Rest, Inflate.Total, Lean, Pend, Whole, Consistent, Kept, Prepared;
    if s.last {
      EndStream(s, future);
      return true;
    }
    Opened(s);
    LeanType(s.tb, s.hold, s.bits, s.extra);
    ok := s.NeedBits(3);
    if ok {
      NextBlock(s, future);
    } else {
      LeanFew(s.tb, s.mode, s.hold, s.bits, s.extra);
      SimplePrepared(s);
      Closed(s);
      assert s.Rest() + [] == s.Rest();
      TypeShort(See(s, []));
    }
  }

  // ----- stored blocks -----

  /** The length and its complement, all held. */
  method TakeLength(s: Inflate, ghost future: bits) returns (len: nat, nlen: nat)
    requires s.Held() && s.bits == 32
    modifies s`hold, s`bits
    ensures s.Held() && s.bits == 0 && |s.Rest()| == |old(s.Rest())| - 32
    ensures |old(s.Rest()) + future| >= 32 && Halves(old(s.Rest()) + future) == (len, nlen, s.Rest() + future)
  {
    hide Inflate.Rest, Hold, Pow2;
    ghost var r := s.Rest() + future;
    s.HeldBits(future);
    s.HeldBits([]);
    len := Take(s, 16, future);
    nlen := Take(s, 16, future);
    assert r[16..][..16] == r[16..32] && r[16..][16..] == r[32..];
  }

  method StoredLength(s: Inflate, ghost future: bits)
    requires s.Held() && Kept(s) && s.put <= s.output.Length && s.mode == STORED && s.bits == 32 && Aligned(future)
    modifies s`hold, s`bits, s`mode, s`length
    ensures Consistent(s) && |s.Rest()| < |old(s.Rest())|
    ensures Whole(See(s, future)) == old(Whole(See(s, future)))
  {
    hide Inflate.Rest, Inflate.Total, Hold, Whole, Lean, Consistent, Kept, Prepared, Received, Aligned, Halves, Stream, Extra, Pow2, Shr, LowBits;
    ghost var v := See(s, future);
    WholeBytes(s, future);
    var len, nlen := TakeLength(s, future);
    SetLength(s, len, nlen);
    StoredTaken(v, See(s, future), len, nlen);
    LeanFew(s.tb, s.mode, s.hold, s.bits, s.extra);
    Closed(s);
  }

  /** Keep the length, unless its complement is wrong. */
  method SetLength(s: Inflate, len: nat, nlen: nat)
    modifies s`mode, s`length
    ensures s.length == len && s.mode == (if len + nlen != 0xffff then BAD else COPY) && Prepared(s)
  {
    s.length := len;
    s.mode := if len + nlen != 0xffff then BAD else COPY;
  }

  lemma WholeBytes(s: Inflate, future: bits)
    requires s.next <= |s.input| && s.bits % 8 == 0 && Aligned(future)
    ensures Aligned(s.Rest() + future) && |s.Rest() + future| >= s.bits
  {}

  lemma HeldBounds(s: Inflate)
    requires s.Held()
    ensures s.next <= |s.input|
  {}

  /** BYTEBITS in STORED. */
  method AlignStored(s: Inflate, ghost future: bits)
    requires s.Held() && s.put <= s.output.Length && s.mode == STORED && s.bits < 32 && Aligned(future)
    modifies s`hold, s`bits
    ensures s.Held() && s.bits < 32 && s.bits % 8 == 0 && |s.Rest()| <= |old(s.Rest())|
    ensures Whole(See(s, future)) == old(Whole(See(s, future)))
  {
    hide Inflate.Rest, Inflate.Total, Whole, Pend, Stream, Extra, Pow2, Aligned, Received, Inflate.Held;
    HeldBounds(s);
    ghost var v := See(s, future);
    ByteBits(s, future);
    HeldBounds(s);
    StoredAligned(v, See(s, future));
  }

  /** NEEDBITS(32) in STORED. */
  method NeedLength(s: Inflate, ghost future: bits) returns (ok: bool)
    requires s.Held() && s.put <= s.output.Length && s.bits < 32 && s.bits % 8 == 0
    modifies s`hold, s`bits, s`next
    ensures s.Held() && s.Rest() == old(s.Rest())
    ensures if ok then s.bits == 32 else s.next == |s.input| && s.bits == |s.Rest()| < 32 && s.bits % 8 == 0
    ensures Whole(See(s, future)) == old(Whole(See(s, future)))
  {
    hide Inflate.Rest, Inflate.Total, Whole, Received;
    WholeBits(s);
    ok := s.NeedBits(32);
    WholeBits(s);
  }

  /** STORED. */
  method StoredBlock(s: Inflate, ghost future: bits) returns (ok: bool)
    requires Consistent(s) && s.mode == STORED && Aligned(future)
    modifies s`hold, s`bits, s`next, s`mode, s`length
    ensures Consistent(s) && Whole(See(s, future)) == old(Whole(See(s, future)))
    ensures if ok then |s.Rest()| < |old(s.Rest())| else Starved(s)
    ensures |s.Rest()| <= |old(s.Rest())| && (!ok ==> s.mode == old(s.mode))
  {
    hide Inflate.Rest, Inflate.Total, Pend, Whole, Lean, Consistent, Kept, Prepared, See, Starved;
    Opened(s);
    LeanStored(s.tb, s.hold, s.bits, s.extra);
    AlignStored(s, future);
    ok := NeedLength(s, future);
    if ok {
      StoredLength(s, future);
    } else {
      BytesLean(s.tb, s.hold, s.bits, s.extra);
      SimplePrepared(s);
      Closed(s);
      StoredStarved(s);
    }
  }

  lemma StoredStarved(s: Inflate)
    requires s.next == |s.input| && s.put <= s.output.Length && s.mode == STORED && |s.Rest()| < 32
    ensures Starved(s)
  {
    hide Inflate.Rest, Inflate.Total, Whole, Received;
    assert s.Rest() + [] == s.Rest();
    StoredShort(See(s, []));
  }

  lemma LeanStored(tb: Tables, hold: nat, n: nat, extra: nat)
    requires Lean(tb, STORED, hold, n, extra)
    ensures n < 32
  {}

  lemma BytesLean(tb: Tables, hold: nat, n: nat, extra: nat)
    requires n < 32 && n % 8 == 0
    ensures Lean(tb, STORED, hold, n, extra)
  {}

  lemma WholeBits(s: Inflate)
    requires s.next <= |s.input|
    ensures s.bits % 8 == |s.Rest()| % 8
  {}

  /** One byte of a stored block. */
  lemma CopiedByte(n: nat, x: Byte, q: bits, out: seq<Byte>)
    requires n > 0
    ensures Copied(n, Extra(x, 8) + q, out) == Copied(n - 1, q, out + [x])
  {
    hide Extra, Hold, Pow2;
    var r := Extra(x, 8) + q;
    assert Pow2(8) == 256 by { Pow2Byte(); }
    HoldExtra(x, 8);
    assert r[..8] == Extra(x, 8) && r[8..] == q;
  }

  /** zmemcpy from the input to the output. */
  method CopyInput(s: Inflate, copy: nat, n: nat, ghost future: bits)
    requires s.Held() && s.Room() && s.bits == 0 && copy <= n && s.next + copy <= |s.input| && s.put + copy <= s.output.Length
    modifies s.output, s`put, s`next
    ensures s.Held() && s.Room() && s.put == old(s.put) + copy && s.next == old(s.next) + copy
    ensures |s.Rest()| == |old(s.Rest())| - 8 * copy
    ensures Copied(n - copy, s.Rest() + future, s.Total()) == old(Copied(n, s.Rest() + future, s.Total()))
  {
    hide Copied, Extra, Stream, Inflate.Total;
    for i := 0 to copy
      invariant s.Held() && s.Room() && s.put == old(s.put) + i && s.next == old(s.next) + i
      invariant Copied(n - i, s.Rest() + future, s.Total()) == old(Copied(n, s.Rest() + future, s.Total()))
    {
      var x := s.input[s.next];
      NextByte(s, future);
      CopiedByte(n - i, x, Stream(s.input[s.next + 1..]) + future, s.Total());
      s.PutByte(x);
      s.next := s.next + 1;
      NoneHeld(s);
    }
  }

  lemma NextByte(s: Inflate, future: bits)
    requires s.Held() && s.bits == 0 && s.next < |s.input|
    ensures s.Rest() + future == Extra(s.input[s.next], 8) + (Stream(s.input[s.next + 1..]) + future)
  {
    hide Extra, Stream;
    NoneHeld(s);
    StreamNext(s.input, s.next);
  }

  lemma NoneHeld(s: Inflate)
    requires s.next <= |s.input| && s.bits == 0
    ensures s.Rest() == Stream(s.input[s.next..])
  {
    hide Stream;
    assert Extra(s.hold, 0) == [];
  }

  /** A piece of a stored block, or its end. */
  method CopyPiece(s: Inflate, copy: nat, ghost future: bits)
    requires s.Held() && s.Room() && s.mode == COPY && s.bits == 0 && copy <= s.length && (copy == 0 ==> s.length == 0)
    requires s.next + copy <= |s.input| && s.put + copy <= s.output.Length
    modifies s.output, s`put, s`next, s`mode, s`length
    ensures s.Held() && s.Room() && (s.mode == COPY || s.mode == TYPE) && |s.Rest()| == |old(s.Rest())| - 8 * copy
    ensures s.mode == TYPE <==> copy == 0
    ensures Whole(See(s, future)) == old(Whole(See(s, future)))
  {
    hide Inflate.Total, Inflate.Rest, Whole, Copied, Received;
    ghost var v := See(s, future);
    if copy == 0 {
      s.mode := TYPE;
      CopyEnds(v, See(s, future));
    } else {
      CopyInput(s, copy, s.length, future);
      s.length := s.length - copy;
      CopySome(v, See(s, future));
    }
  }

  /** COPY_ and COPY. */
  method CopyBlock(s: Inflate, ghost future: bits) returns (ok: bool)
    requires Consistent(s) && s.mode == COPY
    modifies s.output, s`put, s`next, s`mode, s`length
    ensures Consistent(s) && Whole(See(s, future)) == old(Whole(See(s, future)))
    ensures if ok then s.mode == TYPE || |s.Rest()| < |old(s.Rest())| else Starved(s) || s.put == s.output.Length
    ensures |s.Rest()| <= |old(s.Rest())| && (!ok ==> s.mode == old(s.mode))
  {
    hide Inflate.Total, Inflate.Rest, Whole, Lean, Consistent, Kept, Prepared, Inflate.Windowed, Apart, Starved, Received;
    Opened(s);
    KeptRoom(s);
    var copy := s.length;
    if copy > |s.input| - s.next { copy := |s.input| - s.next; }
    if copy > s.output.Length - s.put { copy := s.output.Length - s.put; }
    if s.length > 0 && copy == 0 {
      if s.put < s.output.Length { NothingToCopy(s); }
      return false;
    }
    CopyPiece(s, copy, future);
    KeptBack(s);
    LeanFew(s.tb, s.mode, s.hold, s.bits, s.extra);
    SimplePrepared(s);
    Closed(s);
    ok := true;
  }

  lemma NothingToCopy(s: Inflate)
    requires s.mode == COPY && s.length > 0 && s.bits == 0 && s.next == |s.input| && s.put <= s.output.Length
    ensures Starved(s)
  {
    hide Whole;
    NoneHeld(s);
    CopyShort(See(s, []));
  }

  // ----- TABLE -----

  lemma TablePowers()
    ensures Pow2(3) == 8 && Pow2(4) == 16 && Pow2(5) == 32
  {}

  lemma TableBits(r: bits)
    requires |r| >= 14
    ensures r[5..][..5] == r[5..10] && r[5..][5..] == r[10..] && r[10..][..4] == r[10..14] && r[10..][4..] == r[14..]
  {}

  /** The three counts, all held. */
  method TakeCounts(s: Inflate, ghost future: bits) returns (nlen: nat, ndist: nat, ncode: nat)
    requires s.Held() && 14 <= s.bits < 22
    modifies s`hold, s`bits
    ensures s.Held() && s.bits < 8 && |s.Rest()| == |old(s.Rest())| - 14 && ncode < 16
    ensures var r := old(s.Rest()) + future;
            && |r| >= 14 && nlen == Hold(r[..5]) && ndist == Hold(r[5..10]) && ncode == Hold(r[10..14])
            && s.Rest() + future == r[14..]
  {
    hide Inflate.Rest, Hold, Pow2;
    ghost var r := s.Rest() + future;
    s.HeldBits(future);
    s.HeldBits([]);
    TablePowers();
    nlen := Take(s, 5, future);
    ndist := Take(s, 5, future);
    ncode := Take(s, 4, future);
    TableBits(r);
  }

  /** Keep the counts, unless there are too many symbols. */
  method SetSizes(s: Inflate, nlen: nat, ndist: nat, ncode: nat)
    requires s.next <= |s.input| && s.put <= s.output.Length && s.lens.Length == 320
    requires 257 <= nlen && 1 <= ndist && 4 <= ncode <= 19
    modifies s`mode, s`nlen, s`ndist, s`ncode, s`have
    ensures s.nlen == nlen && s.ndist == ndist && s.ncode == ncode && Prepared(s) && Received(s) == []
    ensures s.mode == if nlen > 286 || ndist > 30 then BAD else LENLENS
  {
    s.nlen, s.ndist, s.ncode := nlen, ndist, ncode;
    if s.nlen > 286 || s.ndist > 30 {
      s.mode := BAD;
    } else {
      s.have := 0;
      s.mode := LENLENS;
    }
  }

  method TableSizes(s: Inflate, ghost future: bits)
    requires s.Held() && Kept(s) && s.put <= s.output.Length && s.lens.Length == 320 && s.mode == TABLE && 14 <= s.bits < 22
    modifies s`hold, s`bits, s`mode, s`nlen, s`ndist, s`ncode, s`have
    ensures Consistent(s) && |s.Rest()| < |old(s.Rest())|
    ensures Whole(See(s, future)) == old(Whole(See(s, future)))
  {
    hide Inflate.Rest, Inflate.Total, Hold, Whole, Lean, Consistent, Kept, Prepared, Received;
    ghost var v := See(s, future);
    var nlen, ndist, ncode := TakeCounts(s, future);
    SetSizes(s, nlen + 257, ndist + 1, ncode + 4);
    TableTaken(v, See(s, future));
    LeanFew(s.tb, s.mode, s.hold, s.bits, s.extra);
    Closed(s);
  }

  /** TABLE. */
  method TableBlock(s: Inflate, ghost future: bits) returns (ok: bool)
    requires Consistent(s) && s.mode == TABLE
    modifies s`hold, s`bits, s`next, s`mode, s`nlen, s`ndist, s`ncode, s`have
    ensures Consistent(s) && Whole(See(s, future)) == old(Whole(See(s, future)))
    ensures if ok then |s.Rest()| < |old(s.Rest())| else Starved(s)
    ensures |s.Rest()| <= |old(s.Rest())| && (!ok ==> s.mode == old(s.mode))
  {
    hide Inflate.Rest, Inflate.Total, Whole, Lean, Consistent, Kept, Prepared;
    Opened(s);
    LeanTable(s.tb, s.hold, s.bits, s.extra);
    ok := s.NeedBits(14);
    if ok {
      TableSizes(s, future);
    } else {
      LeanTable(s.tb, s.hold, s.bits, s.extra);
      SimplePrepared(s);
      Closed(s);
      assert s.Rest() + [] == s.Rest();
      TableShort(See(s, []));
    }
  }

  lemma LeanTable(tb: Tables, hold: nat, n: nat, extra: nat)
    ensures Lean(tb, TABLE, hold, n, extra) <==> n < 14
  {}

  // ----- LENLENS -----

  /** Where each symbol comes in the order of transmission. */
  const PLACE: seq<nat> := [3, 17, 15, 13, 11, 9, 7, 5, 4, 6, 8, 10, 12, 14, 16, 18, 0, 1, 2]

  lemma OrderPlace(k: nat)
    requires k < 19
    ensures ORDER[k] < 19 && PLACE[ORDER[k]] == k && PLACE[k] < 19 && ORDER[PLACE[k]] == k
  {}

  lemma SentNext(lens: seq<nat>, k: nat, v: nat)
    requires |lens| >= 19 && k < 19
    ensures ORDER[k] < |lens| && Sent(lens[ORDER[k] := v], k + 1) == Sent(lens, k) + [v]
  {
    OrderPlace(k);
    forall i | 0 <= i < k ensures Ordered(lens[ORDER[k] := v], i) == Ordered(lens, i) {
      OrderPlace(i);
    }
  }

  lemma {:induction false} ArrangedAt(values: seq<nat>, k: nat, i: nat)
    requires i <= k < 19
    ensures At(values, ORDER[k], i) == if k < |values| then values[k] else 0
    decreases k - i
  {
    OrderPlace(k);
    OrderPlace(i);
    if i < k { ArrangedAt(values, k, i + 1); }
  }

  /** The lengths in place are those of the code-length code. */
  lemma AllArranged(lens: seq<nat>, values: seq<nat>)
    requires |lens| >= 19 && |values| <= 19
    requires forall k :: 0 <= k < 19 ==> Ordered(lens, k) == if k < |values| then values[k] else 0
    ensures lens[..19] == Arranged(values)
  {
    forall x: nat | x < 19 ensures lens[x] == At(values, x, 0) {
      OrderPlace(x);
      ArrangedAt(values, PLACE[x], 0);
      assert Ordered(lens, PLACE[x]) == lens[x];
    }
  }

  lemma LenLensPrepared(s: Inflate)
    requires s.lens.Length == 320 && s.mode == LENLENS
    ensures s.have <= 19 ==> Received(s) == Sent(s.lens[..], s.have)
    ensures Prepared(s) <==>
      Sizes(s.nlen, s.ndist) && 4 <= s.ncode <= 19 && s.have == |Received(s)| <= s.ncode && AllBelow(Received(s), 8)
  {
    hide Sent, Sizes, AllBelow;
  }

  /** Store the next length. */
  method StoreLength(s: Inflate, v: nat)
    requires s.lens.Length == 320 && s.mode == LENLENS && Prepared(s) && s.have < s.ncode && v < 8
    modifies s`have, s.lens
    ensures s.have == old(s.have) + 1 && Prepared(s) && Received(s) == old(Received(s)) + [v]
  {
    hide Prepared, Sent, Received, Sizes, AllBelow;
    LenLensPrepared(s);
    SentNext(s.lens[..], s.have, v);
    ghost var was, got := s.lens[..], Received(s);
    s.lens[ORDER[s.have]] := v;
    assert s.lens[..] == was[ORDER[s.have] := v];
    s.have := s.have + 1;
    LenLensPrepared(s);
    OneMore(got, v, 8);
  }

  lemma OneMore(a: seq<nat>, v: nat, bound: nat)
    requires AllBelow(a, bound) && v < bound
    ensures AllBelow(a + [v], bound)
  {}

  /** One code-length code length, its bits held. */
  method TakeLenLen(s: Inflate, ghost future: bits)
    requires s.Held() && Kept(s) && s.put <= s.output.Length && s.lens.Length == 320 && 3 <= s.bits < 11
    requires s.mode == LENLENS && Prepared(s) && s.have < s.ncode
    modifies s`hold, s`bits, s`have, s.lens
    ensures Consistent(s) && s.have == old(s.have) + 1 && |s.Rest()| < |old(s.Rest())|
    ensures Whole(See(s, future)) == old(Whole(See(s, future)))
  {
    hide Inflate.Rest, Inflate.Total, Hold, Whole, Lean, Consistent, Kept, Prepared, Received, Pow2, Fields;
    ghost var v := See(s, future);
    LenLensPrepared(s);
    PreparedFields(s, future);
    TablePowers();
    s.HeldBits(future);
    s.HeldBits([]);
    var len := Take(s, 3, future);
    StoreLength(s, len);
    LenLensTaken(v, See(s, future));
    LeanFew(s.tb, s.mode, s.hold, s.bits, s.extra);
    Closed(s);
  }

  lemma LeanLenLens(tb: Tables, hold: nat, n: nat, extra: nat)
    ensures Lean(tb, LENLENS, hold, n, extra) <==> n < 8
  {}

  /** LENLENS, one length. */
  method LenLensOne(s: Inflate, ghost future: bits) returns (ok: bool)
    requires Consistent(s) && s.mode == LENLENS && s.have < s.ncode
    modifies s`hold, s`bits, s`next, s`have, s.lens
    ensures Consistent(s) && Whole(See(s, future)) == old(Whole(See(s, future)))
    ensures if ok then s.have == old(s.have) + 1 && |s.Rest()| < |old(s.Rest())| else s.have == old(s.have) && Starved(s)
    ensures |s.Rest()| <= |old(s.Rest())|
  {
    hide Inflate.Rest, Inflate.Total, Whole, Lean, Consistent, Kept, Prepared, Received, Fields;
    Opened(s);
    LeanLenLens(s.tb, s.hold, s.bits, s.extra);
    LenLensPrepared(s);
    ok := s.NeedBits(3);
    if ok {
      TakeLenLen(s, future);
    } else {
      LeanLenLens(s.tb, s.hold, s.bits, s.extra);
      Closed(s);
      PreparedFields(s, []);
      assert s.Rest() + [] == s.Rest();
      LenLensShort(See(s, []));
    }
  }

  // ----- the code-length code -----

  lemma LongestBelow(lens: seq<nat>, bound: nat)
    requires AllBelow(lens, bound) && bound > 0
    ensures Longest(lens, MAXBITS) < bound
  {
    hide Count;
    var m := Longest(lens, MAXBITS);
    if m > 0 { var x := NthSymbol(lens, m, 0); }
  }

  lemma RootAll(lens: seq<nat>, asked: nat)
    requires Longest(lens, MAXBITS) > 0 && Longest(lens, MAXBITS) <= asked
    ensures RootBits(lens, asked) == Longest(lens, MAXBITS)
  {
    hide Longest, Shortest;
  }

  /** The code-length code fits a root table of at most 128 entries. */
  lemma CodesFit(lens: seq<nat>)
    requires AllBelow(lens, 8)
    ensures Lengths(lens) && Longest(lens, MAXBITS) <= 7
    ensures Longest(lens, MAXBITS) > 0 ==> TableSize(lens, RootBits(lens, 7)) <= 128
    ensures Refused(CODES, lens, 7) <==> Longest(lens, MAXBITS) > 0 && Rejected(CODES, lens)
  {
    hide Longest, Shortest, TableSize, Rejected, Count;
    LongestBelow(lens, 8);
    if Longest(lens, MAXBITS) > 0 {
      RootAll(lens, 7);
      RootOnly(lens, Longest(lens, MAXBITS));
      Pow2Mono(Longest(lens, MAXBITS), 7);
      Powers();
    }
  }

  lemma {:induction false} Pow2Mono(a: nat, b: nat)
    requires a <= b
    ensures Pow2(a) <= Pow2(b)
  {
    if a < b { Pow2Mono(a, b - 1); }
  }

  lemma CodesSettled(t: seq<Entry>, root: nat, lens: seq<nat>)
    requires Decoding(t, root, CODES, lens)
    ensures AllSettled(t, root)
  {
    hide Decoding, Settled, LinksFull;
    NothingLinks(t, root, CODES, lens);
    forall h: nat ensures Settled(t, root, h) { SettledEntry(t, root, CODES, lens, h); }
  }

  /** The lengths not sent are 0. */
  method Arrange(s: Inflate, ghost values: seq<nat>)
    requires s.lens.Length == 320 && s.have == |values| <= 19 && values == Sent(s.lens[..], s.have)
    modifies s`have, s.lens
    ensures s.lens[..19] == Arranged(values)
  {
    hide Arranged;
    assert forall k :: 0 <= k < s.have ==> Ordered(s.lens[..], k) == values[k];
    while s.have < 19
      invariant |values| <= s.have <= 19
      invariant forall k :: 0 <= k < s.have ==> Ordered(s.lens[..], k) == if k < |values| then values[k] else 0
    {
      OrderPlace(s.have);
      ghost var was := s.lens[..];
      s.lens[ORDER[s.have]] := 0;
      forall k | 0 <= k < s.have ensures Ordered(s.lens[..], k) == Ordered(was, k) { OrderPlace(k); }
      s.have := s.have + 1;
    }
    AllArranged(s.lens[..], values);
  }

  lemma ArrangedBelow(values: seq<nat>, bound: nat)
    requires AllBelow(values, bound) && bound > 0
    ensures AllBelow(Arranged(values), bound)
  {
    forall x: nat | x < 19 ensures At(values, x, 0) < bound { AtBelow(values, x, 0, bound); }
  }

  lemma {:induction false} AtBelow(values: seq<nat>, x: nat, k: nat, bound: nat)
    requires AllBelow(values, bound) && bound > 0
    ensures At(values, x, k) < bound
    decreases 19 - k
  {
    if k < |values| && k < 19 && ORDER[k] != x { AtBelow(values, x, k + 1, bound); }
  }

  /** Build the table of the code-length code. */
  method BuildCodes(s: Inflate, ghost values: seq<nat>) returns (ok: bool)
    requires Apart(s) && s.have == |values| <= 19 && values == Sent(s.lens[..], s.have) && AllBelow(values, 8)
    modifies s`have, s`tb, s.lens, s.work, s.codes
    ensures !ok <==> Refused(CODES, Arranged(values), 7)
    ensures ok ==> AllSettled(s.tb.lencode, s.tb.lenbits) && Flat(s.tb.lencode, s.tb.lenbits)
    ensures ok ==> |Arranged(values)| <= Symbols(CODES) &&
                   Alike(s.tb.lencode, s.tb.lenbits, Ideal(CODES, Arranged(values)), MAXBITS)
  {
    hide Arranged, Refused, Decoding, Longest, Rejected, TableSize, RootBits, Flat, AllSettled, Alike, Ideal, Sent, AllBelow, Lengths;
    Arrange(s, values);
    SymbolNumbers();
    ghost var cl := Arranged(values);
    ArrangedBelow(values, 8);
    CodesFit(cl);
    var ret, next, root := InflateTable(CODES, s.lens[..19], s.codes, 0, 7, s.work);
    assert s.codes[0..] == s.codes[..];
    ok := ret == 0;
    if ok {
      s.tb := s.tb.(lencode := s.codes[..], lenbits := root);
      CodesSettled(s.codes[..], root, cl);
      DecodesIdeally(s.codes[..], root, CODES, cl);
    }
  }

  /** The code-length code is known: on to the lengths it codes. */
  method StartCodeLens(s: Inflate, ghost v: View, ghost future: bits)
    requires s.Held() && Kept(s) && s.put <= s.output.Length && s.bits < 8 && s.lens.Length == 320
    requires v.mode == LENLENS && Fields(v) && |v.got| == v.ncode && Counted(v, See(s, future)) && s.Rest() + future == v.rest
    requires |Arranged(v.got)| <= Symbols(CODES) && !Refused(CODES, Arranged(v.got), 7) && Sizes(s.nlen, s.ndist)
    requires Alike(s.tb.lencode, s.tb.lenbits, Ideal(CODES, Arranged(v.got)), MAXBITS)
    requires AllSettled(s.tb.lencode, s.tb.lenbits) && Flat(s.tb.lencode, s.tb.lenbits)
    modifies s`mode, s`have
    ensures Consistent(s) && s.mode == CODELENS && Whole(See(s, future)) == Whole(v)
  {
    hide Inflate.Rest, Inflate.Total, Whole, Lean, Consistent, Kept, Prepared, Received, Fields, Arranged, Refused, AllSettled, Flat, Alike, Ideal, Sizes, Symbols;
    s.have := 0;
    s.mode := CODELENS;
    CodeLensPrepared(s);
    NoneBelow(16);
    SizesBound(s.nlen, s.ndist);
    assert s.lens[..0] == [];
    LenLensBuilt(v, See(s, future));
    LeanFew(s.tb, s.mode, s.hold, s.bits, s.extra);
    Closed(s);
  }

  /** All lengths are there: build the table, or find the set invalid. */
  method EndLenLens(s: Inflate, ghost future: bits)
    requires s.Held() && Kept(s) && s.put <= s.output.Length && s.bits < 8
    requires s.mode == LENLENS && Prepared(s) && s.have == s.ncode && s.lens.Length == 320
    modifies s`mode, s`have, s`tb, s.lens, s.work, s.codes
    ensures Consistent(s) && (s.mode == CODELENS || s.mode == BAD)
    ensures Whole(See(s, future)) == old(Whole(See(s, future)))
  {
    hide Inflate.Rest, Inflate.Total, Whole, Lean, Consistent, Kept, Prepared, Received, Fields, Arranged, Refused, AllSettled, Flat, Alike, Ideal, Sent, Sizes, Symbols;
    ghost var v := See(s, future);
    LenLensPrepared(s);
    PreparedFields(s, future);
    KeptRoom(s);
    var ok := BuildCodes(s, v.got);
    KeptBack(s);
    if ok {
      StartCodeLens(s, v, future);
    } else {
      Refuse(s);
      LenLensRefused(v, See(s, future));
    }
  }

  lemma NoneBelow(bound: nat)
    ensures AllBelow([], bound)
  {}

  lemma CodeLensPrepared(s: Inflate)
    requires s.lens.Length == 320 && s.mode == CODELENS
    ensures s.have <= 320 ==> Received(s) == s.lens[..s.have]
    ensures Prepared(s) <==>
      && Sizes(s.nlen, s.ndist) && s.have == |Received(s)| <= s.nlen + s.ndist && AllBelow(Received(s), 16)
      && AllSettled(s.tb.lencode, s.tb.lenbits) && Flat(s.tb.lencode, s.tb.lenbits)
  {
    hide Sizes, AllBelow, AllSettled, Flat;
  }

  /** LENLENS. */
  method LenLens(s: Inflate, ghost future: bits) returns (ok: bool)
    requires Consistent(s) && s.mode == LENLENS
    modifies s`hold, s`bits, s`next, s`mode, s`have, s`tb, s.lens, s.work, s.codes
    ensures Consistent(s) && Whole(See(s, future)) == old(Whole(See(s, future)))
    ensures if ok then s.mode == CODELENS || s.mode == BAD else Starved(s)
    ensures |s.Rest()| <= |old(s.Rest())| && (!ok ==> s.mode == old(s.mode))
  {
    hide Inflate.Rest, Inflate.Total, Whole, Lean, Consistent, Kept, Prepared, Received, Starved, See;
    Opened(s);
    LenLensPrepared(s);
    while s.have < s.ncode
      invariant Consistent(s) && s.mode == LENLENS && s.have <= s.ncode
      invariant s.next <= |s.input| && s.put <= s.output.Length
      invariant Whole(See(s, future)) == old(Whole(See(s, future))) && |s.Rest()| <= |old(s.Rest())|
      decreases |s.Rest()|
    {
      ok := LenLensOne(s, future);
      Opened(s);
      if !ok { return; }
    }
    Opened(s);
    LeanLenLens(s.tb, s.hold, s.bits, s.extra);
    EndLenLens(s, future);
    ok := true;
  }

  // ----- CODELENS -----

  /** The code of the next length, with as many bits as it has held. */
  method NextLength(s: Inflate, ghost future: bits) returns (ok: bool, here: Entry)
    requires Consistent(s) && s.mode == CODELENS && s.have < s.nlen + s.ndist
    modifies s`hold, s`bits, s`next
    ensures s.Held() && s.Rest() == old(s.Rest()) && Prepared(s)
    ensures ok ==> 1 <= here.bits <= s.bits < here.bits + 8 && PlainHere(s, here)
    ensures !ok ==> Consistent(s) && Starved(s)
  {
    hide Inflate.Rest, Inflate.Total, Whole, Lean, Consistent, Kept, Prepared, Received, Fields, ReadCode, Lookup, AllSettled, Flat, Wanting, Hold, Repeating;
    Opened(s);
    CodeLensPrepared(s);
    LeanCodeLens(s.tb, s.hold, s.bits, s.extra);
    ok, here := GetPlain(s, s.tb.lencode, s.tb.lenbits, future);
    if !ok {
      WantingRepeats(s.tb.lencode, s.tb.lenbits, s.hold, s.bits);
      LeanCodeLens(s.tb, s.hold, s.bits, s.extra);
      Closed(s);
      PreparedFields(s, []);
      assert s.Rest() + [] == s.Rest();
      LensShort(See(s, []));
    }
  }

  lemma LeanCodeLens(tb: Tables, hold: nat, n: nat, extra: nat)
    ensures Lean(tb, CODELENS, hold, n, extra) <==> n < 8 || Repeating(tb.lencode, tb.lenbits, hold, n)
  {}

  lemma WantingRepeats(t: seq<Entry>, root: nat, hold: nat, n: nat)
    requires Wanting(t, root, hold, n)
    ensures Repeating(t, root, hold, n)
  {
    hide Lookup;
  }

  /** The bits held begin with the code of this entry. */
  ghost predicate PlainHere(s: Inflate, here: Entry)
    reads s`tb, s`hold, s`bits
  {
    here.bits <= s.bits && Lookup(s.tb.lencode, s.tb.lenbits, s.hold) == Hit(here.op, here.val, here.bits)
  }

  /** The same of all bits to come. */
  lemma PlainRead(s: Inflate, here: Entry, future: bits)
    requires s.Held() && PlainHere(s, here) && AllSettled(s.tb.lencode, s.tb.lenbits)
    ensures here.bits <= |s.Rest() + future|
    ensures ReadCode(s.tb.lencode, s.tb.lenbits, s.Rest() + future) == Found(here.op, here.val, (s.Rest() + future)[here.bits..])
    ensures Lookup(s.tb.lencode, s.tb.lenbits, Hold(s.Rest() + future)) == Hit(here.op, here.val, here.bits)
  {
    hide Lookup, Hold, AllSettled, ReadCode, Inflate.Rest, Wanting;
    var t, root := s.tb.lencode, s.tb.lenbits;
    s.CodeSettled(t, root, future);
    s.Sufficient(t, root, s.hold, s.bits, here.op, here.val, here.bits);
    s.HeldBits(future);
    s.ReadFound(t, root, s.Rest() + future, here.op, here.val, here.bits);
  }

  /** Fewer bits held than the code and its repeat count need. */
  lemma StillRepeating(s: Inflate, here: Entry)
    requires s.Held() && AllSettled(s.tb.lencode, s.tb.lenbits) && s.bits < here.bits + 7
    requires Lookup(s.tb.lencode, s.tb.lenbits, Hold(s.Rest() + [])) == Hit(here.op, here.val, here.bits)
    ensures Repeating(s.tb.lencode, s.tb.lenbits, s.hold, s.bits)
  {
    hide Lookup, Hold, AllSettled, ReadCode, Inflate.Rest, Wanting;
    var t, root := s.tb.lencode, s.tb.lenbits;
    s.CodeSettled(t, root, []);
    if Wanting(t, root, s.hold, s.bits) { WantingRepeats(t, root, s.hold, s.bits); }
  }

  /** n more lengths x. */
  method StoreLengths(s: Inflate, x: nat, n: nat)
    requires s.lens.Length == 320 && s.mode == CODELENS && Prepared(s) && s.have + n <= s.nlen + s.ndist && x < 16
    modifies s`have, s.lens
    ensures Prepared(s) && s.have == old(s.have) + n && Received(s) == old(Received(s)) + Repeated(x, n)
  {
    hide Prepared, Received, Sizes, AllBelow, AllSettled, Flat, Repeated;
    CodeLensPrepared(s);
    assert Sizes(s.nlen, s.ndist) ==> s.nlen + s.ndist <= 316 by { SizesBound(s.nlen, s.ndist); }
    ghost var got := Received(s);
    SetLens(s.lens, s.have, s.have + n, x);
    s.have := s.have + n;
    RepeatBelow(got, x, n);
    CodeLensPrepared(s);
  }

  lemma SizesBound(nlen: nat, ndist: nat)
    ensures Sizes(nlen, ndist) ==> nlen + ndist <= 316 && nlen >= 257 && nlen <= 288 && ndist <= 32
  {}

  /** A length that stands for itself. */
  method PlainLength(s: Inflate, here: Entry, ghost future: bits)
    requires s.Held() && Kept(s) && s.put <= s.output.Length && s.lens.Length == 320
    requires s.mode == CODELENS && Prepared(s) && s.have < s.nlen + s.ndist
    requires here.val < 16 && 1 <= here.bits <= s.bits < here.bits + 8 && PlainHere(s, here)
    modifies s`hold, s`bits, s`have, s.lens
    ensures Consistent(s) && |s.Rest()| < |old(s.Rest())| && s.have == old(s.have) + 1
    ensures Whole(See(s, future)) == old(Whole(See(s, future)))
  {
    hide Inflate.Rest, Inflate.Total, Whole, Lean, Consistent, Kept, Prepared, Received, Fields, ReadCode, Lookup, AllSettled, Flat, PlainHere, Hold;
    ghost var v := See(s, future);
    CodeLensPrepared(s);
    PreparedFields(s, future);
    PlainRead(s, here, future);
    PlainRead(s, here, []);
    s.DropBoth(here.bits, 0, future);
    StoreLengths(s, here.val, 1);
    assert Repeated(here.val, 1) == [here.val];
    LensOne(v, See(s, future), here.op, here.val);
    LeanFew(s.tb, s.mode, s.hold, s.bits, s.extra);
    Closed(s);
  }

  /** The stream is invalid. */
  method Refuse(s: Inflate)
    requires s.Held() && Kept(s) && s.put <= s.output.Length
    modifies s`mode
    ensures Consistent(s) && s.mode == BAD
  {
    hide Inflate.Rest, Lean, Consistent, Kept, Prepared;
    s.mode := BAD;
    LeanFew(s.tb, s.mode, s.hold, s.bits, s.extra);
    SimplePrepared(s);
    Closed(s);
  }

  /** A repeat count, its code dropped. */
  method RepeatCount(s: Inflate, val: nat, x: nat, ghost v: View, ghost op: nat, ghost future: bits)
    requires s.Held() && Kept(s) && s.put <= s.output.Length && s.lens.Length == 320 && s.mode == CODELENS && Prepared(s)
    requires val >= 16 && RepeatBits(val) <= s.bits < RepeatBits(val) + 8
    requires v.mode == CODELENS && Fields(v) && |v.got| < v.nlen + v.ndist && v.got == Received(s) && v.tb == s.tb
    requires Counted(v, See(s, future)) && ReadCode(v.tb.lencode, v.tb.lenbits, v.rest) == Found(op, val, s.Rest() + future)
    requires !(val == 16 && v.got == []) && x == (if val == 16 then v.got[|v.got| - 1] else 0) && x < 16
    modifies s`hold, s`bits, s`mode, s`have, s.lens
    ensures Consistent(s) && |s.Rest()| <= |old(s.Rest())| && (s.mode == CODELENS || s.mode == BAD)
    ensures Whole(See(s, future)) == Whole(v)
  {
    hide Inflate.Rest, Inflate.Total, Whole, Lean, Consistent, Kept, Prepared, Received, Fields, ReadCode, AllSettled, Flat, Hold, Pow2, Repeated, Sizes;
    CodeLensPrepared(s);
    ghost var rest := s.Rest() + future;
    s.HeldBits(future);
    var c := Take(s, RepeatBits(val), future);
    var copy := RepeatBase(val) + c;
    if s.have + copy > s.nlen + s.ndist {
      Refuse(s);
      LensWrong(v, See(s, future), op, val, rest);
    } else {
      StoreLengths(s, x, copy);
      LensMore(v, See(s, future), op, val, rest, x, copy);
      LeanFew(s.tb, s.mode, s.hold, s.bits, s.extra);
      Closed(s);
    }
  }

  /** A repeat symbol, all bits of its count held. */
  method RepeatLength(s: Inflate, here: Entry, ghost future: bits)
    requires s.Held() && Kept(s) && s.put <= s.output.Length && s.lens.Length == 320
    requires s.mode == CODELENS && Prepared(s) && s.have < s.nlen + s.ndist
    requires here.val >= 16 && 1 <= here.bits && here.bits + RepeatBits(here.val) <= s.bits < here.bits + RepeatBits(here.val) + 8
    requires ReadCode(s.tb.lencode, s.tb.lenbits, s.Rest() + future) == Found(here.op, here.val, (s.Rest() + future)[here.bits..])
    modifies s`hold, s`bits, s`mode, s`have, s.lens
    ensures Consistent(s) && |s.Rest()| < |old(s.Rest())| && (s.mode == CODELENS || s.mode == BAD)
    ensures Whole(See(s, future)) == old(Whole(See(s, future)))
  {
    hide Inflate.Rest, Inflate.Total, Whole, Lean, Consistent, Kept, Prepared, Received, Fields, ReadCode, AllSettled, Flat, Hold, Pow2, AllBelow, Sizes;
    ghost var v := See(s, future);
    CodeLensPrepared(s);
    PreparedFields(s, future);
    LastBelow(Received(s), 16);
    SizesBound(s.nlen, s.ndist);
    s.HeldBits([]);
    s.HeldBits(future);
    s.DropBoth(here.bits, 0, future);
    if here.val == 16 && s.have == 0 {
      ghost var rest := s.Rest() + future;
      s.HeldBits(future);
      Refuse(s);
      LensWrong(v, See(s, future), here.op, here.val, rest);
    } else {
      var x := if here.val == 16 then s.lens[s.have - 1] else 0;
      RepeatCount(s, here.val, x, v, here.op, future);
    }
  }

  /** A repeat symbol. */
  method RepeatSymbol(s: Inflate, here: Entry, ghost future: bits) returns (ok: bool)
    requires s.Held() && Kept(s) && s.put <= s.output.Length && s.lens.Length == 320
    requires s.mode == CODELENS && Prepared(s) && s.have < s.nlen + s.ndist
    requires here.val >= 16 && 1 <= here.bits <= s.bits < here.bits + 8 && PlainHere(s, here)
    modifies s`hold, s`bits, s`next, s`mode, s`have, s.lens
    ensures Consistent(s) && (s.mode == CODELENS || s.mode == BAD)
    ensures Whole(See(s, future)) == old(Whole(See(s, future)))
    ensures if ok then |s.Rest()| < |old(s.Rest())| else Starved(s) && |s.Rest()| <= |old(s.Rest())|
    ensures !ok ==> s.mode == CODELENS
  {
    hide Inflate.Rest, Inflate.Total, Whole, Lean, Consistent, Kept, Prepared, Received, Fields, ReadCode, Lookup, AllSettled, Flat, PlainHere, Hold, Pow2, Sizes, Repeating;
    CodeLensPrepared(s);
    PreparedFields(s, []);
    PlainRead(s, here, future);
    PlainRead(s, here, []);
    ok := s.NeedBits(here.bits + RepeatBits(here.val));
    if ok {
      RepeatLength(s, here, future);
    } else {
      StillRepeating(s, here);
      LeanCodeLens(s.tb, s.hold, s.bits, s.extra);
      Closed(s);
      assert s.Rest() + [] == s.Rest();
      LensShort(See(s, []));
    }
  }

  /** One symbol of the code-length code. */
  method CodeLensOne(s: Inflate, ghost future: bits) returns (ok: bool)
    requires Consistent(s) && s.mode == CODELENS && s.have < s.nlen + s.ndist
    modifies s`hold, s`bits, s`next, s`mode, s`have, s.lens
    ensures Consistent(s) && (s.mode == CODELENS || s.mode == BAD)
    ensures Whole(See(s, future)) == old(Whole(See(s, future)))
    ensures if ok then |s.Rest()| < |old(s.Rest())| else Starved(s) && |s.Rest()| <= |old(s.Rest())|
    ensures !ok ==> s.mode == CODELENS
  {
    hide Inflate.Rest, Inflate.Total, Whole, Lean, Consistent, Kept, Prepared, Received, PlainHere, Starved, Fields;
    Opened(s);
    var here;
    ok, here := NextLength(s, future);
    if !ok { return; }
    if here.val < 16 {
      PlainLength(s, here, future);
    } else {
      ok := RepeatSymbol(s, here, future);
    }
  }

  // ----- the tables of a dynamic block -----

  lemma BelowLengths(a: seq<nat>)
    requires AllBelow(a, 16)
    ensures Lengths(a)
  {}

  lemma BelowPart(a: seq<nat>, i: nat, j: nat, bound: nat)
    requires AllBelow(a, bound) && i <= j <= |a|
    ensures AllBelow(a[i..j], bound)
  {}

  /** inflate_table for one of the two codes. */
  method BuildOne(s: Inflate, kind: Kind, lens: seq<nat>, start: nat, asked: nat) returns (ok: bool, t: seq<Entry>, root: nat, next: nat)
    requires kind != CODES && |lens| <= Symbols(kind) && Lengths(lens) && s.work.Length == 288
    requires start + (if kind == LENS then ENOUGH_LENS else ENOUGH_DISTS) <= s.codes.Length
    modifies s.work, s.codes
    ensures !ok <==> Refused(kind, lens, asked)
    ensures ok ==> Decoding(t, root, kind, lens) && start <= next < start + (if kind == LENS then ENOUGH_LENS else ENOUGH_DISTS)
  {
    hide Longest, Rejected, TableSize, RootBits, Decoding, Lengths;
    var ret;
    ret, next, root := InflateTable(kind, lens, s.codes, start, asked, s.work);
    ok := ret == 0;
    t := s.codes[start..];
  }

  /** Build both tables, unless the end of block has no code. */
  method BuildTables(s: Inflate, nlen: nat, ndist: nat) returns (ok: bool)
    requires Apart(s) && Sizes(nlen, ndist) && nlen + ndist <= 316 && AllBelow(s.lens[..nlen + ndist], 16)
    modifies s`tb, s.work, s.codes
    ensures ok <==> EndLens(s.lens[..nlen], s.lens[nlen..nlen + ndist])
    ensures ok ==> nlen <= Symbols(LENS) && ndist <= Symbols(DISTS) && Usable(s.tb) &&
                   AlikeTables(s.tb, IdealTables(s.lens[..nlen], s.lens[nlen..nlen + ndist]))
  {
    hide Longest, Rejected, TableSize, RootBits, Decoding, Lengths, Refused, Usable, AlikeTables, IdealTables, AllBelow;
    var lens, dlens := s.lens[..nlen], s.lens[nlen..nlen + ndist];
    assert AllBelow(lens, 16) && AllBelow(dlens, 16) by {
      BelowPart(s.lens[..nlen + ndist], 0, nlen, 16);
      BelowPart(s.lens[..nlen + ndist], nlen, nlen + ndist, 16);
      assert s.lens[..nlen + ndist][0..nlen] == lens && s.lens[..nlen + ndist][nlen..nlen + ndist] == dlens;
    }
    BelowLengths(lens);
    BelowLengths(dlens);
    SymbolNumbers();
    if s.lens[256] == 0 { return false; }
    var t, root, next;
    ok, t, root, next := BuildOne(s, LENS, lens, 0, 9);
    if !ok { return; }
    var u, v;
    ok, u, v, next := BuildOne(s, DISTS, dlens, next, 6);
    if ok {
      s.tb := Tables(t, root, u, v);
      TablesDecode(s.tb, lens, dlens);
    }
  }

  /** The data of a dynamic block begin. */
  method StartData(s: Inflate, ghost v: View, ghost future: bits)
    requires s.Held() && Kept(s) && s.put <= s.output.Length && s.bits < 8
    requires v.mode == CODELENS && Fields(v) && |v.got| == v.nlen + v.ndist && Kin(v, See(s, future)) && s.Rest() + future == v.rest
    requires EndLens(v.got[..v.nlen], v.got[v.nlen..]) && v.nlen <= Symbols(LENS) && v.ndist <= Symbols(DISTS) && Usable(s.tb)
    requires AlikeTables(s.tb, IdealTables(v.got[..v.nlen], v.got[v.nlen..]))
    modifies s`mode
    ensures Consistent(s) && s.mode == LEN && Whole(See(s, future)) == Whole(v)
  {
    hide Inflate.Rest, Inflate.Total, Whole, Lean, Consistent, Kept, Prepared, Received, Fields, EndLens, Usable, AlikeTables, IdealTables, Symbols;
    s.mode := LEN;
    LensBuilt(v, See(s, future));
    LeanFew(s.tb, s.mode, s.hold, s.bits, s.extra);
    SimplePrepared(s);
    ClosedData(s);
  }

  /** All lengths are there. */
  method EndCodeLens(s: Inflate, ghost future: bits)
    requires s.Held() && Kept(s) && s.put <= s.output.Length && s.lens.Length == 320 && s.bits < 8
    requires s.mode == CODELENS && Prepared(s) && s.have == s.nlen + s.ndist
    modifies s`mode, s`tb, s.work, s.codes
    ensures Consistent(s) && (s.mode == LEN || s.mode == BAD)
    ensures Whole(See(s, future)) == old(Whole(See(s, future)))
  {
    hide Inflate.Rest, Inflate.Total, Whole, Lean, Consistent, Kept, Prepared, Received, Fields, EndLens, Usable, AlikeTables, IdealTables, AllSettled, Flat, AllBelow, Symbols;
    ghost var v := See(s, future);
    CodeLensPrepared(s);
    PreparedFields(s, future);
    KeptRoom(s);
    SizesBound(s.nlen, s.ndist);
    assert v.got[..s.nlen] == s.lens[..s.nlen] && v.got[s.nlen..] == s.lens[s.nlen..s.nlen + s.ndist];
    var ok := BuildTables(s, s.nlen, s.ndist);
    KeptBack(s);
    if ok {
      StartData(s, v, future);
    } else {
      Refuse(s);
      LensRefused(v, See(s, future));
    }
  }

  /** CODELENS. */
  method CodeLens(s: Inflate, ghost future: bits) returns (ok: bool)
    requires Consistent(s) && s.mode == CODELENS
    modifies s`hold, s`bits, s`next, s`mode, s`have, s`tb, s.lens, s.work, s.codes
    ensures Consistent(s) && Whole(See(s, future)) == old(Whole(See(s, future)))
    ensures if ok then s.mode == LEN || s.mode == BAD else Starved(s)
    ensures |s.Rest()| <= |old(s.Rest())| && (!ok ==> s.mode == old(s.mode))
  {
    hide Inflate.Rest, Inflate.Total, Whole, Lean, Consistent, Kept, Prepared, Received, Starved, See;
    Opened(s);
    CodeLensPrepared(s);
    while s.mode == CODELENS && s.have < s.nlen + s.ndist
      invariant Consistent(s) && (s.mode == CODELENS || s.mode == BAD)
      invariant s.mode == CODELENS ==> s.have <= s.nlen + s.ndist
      invariant s.next <= |s.input| && s.put <= s.output.Length
      invariant Whole(See(s, future)) == old(Whole(See(s, future))) && |s.Rest()| <= |old(s.Rest())|
      decreases |s.Rest()|
    {
      ok := CodeLensOne(s, future);
      ConsistentBounds(s);
      if !ok { return; }
    }
    if s.mode == CODELENS {
      Opened(s);
      EndCodeLens(s, future);
    }
    ok := true;
  }

  lemma ConsistentBounds(s: Inflate)
    requires Consistent(s)
    ensures s.next <= |s.input| && s.put <= s.output.Length && s.lens.Length == 320 && Prepared(s)
  {}
}
