/** The elements of a compressed block (sections 3.2.3 and 3.2.5 of RFC 1951) as inflate's modes read them. */
module InflateElements {
  import opened Rotations
  import opened Words
  import opened Bits
  import opened Codes
  import opened InflateCodes
  import opened TableLayout
  import opened Inftrees
  import opened Lz77
  import opened Outcomes

  datatype Tables = Tables(lencode: seq<Entry>, lenbits: nat, distcode: seq<Entry>, distbits: nat)

  datatype Got = Found(op: nat, val: nat, rest: bits) | Need

  /** The symbol at the front of the bits, unless they end within its code. */
  function ReadCode(t: seq<Entry>, root: nat, r: bits): (c: Got)
    ensures c.Found? ==> |c.rest| < |r|
  {
    match Lookup(t, root, Hold(r))
    case Hit(op, val, n) => if 1 <= n <= |r| then Found(op, val, r[n..]) else Need
    case Stray => Need
  }

  /** One element: a literal, a copy, the end of the block, an error, or not enough bits. */
  datatype Element =
    Literal(c: Byte, rest: bits) | Copy(dist: nat, len: nat, rest: bits) | Stop(rest: bits) | Bad | Short

  datatype Mode = TYPE | STORED | COPY | TABLE | LENLENS | CODELENS | LEN | LENEXT | DIST | DISTEXT | MATCH | LIT | CHECK | BAD

  /** In the middle of the data of a coded block. */
  predicate InBlock(mode: Mode) {
    mode == LEN || mode == LENEXT || mode == DIST || mode == DISTEXT || mode == MATCH || mode == LIT
  }

  predicate Has(op: nat, bit: nat)
    requires bit > 0
  {
    op / bit % 2 == 1
  }

  function AtLen(tb: Tables, r: bits): (e: Element)
    ensures e.Literal? || e.Copy? || e.Stop? ==> |e.rest| < |r|
  {
    match ReadCode(tb.lencode, tb.lenbits, r)
    case Need => Short
    case Found(op, val, rest) =>
      if op == 0 then Literal(val % 256, rest)
      else if Has(op, 32) then Stop(rest)
      else if Has(op, 64) then Bad
      else AtLenExt(tb, val, op % 16, rest)
  }

  function AtLenExt(tb: Tables, length: nat, extra: nat, r: bits): (e: Element)
    ensures e.Literal? || e.Copy? || e.Stop? ==> |e.rest| <= |r|
  {
    if extra > |r| then Short else AtDist(tb, length + Hold(r[..extra]), r[extra..])
  }

  function AtDist(tb: Tables, length: nat, r: bits): (e: Element)
    ensures e.Literal? || e.Copy? || e.Stop? ==> |e.rest| <= |r|
  {
    match ReadCode(tb.distcode, tb.distbits, r)
    case Need => Short
    case Found(op, val, rest) => if Has(op, 64) then Bad else AtDistExt(length, val, op % 16, rest)
  }

  function AtDistExt(length: nat, offset: nat, extra: nat, r: bits): (e: Element)
    ensures e.Literal? || e.Copy? || e.Stop? ==> |e.rest| <= |r|
  {
    if extra > |r| then Short else Copy(offset + Hold(r[..extra]), length, r[extra..])
  }

  /** The element a mode is in the middle of; none outside the data of a coded block. */
  function Pending(tb: Tables, mode: Mode, length: nat, offset: nat, extra: nat, r: bits): Element {
    match mode
    case LEN => AtLen(tb, r)
    case LENEXT => AtLenExt(tb, length, extra, r)
    case DIST => AtDist(tb, length, r)
    case DISTEXT => AtDistExt(length, offset, extra, r)
    case MATCH => Copy(offset, length, r)
    case LIT => Literal(length % 256, r)
    case BAD => Bad
    case _ => Stop(r)
  }

  /** The bits an element leaves, counted, and one more. */
  function Ahead(e: Element): nat {
    match e case Literal(_, rest) => |rest| + 1 case Copy(_, _, rest) => |rest| + 1 case _ => 0
  }

  /** The output once the element and the rest of the block are decoded. A copy from before the first byte is an error; each
      byte copied from further back than the window is a point at which decoding may be refused. */
  function Finish(tb: Tables, wsize: nat, e: Element, out: seq<Byte>): Outcome
    decreases Ahead(e), if e.Copy? then e.len else 0
  {
    match e
    case Literal(c, rest) => Finish(tb, wsize, AtLen(tb, rest), out + [c])
    case Copy(dist, len, rest) =>
      if dist == 0 || dist > |out| then Invalid(out)
      else if dist <= wsize then Finish(tb, wsize, AtLen(tb, rest), CopyBack(out, dist, len))
      else if len == 0 then Finish(tb, wsize, AtLen(tb, rest), out)
      else Far(out, dist, Finish(tb, wsize, Copy(dist, len - 1, rest), out + [out[|out| - dist]]))
    case Stop(rest) => Done(out, rest)
    case Bad => Invalid(out)
    case Short => Cut(out)
  }

  // ----- tables from complete codes -----

  predicate LengthEntry(op: nat, val: nat) {
    || (op == 0 && val < 256)
    || (16 <= op <= 21 && MIN_MATCH <= val && val + Pow2(op - 16) <= MAX_MATCH + 1)
    || op == INVALID || op == 68 || op == 78 || op == END_OF_BLOCK
  }

  predicate DistanceEntry(op: nat, val: nat) {
    || (16 <= op <= 29 && 1 <= val && val + Pow2(op - 16) <= 32769)
    || op == INVALID
  }

  /** An entry depends on no more bits than it drops. */
  ghost predicate Settled(t: seq<Entry>, root: nat, hold: nat) {
    match Lookup(t, root, hold)
    case Hit(_, _, n) => 1 <= n <= MAXBITS && forall h: nat :: LowBits(h, n) == LowBits(hold, n) ==> Lookup(t, root, h) == Lookup(t, root, hold)
    case Stray => false
  }

  ghost predicate LengthAt(t: seq<Entry>, root: nat, hold: nat) {
    Settled(t, root, hold) && LengthEntry(Lookup(t, root, hold).op, Lookup(t, root, hold).val)
  }

  ghost predicate DistanceAt(t: seq<Entry>, root: nat, hold: nat) {
    Settled(t, root, hold) && DistanceEntry(Lookup(t, root, hold).op, Lookup(t, root, hold).val)
  }

  /** What inflate relies on in its two tables. */
  ghost predicate Sound(tb: Tables) {
    && (forall hold: nat :: LengthAt(tb.lencode, tb.lenbits, hold))
    && (forall hold: nat :: DistanceAt(tb.distcode, tb.distbits, hold))
  }

  /** The tables inflate_table builds are sound. */
  lemma LengthTableSound(t: seq<Entry>, root: nat, lens: seq<nat>, hold: nat)
    requires Decoding(t, root, LENS, lens)
    ensures LengthAt(t, root, hold)
  {
    hide LowBits, Taken, Finds, Lookup, RestInvalid, Rejected;
    SettledEntry(t, root, LENS, lens, hold);
    assert Pow2(5) == 32;
  }

  lemma DistanceTableSound(t: seq<Entry>, root: nat, lens: seq<nat>, hold: nat)
    requires Decoding(t, root, DISTS, lens)
    ensures DistanceAt(t, root, hold)
  {
    hide LowBits, Taken, Finds, Lookup, RestInvalid, Rejected, Settled, LinksFull;
    SettledEntry(t, root, DISTS, lens, hold);
    assert Pow2(8) == 256 && Pow2(13) == 8192;
  }

  lemma SettledEntry(t: seq<Entry>, root: nat, kind: Kind, lens: seq<nat>, hold: nat)
    requires Decoding(t, root, kind, lens)
    ensures Settled(t, root, hold)
    ensures var hit := Lookup(t, root, hold);
            || (hit.op == INVALID && hit.val == 0)
            || exists s: nat :: Occurs(lens, s) && hit.op == Here(kind, s, 0).op && hit.val == Here(kind, s, 0).val
  {
    hide LowBits, Taken, Finds, Lookup, RestInvalid, Here, Pow2, Code;
    if Longest(lens, MAXBITS) == 0 {
      forall h: nat ensures Lookup(t, root, h) == Hit(INVALID, 0, 1) { NothingThere(t, h); }
    } else if Taken(lens) == Pow2(MAXBITS) {
      var s := Decodes(t, root, kind, lens, hold);
      FoundSettles(t, root, kind, lens, s, hold);
    } else if LowBits(hold, 1) == 1 {
      InvalidSettles(t, root, hold);
    } else {
      OneBitLeft(lens);
      var s := NthSymbol(lens, 1, 0);
      OneBitCode(lens, s, hold);
      FoundSettles(t, root, kind, lens, s, hold);
    }
  }

  lemma NothingThere(t: seq<Entry>, h: nat)
    requires |t| >= 2 && t[0] == t[1] == Entry(INVALID, 1, 0)
    ensures Lookup(t, 1, h) == Hit(INVALID, 0, 1)
  {
    assert LowBits(h, 1) < 2;
  }

  lemma InvalidSettles(t: seq<Entry>, root: nat, hold: nat)
    requires RestInvalid(t, root) && LowBits(hold, 1) == 1
    ensures Settled(t, root, hold) && Lookup(t, root, hold) == Hit(INVALID, 0, 1)
  {
    hide Lookup, LowBits;
  }

  lemma OneBitCode(lens: seq<nat>, s: nat, hold: nat)
    requires Occurs(lens, s) && lens[s] == 1 && Count(lens[..s], 1) == 0 && LowBits(hold, 1) != 1
    ensures Starts(lens, s, hold)
  {
    FirstNone(lens);
    RevZero(1);
  }

  lemma FoundSettles(t: seq<Entry>, root: nat, kind: Kind, lens: seq<nat>, s: nat, hold: nat)
    requires |lens| <= Symbols(kind) && Lengths(lens) && Finds(t, root, kind, lens) && Occurs(lens, s) && Starts(lens, s, hold)
    ensures Lookup(t, root, hold) == Hit(Here(kind, s, 0).op, Here(kind, s, 0).val, lens[s])
    ensures Settled(t, root, hold)
  {
    hide Lookup, Here, LowBits, Rev, Code;
    forall h: nat | LowBits(h, lens[s]) == LowBits(hold, lens[s]) ensures Lookup(t, root, h) == Lookup(t, root, hold) {
      assert Starts(lens, s, h);
    }
  }

  lemma TablesSound(tb: Tables, lens: seq<nat>, dlens: seq<nat>)
    requires Decoding(tb.lencode, tb.lenbits, LENS, lens) && Decoding(tb.distcode, tb.distbits, DISTS, dlens)
    ensures Sound(tb)
  {
    hide Decoding, LengthAt, DistanceAt;
    forall hold: nat ensures LengthAt(tb.lencode, tb.lenbits, hold) { LengthTableSound(tb.lencode, tb.lenbits, lens, hold); }
    forall hold: nat ensures DistanceAt(tb.distcode, tb.distbits, hold) { DistanceTableSound(tb.distcode, tb.distbits, dlens, hold); }
  }

  /** A code recognised from the first b bits is recognised from them all. */
  lemma EnoughBits(t: seq<Entry>, root: nat, r: bits, b: nat)
    requires b <= |r| && Settled(t, root, Hold(r[..b])) && Lookup(t, root, Hold(r[..b])).bits <= b
    ensures Lookup(t, root, Hold(r)) == Lookup(t, root, Hold(r[..b]))
  {
    hide Lookup, LowBits, Hold, Shr;
    var n := Lookup(t, root, Hold(r[..b])).bits;
    assert r == r[..b] + r[b..];
    HoldParts(r[..b], r[b..]);
    LowBitsTwice(Hold(r), b, n);
    LowBitsTwice(Hold(r[..b]), b, n);
  }
}
