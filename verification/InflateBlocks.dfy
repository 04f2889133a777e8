/** Deflate streams block by block (sections 3.2.3 to 3.2.7 of RFC 1951), as functions of the bits to come. */
module InflateBlocks {
  import opened Rotations
  import opened Words
  import opened Bits
  import opened InflateCodes
  import opened TableLayout
  import opened Inftrees
  import opened InflateElements
  import opened Outcomes
  import opened Lz77

  // ----- decoding by code lengths alone -----

  ghost predicate Begins(lens: seq<nat>, s: nat, hold: nat) {
    Occurs(lens, s) && Starts(lens, s, hold)
  }

  ghost function IdealEntry(kind: Kind, lens: seq<nat>, hold: nat): (e: Entry)
    requires |lens| <= Symbols(kind)
    ensures !Link(e)
  {
    if exists s: nat :: Begins(lens, s, hold) then
      var s: nat :| Begins(lens, s, hold);
      Here(kind, s, lens[s])
    else Entry(INVALID, 1, 0)
  }

  /** One table large enough for every code. */
  ghost function Ideal(kind: Kind, lens: seq<nat>): seq<Entry>
    requires |lens| <= Symbols(kind)
  {
    seq(Pow2(MAXBITS), h requires 0 <= h => IdealEntry(kind, lens, h))
  }

  lemma IdealLookup(kind: Kind, lens: seq<nat>, hold: nat)
    requires |lens| <= Symbols(kind)
    ensures var e := IdealEntry(kind, lens, LowBits(hold, MAXBITS));
            Lookup(Ideal(kind, lens), MAXBITS, hold) == Hit(e.op, e.val, e.bits)
  {
    hide LowBits, IdealEntry, Pow2;
    assert LowBits(hold, MAXBITS) < |Ideal(kind, lens)|;
  }

  lemma BeginsLow(lens: seq<nat>, s: nat, hold: nat)
    requires Lengths(lens)
    ensures Begins(lens, s, LowBits(hold, MAXBITS)) <==> Begins(lens, s, hold)
  {
    hide LowBits, Rev;
    if Occurs(lens, s) { LowBitsTwice(hold, MAXBITS, lens[s]); }
  }

  /** A table decodes as the ideal one does. */
  ghost predicate Alike(t: seq<Entry>, root: nat, u: seq<Entry>, v: nat) {
    forall hold: nat :: Lookup(t, root, hold) == Lookup(u, v, hold)
  }

  lemma DecodesIdeally(t: seq<Entry>, root: nat, kind: Kind, lens: seq<nat>)
    requires |lens| <= Symbols(kind) && Decoding(t, root, kind, lens)
    ensures Alike(t, root, Ideal(kind, lens), MAXBITS)
  {
    hide Lookup, Ideal, Decoding;
    forall hold: nat ensures Lookup(t, root, hold) == Lookup(Ideal(kind, lens), MAXBITS, hold) {
      IdealOne(t, root, kind, lens, hold);
    }
  }

  lemma Picked(kind: Kind, lens: seq<nat>, hold: nat) returns (s: nat)
    requires |lens| <= Symbols(kind) && exists x: nat :: Begins(lens, x, hold)
    ensures Begins(lens, s, hold) && IdealEntry(kind, lens, hold) == Here(kind, s, lens[s])
  {
    hide Starts, Here;
    s :| Begins(lens, s, hold) && IdealEntry(kind, lens, hold) == Here(kind, s, lens[s]);
  }

  lemma IdealOne(t: seq<Entry>, root: nat, kind: Kind, lens: seq<nat>, hold: nat)
    requires |lens| <= Symbols(kind) && Decoding(t, root, kind, lens)
    ensures Lookup(t, root, hold) == Lookup(Ideal(kind, lens), MAXBITS, hold)
  {
    hide LowBits, Taken, Finds, Lookup, RestInvalid, Here, Pow2, Ideal, Starts, LinksFull, Rejected;
    var low := LowBits(hold, MAXBITS);
    IdealLookup(kind, lens, hold);
    forall s: nat ensures Begins(lens, s, low) <==> Begins(lens, s, hold) { BeginsLow(lens, s, hold); }
    if exists s: nat :: Begins(lens, s, low) {
      var s := Picked(kind, lens, low);
      BeginsFound(t, root, kind, lens, s, hold);
    } else {
      var s := BeginsOrInvalid(t, root, kind, lens, hold);
    }
  }

  lemma BeginsFound(t: seq<Entry>, root: nat, kind: Kind, lens: seq<nat>, s: nat, hold: nat)
    requires Decoding(t, root, kind, lens) && Begins(lens, s, hold)
    ensures Lookup(t, root, hold) == Hit(Here(kind, s, 0).op, Here(kind, s, 0).val, lens[s])
    ensures Here(kind, s, lens[s]) == Here(kind, s, 0).(bits := lens[s])
  {
    hide LowBits, Taken, Lookup, RestInvalid, Pow2, LinksFull;
    LongestBounds(lens, s);
  }

  lemma BeginsOrInvalid(t: seq<Entry>, root: nat, kind: Kind, lens: seq<nat>, hold: nat) returns (s: nat)
    requires Decoding(t, root, kind, lens)
    ensures Begins(lens, s, hold) || Lookup(t, root, hold) == Hit(INVALID, 0, 1)
  {
    hide LowBits, Taken, Finds, Lookup, RestInvalid, Here, Pow2, LinksFull, Starts, Lengths;
    s := 0;
    if Longest(lens, MAXBITS) == 0 {
      NothingThere(t, hold);
    } else if Taken(lens) == Pow2(MAXBITS) {
      s := Decodes(t, root, kind, lens, hold);
    } else if LowBits(hold, 1) == 1 {
      NotOver(kind, lens);
      InvalidSettles(t, root, hold);
    } else {
      NotOver(kind, lens);
      OneBitLeft(lens);
      s := NthSymbol(lens, 1, 0);
      OneBitCode(lens, s, hold);
    }
  }

  ghost function IdealTables(lens: seq<nat>, dlens: seq<nat>): Tables
    requires |lens| <= Symbols(LENS) && |dlens| <= Symbols(DISTS)
  {
    Tables(Ideal(LENS, lens), MAXBITS, Ideal(DISTS, dlens), MAXBITS)
  }

  /** Equal look-ups make equal elements. */
  ghost predicate AlikeTables(tb: Tables, tc: Tables) {
    Alike(tb.lencode, tb.lenbits, tc.lencode, tc.lenbits) && Alike(tb.distcode, tb.distbits, tc.distcode, tc.distbits)
  }

  lemma AlikeRead(t: seq<Entry>, root: nat, u: seq<Entry>, v: nat, r: bits)
    requires Alike(t, root, u, v)
    ensures ReadCode(t, root, r) == ReadCode(u, v, r)
  {
    hide Lookup, Hold;
  }

  lemma AlikeElement(tb: Tables, tc: Tables, r: bits)
    requires AlikeTables(tb, tc)
    ensures AtLen(tb, r) == AtLen(tc, r)
  {
    hide ReadCode, Hold, Alike;
    AlikeRead(tb.lencode, tb.lenbits, tc.lencode, tc.lenbits, r);
    forall x: bits ensures ReadCode(tb.distcode, tb.distbits, x) == ReadCode(tc.distcode, tc.distbits, x) {
      AlikeRead(tb.distcode, tb.distbits, tc.distcode, tc.distbits, x);
    }
  }

  lemma {:induction false} AlikeFinish(tb: Tables, tc: Tables, wsize: nat, e: Element, out: seq<Byte>)
    requires AlikeTables(tb, tc)
    ensures Finish(tb, wsize, e, out) == Finish(tc, wsize, e, out)
    decreases Ahead(e), if e.Copy? then e.len else 0
  {
    hide AtLen, CopyBack, AlikeTables;
    match e
    case Literal(c, rest) =>
      AlikeElement(tb, tc, rest);
      AlikeFinish(tb, tc, wsize, AtLen(tb, rest), out + [c]);
    case Copy(dist, len, rest) =>
      if 1 <= dist <= |out| {
        AlikeElement(tb, tc, rest);
        if dist <= wsize {
          AlikeFinish(tb, tc, wsize, AtLen(tb, rest), CopyBack(out, dist, len));
        } else if len == 0 {
          AlikeFinish(tb, tc, wsize, AtLen(tb, rest), out);
        } else {
          AlikeFinish(tb, tc, wsize, Copy(dist, len - 1, rest), out + [out[|out| - dist]]);
        }
      }
    case _ =>
  }

  // ----- stored blocks -----

  /** n bytes as they are. */
  function Copied(n: nat, r: bits, out: seq<Byte>): (o: Outcome)
    ensures !o.Far? && Left(o) <= |r| && out <= o.out
  {
    if n == 0 then Done(out, r)
    else if |r| < 8 then Cut(out)
    else Copied(n - 1, r[8..], out + [Hold(r[..8]) % 256])
  }

  /** From the next byte boundary: the length, its complement, and the bytes. */
  function Stored(r: bits, out: seq<Byte>): (o: Outcome)
    ensures !o.Far? && Left(o) <= |r| && out <= o.out
  {
    var b := r[|r| % 8..];
    if |b| < 32 then Cut(out)
    else if Hold(b[..16]) + Hold(b[16..32]) != 0xffff then Invalid(out)
    else Copied(Hold(b[..16]), b[32..], out)
  }

  // ----- code lengths -----

  const ORDER: seq<nat> := [16, 17, 18, 0, 8, 7, 9, 6, 10, 5, 11, 4, 12, 3, 13, 2, 14, 1, 15]

  /** Lengths for which inflate_table gives no table. */
  predicate Refused(kind: Kind, lens: seq<nat>, asked: nat) {
    Longest(lens, MAXBITS) > 0 && (Rejected(kind, lens) || Full(kind, TableSize(lens, RootBits(lens, asked))))
  }

  datatype Heading = Coded(lens: seq<nat>, dlens: seq<nat>, rest: bits) | NoHeading | HeadingCut

  function Repeated(x: nat, n: nat): (s: seq<nat>)
    ensures |s| == n
  {
    seq(n, _ => x)
  }

  /** All lengths are there: the end of block must have a code, and both sets must be codes. */
  predicate EndLens(lens: seq<nat>, dlens: seq<nat>)
    requires |lens| >= 257
  {
    lens[256] != 0 && !Refused(LENS, lens, 9) && !Refused(DISTS, dlens, 6)
  }

  predicate Sizes(nlen: nat, ndist: nat) {
    257 <= nlen <= 286 && 1 <= ndist <= 30
  }

  /** Extra bits of the repeat symbols 16, 17 and 18, and the least count. */
  function RepeatBits(val: nat): nat { if val == 16 then 2 else if val == 17 then 3 else 7 }

  function RepeatBase(val: nat): nat { if val == 18 then 11 else 3 }

  /** The lengths still missing, decoded with the table of the code-length code. */
  function ReadLens(t: seq<Entry>, root: nat, nlen: nat, ndist: nat, have: seq<nat>, r: bits): (h: Heading)
    requires Sizes(nlen, ndist) && |have| <= nlen + ndist
    ensures h.Coded? ==> |h.rest| <= |r| && |h.lens| == nlen && |h.dlens| == ndist
    decreases |r|
  {
    if |have| == nlen + ndist then
      if EndLens(have[..nlen], have[nlen..]) then Coded(have[..nlen], have[nlen..], r) else NoHeading
    else match ReadCode(t, root, r)
      case Need => HeadingCut
      case Found(op, val, rest) =>
        if val < 16 then ReadLens(t, root, nlen, ndist, have + [val], rest)
        else if |rest| < RepeatBits(val) then HeadingCut
        else if val == 16 && have == [] then NoHeading
        else
          var n := RepeatBase(val) + Hold(rest[..RepeatBits(val)]);
          var x := if val == 16 then have[|have| - 1] else 0;
          if |have| + n > nlen + ndist then NoHeading
          else ReadLens(t, root, nlen, ndist, have + Repeated(x, n), rest[RepeatBits(val)..])
  }

  /** The code-length code from the lengths sent, in their order; the others are 0. */
  function Arranged(values: seq<nat>): (lens: seq<nat>)
    ensures |lens| == 19
  {
    seq(19, s requires 0 <= s < 19 => At(values, s, 0))
  }

  function At(values: seq<nat>, s: nat, k: nat): nat
    decreases 19 - k
  {
    if k >= |values| || k >= 19 then 0 else if ORDER[k] == s then values[k] else At(values, s, k + 1)
  }

  ghost function StartLens(nlen: nat, ndist: nat, values: seq<nat>, r: bits): (h: Heading)
    requires Sizes(nlen, ndist)
    ensures h.Coded? ==> |h.rest| <= |r| && |h.lens| == nlen && |h.dlens| == ndist
  {
    if Refused(CODES, Arranged(values), 7) then NoHeading
    else ReadLens(Ideal(CODES, Arranged(values)), MAXBITS, nlen, ndist, [], r)
  }

  ghost function ReadLenLens(nlen: nat, ndist: nat, ncode: nat, values: seq<nat>, r: bits): (h: Heading)
    requires Sizes(nlen, ndist)
    ensures h.Coded? ==> |h.rest| <= |r| && |h.lens| == nlen && |h.dlens| == ndist
    decreases ncode - |values|
  {
    if |values| >= ncode then StartLens(nlen, ndist, values, r)
    else if |r| < 3 then HeadingCut
    else ReadLenLens(nlen, ndist, ncode, values + [Hold(r[..3])], r[3..])
  }

  ghost function ReadTable(r: bits): (h: Heading)
    ensures h.Coded? ==> |h.rest| <= |r| && 257 <= |h.lens| <= 286 && 1 <= |h.dlens| <= 30
  {
    if |r| < 14 then HeadingCut
    else
      var nlen, ndist, ncode := Hold(r[..5]) + 257, Hold(r[5..10]) + 1, Hold(r[10..14]) + 4;
      if nlen > 286 || ndist > 30 then NoHeading
      else ReadLenLens(nlen, ndist, ncode, [], r[14..])
  }

  /** The block that the heading announces. */
  ghost function Headed(wsize: nat, h: Heading, out: seq<Byte>): Outcome
    requires h.Coded? ==> |h.lens| <= Symbols(LENS) && |h.dlens| <= Symbols(DISTS)
  {
    match h
    case Coded(lens, dlens, rest) =>
      var tb := IdealTables(lens, dlens);
      Finish(tb, wsize, AtLen(tb, rest), out)
    case NoHeading => Invalid(out)
    case HeadingCut => Cut(out)
  }

  /** The code lengths of section 3.2.6 of RFC 1951. */
  function FixedLens(): (lens: seq<nat>)
    ensures |lens| == 288
  {
    Repeated(8, 144) + Repeated(9, 112) + Repeated(7, 24) + Repeated(8, 8)
  }

  function FixedDists(): (lens: seq<nat>)
    ensures |lens| == 32
  {
    Repeated(5, 32)
  }

  // ----- the stream -----

  /** The data of a block of the given type. */
  ghost function Block(wsize: nat, kind: nat, r: bits, out: seq<Byte>): Outcome {
    if kind == 0 then Stored(r, out)
    else if kind == 1 then Headed(wsize, Coded(FixedLens(), FixedDists(), r), out)
    else if kind == 2 then Headed(wsize, ReadTable(r), out)
    else Invalid(out)
  }

  lemma {:induction false} FinishRest(tb: Tables, wsize: nat, e: Element, out: seq<Byte>)
    ensures Grows(out, Finish(tb, wsize, e, out))
    ensures Left(Finish(tb, wsize, e, out)) <= if e.Literal? || e.Copy? || e.Stop? then |e.rest| else 0
    decreases Ahead(e), if e.Copy? then e.len else 0
  {
    hide AtLen, Back;
    match e
    case Literal(c, rest) =>
      FinishRest(tb, wsize, AtLen(tb, rest), out + [c]);
      GrowsMore(out, out + [c], Finish(tb, wsize, AtLen(tb, rest), out + [c]));
    case Copy(dist, len, rest) =>
      if 1 <= dist <= |out| {
        if dist <= wsize {
          FinishRest(tb, wsize, AtLen(tb, rest), CopyBack(out, dist, len));
          GrowsMore(out, CopyBack(out, dist, len), Finish(tb, wsize, AtLen(tb, rest), CopyBack(out, dist, len)));
        } else if len == 0 {
          FinishRest(tb, wsize, AtLen(tb, rest), out);
        } else {
          var more := out + [out[|out| - dist]];
          FinishRest(tb, wsize, Copy(dist, len - 1, rest), more);
          GrowsMore(out, more, Finish(tb, wsize, Copy(dist, len - 1, rest), more));
        }
      }
    case _ =>
  }

  lemma HeadedRest(wsize: nat, h: Heading, out: seq<Byte>)
    requires h.Coded? ==> |h.lens| <= Symbols(LENS) && |h.dlens| <= Symbols(DISTS)
    ensures Grows(out, Headed(wsize, h, out)) && Left(Headed(wsize, h, out)) <= if h.Coded? then |h.rest| else 0
  {
    hide AtLen, Finish, IdealTables;
    if h.Coded? {
      var tb := IdealTables(h.lens, h.dlens);
      FinishRest(tb, wsize, AtLen(tb, h.rest), out);
    }
  }

  lemma BlockRest(wsize: nat, kind: nat, r: bits, out: seq<Byte>)
    ensures Left(Block(wsize, kind, r, out)) <= |r| && Grows(out, Block(wsize, kind, r, out))
  {
    hide Stored, Headed, ReadTable, FixedLens, FixedDists;
    if kind == 1 { HeadedRest(wsize, Coded(FixedLens(), FixedDists(), r), out); }
    if kind == 2 { HeadedRest(wsize, ReadTable(r), out); }
  }

  /** Blocks up to and including the last, and the rest from the next byte boundary on. */
  ghost function ReadBlocks(wsize: nat, last: bool, r: bits, out: seq<Byte>): Outcome
    decreases |r|, 0, Cut([])
  {
    if last then Done(out, r[|r| % 8..])
    else if |r| < 3 then Cut(out)
    else
      BlockRest(wsize, Hold(r[1..3]), r[3..], out);
      Onward(wsize, r[0], Block(wsize, Hold(r[1..3]), r[3..], out))
  }

  /** What follows a block. */
  ghost function Onward(wsize: nat, last: bool, o: Outcome): Outcome
    decreases Left(o), 1, o
  {
    match o
    case Done(out, rest) => ReadBlocks(wsize, last, rest, out)
    case Far(out, dist, on) => Far(out, dist, Onward(wsize, last, on))
    case _ => o
  }

  lemma BlocksNext(wsize: nat, r: bits, out: seq<Byte>)
    requires |r| >= 3
    ensures ReadBlocks(wsize, false, r, out) == Onward(wsize, r[0], Block(wsize, Hold(r[1..3]), r[3..], out))
  {
    hide Block, Hold, Onward;
  }

  /** Output is only ever added to. */
  lemma {:induction false} BlocksGrow(wsize: nat, last: bool, r: bits, out: seq<Byte>)
    ensures Grows(out, ReadBlocks(wsize, last, r, out))
    decreases |r|, 0, Cut([])
  {
    hide Block, Hold, Onward;
    if !last && |r| >= 3 {
      var o := Block(wsize, Hold(r[1..3]), r[3..], out);
      BlockRest(wsize, Hold(r[1..3]), r[3..], out);
      OnwardGrows(wsize, r[0], o, out);
    }
  }

  lemma {:induction false} OnwardGrows(wsize: nat, last: bool, o: Outcome, t: seq<Byte>)
    requires Grows(t, o)
    ensures Grows(t, Onward(wsize, last, o))
    decreases Left(o), 1, o
  {
    hide ReadBlocks;
    match o
    case Done(out, rest) =>
      BlocksGrow(wsize, last, rest, out);
      GrowsMore(t, out, ReadBlocks(wsize, last, rest, out));
    case Far(out, dist, on) => OnwardGrows(wsize, last, on, out);
    case _ =>
  }

  /** What a step keeps of a block it keeps of the stream. */
  lemma {:induction false} KeepsOnward(wsize: nat, last: bool, lost: int, a: Outcome, b: Outcome)
    requires Keeps(lost, a, b)
    ensures Keeps(lost, Onward(wsize, last, a), Onward(wsize, last, b))
    decreases a
  {
    hide ReadBlocks;
    if a != b && a.dist <= |a.out| - lost { KeepsOnward(wsize, last, lost, a.on, b); }
  }
}
