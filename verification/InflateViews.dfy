/** What inflate's state stands for: the outcome of the block in progress and of the stream. */
module InflateViews {
  import opened Rotations
  import opened Bits
  import opened InflateCodes
  import opened TableLayout
  import opened Inftrees
  import opened InflateElements
  import opened Outcomes
  import opened InflateBlocks
  import opened InflateState

  /** The fields that decide the outcome. `got` holds the lengths received, `rest` all bits to come, `total` all output. */
  datatype View = View(mode: Mode, last: bool, wsize: nat, tb: Tables, length: nat, offset: nat, extra: nat,
                       nlen: nat, ndist: nat, ncode: nat, got: seq<nat>, rest: bits, total: seq<Byte>)

  predicate AllBelow(a: seq<nat>, bound: nat) {
    forall k :: 0 <= k < |a| ==> a[k] < bound
  }

  /** What the modes before the data leave for each other. */
  ghost predicate Fields(v: View) {
    match v.mode
    case LENLENS => Sizes(v.nlen, v.ndist) && 4 <= v.ncode <= 19 && |v.got| <= v.ncode && AllBelow(v.got, 8)
    case CODELENS =>
      Sizes(v.nlen, v.ndist) && |v.got| <= v.nlen + v.ndist && AllBelow(v.got, 16)
      && AllSettled(v.tb.lencode, v.tb.lenbits) && Flat(v.tb.lencode, v.tb.lenbits)
    case _ => true
  }

  /** What the block in progress comes to. */
  ghost function Pend(v: View): Outcome {
    match v.mode
    case STORED => Stored(v.rest, v.total)
    case COPY => Copied(v.length, v.rest, v.total)
    case TABLE => Headed(v.wsize, ReadTable(v.rest), v.total)
    case LENLENS =>
      if Sizes(v.nlen, v.ndist) then Headed(v.wsize, ReadLenLens(v.nlen, v.ndist, v.ncode, v.got, v.rest), v.total)
      else Invalid(v.total)
    case CODELENS =>
      if Sizes(v.nlen, v.ndist) && |v.got| <= v.nlen + v.ndist then
        Headed(v.wsize, ReadLens(v.tb.lencode, v.tb.lenbits, v.nlen, v.ndist, v.got, v.rest), v.total)
      else Invalid(v.total)
    case _ => Finish(v.tb, v.wsize, Pending(v.tb, v.mode, v.length, v.offset, v.extra, v.rest), v.total)
  }

  /** What the rest of the stream comes to. */
  ghost function Whole(v: View): Outcome {
    Onward(v.wsize, v.last, Pend(v))
  }

  /** Whole bytes. */
  predicate Aligned(r: bits) {
    |r| % 8 == 0
  }

  /** A step within the stream that puts out nothing. */
  predicate Kin(v: View, w: View) {
    w.wsize == v.wsize && w.last == v.last && w.total == v.total
  }

  /** The same while code lengths are received. */
  predicate Counted(v: View, w: View) {
    Kin(v, w) && w.nlen == v.nlen && w.ndist == v.ndist && w.ncode == v.ncode
  }

  // ----- between blocks -----

  lemma WholeType(v: View)
    requires v.mode == TYPE || v.mode == CHECK
    ensures Whole(v) == ReadBlocks(v.wsize, v.last, v.rest, v.total)
  {
    hide ReadBlocks;
  }

  lemma WholeBad(v: View)
    requires v.mode == BAD
    ensures Pend(v) == Whole(v) == Invalid(v.total)
  {}

  /** No step leads back before the next byte boundary. */
  lemma LastAligned(v: View, w: View)
    requires v.mode == TYPE && v.last && w.mode == CHECK && Kin(v, w)
    requires |v.rest| % 8 <= |v.rest| && w.rest == v.rest[|v.rest| % 8..]
    ensures Whole(w) == Whole(v)
  {
    WholeType(v);
    WholeType(w);
    assert |w.rest| % 8 == 0 && w.rest[0..] == w.rest;
  }

  lemma TypeShort(v: View)
    requires v.mode == TYPE && !v.last && |v.rest| < 3
    ensures Whole(v) == Cut(v.total)
  {
    WholeType(v);
  }

  /** The type bits taken, and the mode they lead to entered. */
  lemma TypeTaken(v: View, w: View)
    requires v.mode == TYPE && !v.last && |v.rest| >= 3 && w.last == v.rest[0] && w.wsize == v.wsize
    requires Pend(w) == Block(v.wsize, Hold(v.rest[1..3]), v.rest[3..], v.total)
    ensures Whole(w) == Whole(v)
  {
    hide Block, Hold, Pend, ReadBlocks;
    assert Whole(v) == ReadBlocks(v.wsize, v.last, v.rest, v.total) by { WholeType(v); }
    BlocksNext(v.wsize, v.rest, v.total);
  }

  /** The mode that a block type leads to. */
  lemma TypeModes(w: View, kind: nat)
    requires kind != 1
    requires w.mode == if kind == 0 then STORED else if kind == 2 then TABLE else BAD
    ensures Pend(w) == Block(w.wsize, kind, w.rest, w.total)
  {
    hide Stored, ReadTable, Headed;
  }

  lemma SymbolNumbers()
    ensures Symbols(LENS) == 288 && Symbols(DISTS) == 32 && Symbols(CODES) == 19
  {}

  /** The data of a coded block begins. */
  lemma DataBegins(w: View, lens: seq<nat>, dlens: seq<nat>)
    requires |lens| <= Symbols(LENS) && |dlens| <= Symbols(DISTS)
    requires w.mode == LEN && AlikeTables(w.tb, IdealTables(lens, dlens))
    ensures Pend(w) == Headed(w.wsize, Coded(lens, dlens, w.rest), w.total)
  {
    hide AlikeTables, IdealTables, AtLen, Finish;
    var tb := IdealTables(lens, dlens);
    AlikeElement(w.tb, tb, w.rest);
    AlikeFinish(w.tb, tb, w.wsize, AtLen(tb, w.rest), w.total);
  }

  lemma FixedBegins(w: View)
    requires |FixedLens()| <= Symbols(LENS) && |FixedDists()| <= Symbols(DISTS)
    requires w.mode == LEN && AlikeTables(w.tb, IdealTables(FixedLens(), FixedDists()))
    ensures Pend(w) == Block(w.wsize, 1, w.rest, w.total)
  {
    hide Pend, AlikeTables, IdealTables, FixedLens, FixedDists, Headed;
    DataBegins(w, FixedLens(), FixedDists());
  }

  // ----- stored blocks -----

  lemma StoredAligned(v: View, w: View)
    requires v.mode == w.mode == STORED && Kin(v, w) && |v.rest| % 8 <= |v.rest| && w.rest == v.rest[|v.rest| % 8..]
    ensures Pend(w) == Pend(v) && Whole(w) == Whole(v)
  {
    hide Hold;
    assert |w.rest| % 8 == 0 && w.rest[0..] == w.rest;
  }

  lemma StoredShort(v: View)
    requires v.mode == STORED && |v.rest| < 32
    ensures Whole(v) == Cut(v.total)
  {}

  /** The two halves of the first 32 bits, and what follows them. */
  function Halves(r: bits): (nat, nat, bits)
    requires |r| >= 32
  {
    (Hold(r[..16]), Hold(r[16..32]), r[32..])
  }

  lemma StoredTaken(v: View, w: View, len: nat, nlen: nat)
    requires v.mode == STORED && |v.rest| >= 32 && Aligned(v.rest)
    requires Halves(v.rest) == (len, nlen, w.rest)
    requires Kin(v, w) && w.mode == (if len + nlen != 0xffff then BAD else COPY) && w.length == len
    ensures Whole(w) == Whole(v)
  {
    hide Hold, Copied;
    assert v.rest[0..] == v.rest;
  }

  lemma CopyEnds(v: View, w: View)
    requires v.mode == COPY && v.length == 0 && w.mode == TYPE && Kin(v, w) && w.rest == v.rest
    ensures Whole(w) == Whole(v)
  {}

  lemma CopyShort(v: View)
    requires v.mode == COPY && v.length > 0 && v.rest == []
    ensures Whole(v) == Cut(v.total)
  {}

  lemma CopySome(v: View, w: View)
    requires v.mode == w.mode == COPY && w.wsize == v.wsize && w.last == v.last
    requires Copied(w.length, w.rest, w.total) == Copied(v.length, v.rest, v.total)
    ensures Whole(w) == Whole(v)
  {
    hide Copied;
  }

  // ----- code lengths -----

  lemma TableShort(v: View)
    requires v.mode == TABLE && |v.rest| < 14
    ensures Whole(v) == Cut(v.total)
  {}

  lemma TableTaken(v: View, w: View)
    requires v.mode == TABLE && |v.rest| >= 14
    requires w.nlen == Hold(v.rest[..5]) + 257 && w.ndist == Hold(v.rest[5..10]) + 1 && w.ncode == Hold(v.rest[10..14]) + 4
    requires Kin(v, w) && w.mode == (if w.nlen > 286 || w.ndist > 30 then BAD else LENLENS) && w.rest == v.rest[14..]
    requires w.mode == LENLENS ==> w.got == []
    ensures Whole(w) == Whole(v)
  {
    hide Hold, ReadLenLens, IdealTables, Finish, AtLen;
    if w.mode == BAD { WholeBad(w); }
  }

  lemma LenLensShort(v: View)
    requires v.mode == LENLENS && Fields(v) && |v.got| < v.ncode && |v.rest| < 3
    ensures Whole(v) == Cut(v.total)
  {}

  lemma LenLensTaken(v: View, w: View)
    requires v.mode == LENLENS && Fields(v) && |v.got| < v.ncode && |v.rest| >= 3
    requires w.mode == LENLENS && Counted(v, w) && w.got == v.got + [Hold(v.rest[..3])] && w.rest == v.rest[3..]
    ensures Whole(w) == Whole(v)
  {
    hide Hold, StartLens, Headed;
    assert ReadLenLens(v.nlen, v.ndist, v.ncode, v.got, v.rest) == ReadLenLens(v.nlen, v.ndist, v.ncode, w.got, w.rest);
  }

  lemma LenLensRefused(v: View, w: View)
    requires v.mode == LENLENS && Fields(v) && |v.got| == v.ncode && w.mode == BAD && Kin(v, w)
    requires Refused(CODES, Arranged(v.got), 7)
    ensures Whole(w) == Whole(v)
  {
    hide Refused, Arranged;
  }

  lemma {:induction false} AlikeLens(t: seq<Entry>, root: nat, u: seq<Entry>, x: nat, nlen: nat, ndist: nat, have: seq<nat>, r: bits)
    requires Alike(t, root, u, x) && Sizes(nlen, ndist) && |have| <= nlen + ndist
    ensures ReadLens(t, root, nlen, ndist, have, r) == ReadLens(u, x, nlen, ndist, have, r)
    decreases |r|
  {
    hide Alike, Hold, EndLens, ReadCode, Repeated;
    AlikeRead(t, root, u, x, r);
    if |have| < nlen + ndist && ReadCode(t, root, r).Found? {
      var c := ReadCode(t, root, r);
      if c.val < 16 {
        AlikeLens(t, root, u, x, nlen, ndist, have + [c.val], c.rest);
      } else if |c.rest| >= RepeatBits(c.val) && !(c.val == 16 && have == []) {
        var n := RepeatBase(c.val) + Hold(c.rest[..RepeatBits(c.val)]);
        var y := if c.val == 16 then have[|have| - 1] else 0;
        if |have| + n <= nlen + ndist {
          AlikeLens(t, root, u, x, nlen, ndist, have + Repeated(y, n), c.rest[RepeatBits(c.val)..]);
        }
      }
    }
  }

  lemma LenLensBuilt(v: View, w: View)
    requires v.mode == LENLENS && Fields(v) && |v.got| == v.ncode
    requires w.mode == CODELENS && w.got == [] && Counted(v, w) && w.rest == v.rest
    requires |Arranged(v.got)| <= Symbols(CODES) && !Refused(CODES, Arranged(v.got), 7)
    requires Alike(w.tb.lencode, w.tb.lenbits, Ideal(CODES, Arranged(v.got)), MAXBITS)
    ensures Whole(w) == Whole(v)
  {
    hide Refused, Arranged, Alike, Ideal, ReadLens;
    AlikeLens(w.tb.lencode, w.tb.lenbits, Ideal(CODES, Arranged(v.got)), MAXBITS, v.nlen, v.ndist, [], v.rest);
  }

  /** Not enough bits for the next length. */
  lemma LensShort(v: View)
    requires v.mode == CODELENS && Fields(v) && |v.got| < v.nlen + v.ndist
    requires match ReadCode(v.tb.lencode, v.tb.lenbits, v.rest)
             case Need => true
             case Found(_, val, rest) => val >= 16 && |rest| < RepeatBits(val)
    ensures Whole(v) == Cut(v.total)
  {
    hide ReadCode, AllSettled, Flat;
  }

  /** One length. */
  lemma LensOne(v: View, w: View, op: nat, val: nat)
    requires v.mode == CODELENS && Fields(v) && |v.got| < v.nlen + v.ndist
    requires ReadCode(v.tb.lencode, v.tb.lenbits, v.rest) == Found(op, val, w.rest) && val < 16
    requires w.mode == CODELENS && Counted(v, w) && w.tb == v.tb && w.got == v.got + [val]
    ensures Whole(w) == Whole(v) && Fields(w)
  {
    hide ReadCode, AllSettled, Flat, EndLens;
  }

  /** A repeat count that is not allowed. */
  lemma LensWrong(v: View, w: View, op: nat, val: nat, rest: bits)
    requires v.mode == CODELENS && Fields(v) && |v.got| < v.nlen + v.ndist
    requires ReadCode(v.tb.lencode, v.tb.lenbits, v.rest) == Found(op, val, rest) && val >= 16 && |rest| >= RepeatBits(val)
    requires (val == 16 && v.got == []) || |v.got| + RepeatBase(val) + Hold(rest[..RepeatBits(val)]) > v.nlen + v.ndist
    requires w.mode == BAD && Kin(v, w)
    ensures Whole(w) == Whole(v)
  {
    hide ReadCode, AllSettled, Flat, Hold;
  }

  lemma RepeatBelow(a: seq<nat>, x: nat, n: nat)
    requires AllBelow(a, 16) && x < 16
    ensures AllBelow(a + Repeated(x, n), 16)
  {}

  lemma LensRepeats(t: seq<Entry>, root: nat, nlen: nat, ndist: nat, have: seq<nat>, r: bits, op: nat, val: nat, rest: bits, x: nat, n: nat)
    requires Sizes(nlen, ndist) && |have| < nlen + ndist
    requires ReadCode(t, root, r) == Found(op, val, rest) && val >= 16 && |rest| >= RepeatBits(val)
    requires !(val == 16 && have == []) && x == (if val == 16 then have[|have| - 1] else 0)
    requires n == RepeatBase(val) + Hold(rest[..RepeatBits(val)]) && |have| + n <= nlen + ndist
    ensures ReadLens(t, root, nlen, ndist, have, r) ==
            ReadLens(t, root, nlen, ndist, have + Repeated(x, n), rest[RepeatBits(val)..])
  {
    hide ReadCode, Hold, EndLens, Repeated;
  }

  /** A repeated length. */
  lemma LensMore(v: View, w: View, op: nat, val: nat, rest: bits, x: nat, n: nat)
    requires v.mode == CODELENS && Fields(v) && |v.got| < v.nlen + v.ndist
    requires ReadCode(v.tb.lencode, v.tb.lenbits, v.rest) == Found(op, val, rest) && val >= 16 && |rest| >= RepeatBits(val)
    requires !(val == 16 && v.got == []) && x == (if val == 16 then v.got[|v.got| - 1] else 0)
    requires n == RepeatBase(val) + Hold(rest[..RepeatBits(val)]) && |v.got| + n <= v.nlen + v.ndist
    requires w.mode == CODELENS && Counted(v, w) && w.tb == v.tb && w.rest == rest[RepeatBits(val)..]
    requires w.got == v.got + Repeated(x, n)
    ensures Whole(w) == Whole(v) && Fields(w)
  {
    hide ReadCode, AllSettled, Flat, Hold, ReadLens, AllBelow, Repeated, RepeatBase, RepeatBits;
    assert x < 16 by { LastBelow(v.got, 16); }
    RepeatBelow(v.got, x, n);
    LensRepeats(v.tb.lencode, v.tb.lenbits, v.nlen, v.ndist, v.got, v.rest, op, val, rest, x, n);
  }

  lemma LastBelow(a: seq<nat>, bound: nat)
    requires AllBelow(a, bound)
    ensures a != [] ==> a[|a| - 1] < bound
  {}

  lemma LensRefused(v: View, w: View)
    requires v.mode == CODELENS && Fields(v) && |v.got| == v.nlen + v.ndist && w.mode == BAD && Kin(v, w)
    requires !EndLens(v.got[..v.nlen], v.got[v.nlen..])
    ensures Whole(w) == Whole(v)
  {
    hide EndLens;
  }

  lemma LensBuilt(v: View, w: View)
    requires v.mode == CODELENS && Fields(v) && |v.got| == v.nlen + v.ndist
    requires w.mode == LEN && Kin(v, w) && w.rest == v.rest
    requires EndLens(v.got[..v.nlen], v.got[v.nlen..]) && v.nlen <= Symbols(LENS) && v.ndist <= Symbols(DISTS)
    requires AlikeTables(w.tb, IdealTables(v.got[..v.nlen], v.got[v.nlen..]))
    ensures Whole(w) == Whole(v)
  {
    hide EndLens, AlikeTables, IdealTables, Finish, AtLen;
    DataBegins(w, v.got[..v.nlen], v.got[v.nlen..]);
  }

  // ----- what is put out -----

  lemma PendGrows(v: View)
    ensures Grows(v.total, Pend(v))
  {
    hide Headed, ReadTable, ReadLenLens, ReadLens, Stored, Copied, Finish, Pending;
    match v.mode
    case STORED =>
    case COPY =>
    case TABLE => HeadedRest(v.wsize, ReadTable(v.rest), v.total);
    case LENLENS => if Sizes(v.nlen, v.ndist) { HeadedRest(v.wsize, ReadLenLens(v.nlen, v.ndist, v.ncode, v.got, v.rest), v.total); }
    case CODELENS =>
      if Sizes(v.nlen, v.ndist) && |v.got| <= v.nlen + v.ndist {
        HeadedRest(v.wsize, ReadLens(v.tb.lencode, v.tb.lenbits, v.nlen, v.ndist, v.got, v.rest), v.total);
      }
    case _ => FinishRest(v.tb, v.wsize, Pending(v.tb, v.mode, v.length, v.offset, v.extra, v.rest), v.total);
  }

  /** Output is only ever added to, whatever the stream holds. */
  lemma WholeGrows(v: View)
    ensures Grows(v.total, Whole(v))
  {
    hide Pend, Onward;
    PendGrows(v);
    OnwardGrows(v.wsize, v.last, Pend(v), v.total);
  }
}
