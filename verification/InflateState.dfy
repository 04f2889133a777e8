/** Inflate's state between calls, and its modes LEN to LIT, which decode a block's data a piece at a time. */
module InflateState {
  import opened Rotations
  import opened Words
  import opened Bits
  import opened InflateBits
  import opened InflateCodes
  import opened TableLayout
  import opened Inftrees
  import opened InflateElements
  import opened Outcomes
  import opened HistoryWindow
  import opened Lz77

  /** Tables as inflate_table leaves them. */
  ghost predicate Usable(tb: Tables) {
    Sound(tb) && LinksFull(tb.lencode, tb.lenbits) && LinksFull(tb.distcode, tb.distbits)
  }

  ghost predicate AllSettled(t: seq<Entry>, root: nat) {
    LinksFull(t, root) && forall h: nat :: Settled(t, root, h)
  }

  lemma UsableTables(tb: Tables)
    requires Usable(tb)
    ensures AllSettled(tb.lencode, tb.lenbits) && AllSettled(tb.distcode, tb.distbits)
  {
    hide LinksFull, Settled;
    forall h: nat ensures Settled(tb.lencode, tb.lenbits, h) { assert LengthAt(tb.lencode, tb.lenbits, h); }
    forall h: nat ensures Settled(tb.distcode, tb.distbits, h) { assert DistanceAt(tb.distcode, tb.distbits, h); }
  }

  lemma UsableEntries(tb: Tables, h: nat)
    requires Usable(tb)
    ensures LengthAt(tb.lencode, tb.lenbits, h) && DistanceAt(tb.distcode, tb.distbits, h)
  {
    hide LinksFull, LengthAt, DistanceAt;
  }

  /** The fields the modes leave for each other. */
  predicate ModeFields(mode: Mode, length: nat, offset: nat, extra: nat) {
    match mode
    case LENEXT => MIN_MATCH <= length && extra < 16 && length + Pow2(extra) <= MAX_MATCH + 1
    case DIST => MIN_MATCH <= length <= MAX_MATCH
    case DISTEXT => MIN_MATCH <= length <= MAX_MATCH && 1 <= offset && extra < 16 && offset + Pow2(extra) <= 32769
    case MATCH => 1 <= length <= MAX_MATCH && 1 <= offset <= 32768
    case LIT => length < 256
    case _ => true
  }

  // ----- looking up a code -----

  /** The root entry for the bits held. */
  lemma RootHit(t: seq<Entry>, root: nat, hold: nat)
    requires AllSettled(t, root)
    ensures LowBits(hold, root) < |t|
    ensures var e := t[LowBits(hold, root)];
            if Link(e) then
              && e.bits == root && e.val + Shr(LowBits(hold, e.bits + e.op), e.bits) < |t|
              && var here := t[e.val + Shr(LowBits(hold, e.bits + e.op), e.bits)];
                 Lookup(t, root, hold) == Hit(here.op, here.val, e.bits + here.bits)
            else Lookup(t, root, hold) == Hit(e.op, e.val, e.bits)
  {
    hide LowBits, Shr, Pow2;
    assert Settled(t, root, hold);
    assert FullLink(t, root, LowBits(hold, root));
    var e := t[LowBits(hold, root)];
    ShrLow(hold, e.bits + e.op, e.bits);
  }

  /** As long as fewer bits are held than the code has, the entry found asks for more. */
  lemma TooFew(t: seq<Entry>, root: nat, r: bits, b: nat)
    requires AllSettled(t, root) && b <= |r|
    ensures Lookup(t, root, Hold(r[..b])).Hit? && Lookup(t, root, Hold(r)).Hit?
    ensures Lookup(t, root, Hold(r)).bits <= b <==> Lookup(t, root, Hold(r[..b])).bits <= b
    ensures Lookup(t, root, Hold(r)).bits <= b ==> Lookup(t, root, Hold(r)) == Lookup(t, root, Hold(r[..b]))
  {
    hide Lookup, LowBits, Hold, LinksFull;
    var h, k := Hold(r), Hold(r[..b]);
    assert Settled(t, root, h) && Settled(t, root, k);
    if Lookup(t, root, k).bits <= b { EnoughBits(t, root, r, b); }
    if Lookup(t, root, h).bits <= b {
      var n := Lookup(t, root, h).bits;
      assert r == r[..b] + r[b..];
      HoldParts(r[..b], r[b..]);
      LowBitsTwice(h, b, n);
      LowBitsTwice(k, b, n);
      assert LowBits(k, n) == LowBits(h, n);
    }
  }

  /** Output may still be copied from. */
  predicate NeedsWindow(mode: Mode) {
    mode != BAD && mode != CHECK
  }

  /** No more than seven bits are held, or else they are too few for what comes next. */
  predicate Lean(tb: Tables, mode: Mode, hold: nat, bits: nat, extra: nat) {
    bits < 8 ||
    match mode
    case LEN => Wanting(tb.lencode, tb.lenbits, hold, bits)
    case DIST => Wanting(tb.distcode, tb.distbits, hold, bits)
    case LENEXT => bits < extra
    case DISTEXT => bits < extra
    case STORED => bits < 32 && bits % 8 == 0
    case TABLE => bits < 14
    case CODELENS => Repeating(tb.lencode, tb.lenbits, hold, bits)
    case BAD => true
    case _ => false
  }

  /** The entry found from the bits held drops more than those, or with up to seven bits of a repeat count. */
  predicate Repeating(t: seq<Entry>, root: nat, hold: nat, bits: nat) {
    var hit := Lookup(t, root, hold);
    hit.Hit? && bits < hit.bits + 7
  }

  lemma LeanFew(tb: Tables, mode: Mode, hold: nat, n: nat, extra: nat)
    requires n < 8 || mode == BAD
    ensures Lean(tb, mode, hold, n, extra)
  {}

  lemma LeanCode(tb: Tables, mode: Mode, hold: nat, n: nat, extra: nat)
    ensures mode == LEN ==> (Lean(tb, mode, hold, n, extra) <==> n < 8 || Wanting(tb.lencode, tb.lenbits, hold, n))
    ensures mode == DIST ==> (Lean(tb, mode, hold, n, extra) <==> n < 8 || Wanting(tb.distcode, tb.distbits, hold, n))
    ensures mode == LENEXT || mode == DISTEXT ==> (Lean(tb, mode, hold, n, extra) <==> n < 8 || n < extra)
  {}

  /** The entry found from the bits held drops more than those. */
  predicate Wanting(t: seq<Entry>, root: nat, hold: nat, bits: nat) {
    var hit := Lookup(t, root, hold);
    hit.Hit? && hit.bits > bits
  }

  /** At most seven of the bits held are more than the code at the front needs. */
  predicate Snug(t: seq<Entry>, root: nat, r: bits, n: nat) {
    n < 8 || (Lookup(t, root, Hold(r)).Hit? && n < Lookup(t, root, Hold(r)).bits + 8)
  }

  // ----- copying -----

  lemma CopyNext(out: seq<Byte>, dist: nat, n: nat)
    requires 1 <= dist <= |out|
    ensures var r := CopyBack(out, dist, n);
            CopyBack(out, dist, n + 1) == r + [r[|r| - dist]] && CopyBack(out, dist, 0) == out
  {}

  /** A copy in two parts. */
  lemma {:induction false} CopyTwice(out: seq<Byte>, dist: nat, a: nat, b: nat)
    requires 1 <= dist <= |out|
    ensures CopyBack(CopyBack(out, dist, a), dist, b) == CopyBack(out, dist, a + b)
  {
    hide CopyBack, Back;
    var half := CopyBack(out, dist, a);
    if b == 0 {
      CopyNext(half, dist, 0);
    } else {
      CopyTwice(out, dist, a, b - 1);
      CopyNext(half, dist, b - 1);
      CopyNext(out, dist, a + b - 1);
    }
  }

  class Inflate {
    var input: seq<Byte>
    var next: nat
    var output: array<Byte>
    var put: nat
    var hold: nat
    var bits: nat
    var mode: Mode
    var length: nat
    var offset: nat
    var extra: nat
    var wsize: nat
    var whave: nat
    var wnext: nat
    const window: array<Byte>
    var tb: Tables
    var last: bool
    var nlen: nat
    var ndist: nat
    var ncode: nat
    var have: nat
    const lens: array<nat>
    const work: array<nat>
    const codes: array<Entry>
    /** The output of earlier calls. */
    ghost var history: seq<Byte>

    /** Before the first bit of a new stream. */
    constructor (wbits: nat, out: array<Byte>)
      ensures Valid() && mode == TYPE && !last && history == [] && window.Length == Pow2(wbits)
      ensures wsize == whave == wnext == 0 && lens.Length == 320 && work.Length == 288
      ensures codes.Length == ENOUGH_LENS + ENOUGH_DISTS && lens != work
      ensures fresh(window) && fresh(lens) && fresh(work) && fresh(codes)
      ensures input == [] && output == out && put == 0 && Rest() == []
    {
      window := new Byte[Pow2(wbits)];
      lens, work, codes := new nat[320], new nat[288], new Entry[ENOUGH_LENS + ENOUGH_DISTS];
      tb := Tables([], 0, [], 0);
      input, next, output, put := [], 0, out, 0;
      hold, bits, mode, length, offset, extra := 0, 0, TYPE, 0, 0, 0;
      last, nlen, ndist, ncode, have := false, 0, 0, 0, 0;
      wsize, whave, wnext := 0, 0, 0;
      history := [];
    }

    ghost predicate Held()
      reads `input, `next, `hold, `bits
    {
      hold < Pow2(bits) && next <= |input|
    }

    /** The bits still to be read: those held, then the input. */
    ghost function Rest(): (r: bits)
      requires next <= |input|
      reads `input, `next, `hold, `bits
      ensures |r| == bits + 8 * (|input| - next)
    {
      Extra(hold, bits) + Stream(input[next..])
    }

    ghost predicate Room()
      reads `output, `put
    {
      put <= output.Length && output != window
    }

    /** All output so far. */
    ghost function Total(): seq<Byte>
      requires put <= output.Length
      reads `output, `put, output, `history
    {
      history + output[..put]
    }

    ghost predicate Windowed()
      reads `wsize, `whave, `wnext, window, `history
    {
      (wsize == 0 || wsize == window.Length) && window.Length > 0 && Mirror(window[..], wsize, whave, wnext, history)
    }

    ghost predicate Valid()
      reads this, window
    {
      Held() && Lean(tb, mode, hold, bits, extra) && Room() && ModeFields(mode, length, offset, extra) && (InBlock(mode) ==> Usable(tb)) && (NeedsWindow(mode) || wsize > 0 || (mode == CHECK && put > 0) ==> Windowed())
    }

    /** How much of the output of earlier calls is out of reach. */
    ghost function Lost(): int
      reads `whave, `history
    {
      |history| - whave
    }

    /** The element being decoded, when `future` follows the input. */
    ghost function Current(future: bits): Element
      requires next <= |input|
      reads `input, `next, `hold, `bits, `mode, `length, `offset, `extra, `tb
    {
      Pending(tb, mode, length, offset, extra, Rest() + future)
    }

    /** What decoding the block will yield. */
    ghost function Meaning(future: bits): Outcome
      requires next <= |input| && put <= output.Length
      reads `input, `next, `hold, `bits, `mode, `length, `offset, `extra, `tb, `output, `put, output, `history
    {
      Finish(tb, window.Length, Current(future), Total())
    }

    /** PULLBYTE. */
    method PullByte() returns (ok: bool)
      requires Held()
      modifies `hold, `bits, `next
      ensures Held() && Rest() == old(Rest())
      ensures if ok then bits == old(bits) + 8 && next == old(next) + 1
              else next == |input| && bits == old(bits) && next == old(next) && hold == old(hold)
    {
      hide Extra, Stream, Shl;
      if next == |input| { return false; }
      StreamNext(input, next);
      Pulled(hold, bits, input[next]);
      hold := hold + Shl(input[next], bits);
      bits := bits + 8;
      next := next + 1;
      ok := true;
    }

    /** DROPBITS. */
    method DropBits(n: nat)
      requires Held() && n <= bits
      modifies `hold, `bits
      ensures Held() && hold == Shr(old(hold), n) && bits == old(bits) - n && Rest() == old(Rest())[n..]
    {
      hide Extra, Stream, Shr, Pow2;
      Dropped(hold, bits, n);
      hold := Shr(hold, n);
      bits := bits - n;
    }

    /** NEEDBITS. */
    method NeedBits(n: nat) returns (ok: bool)
      requires Held() && (bits < 8 || bits < n + 8)
      modifies `hold, `bits, `next
      ensures Held() && Rest() == old(Rest())
      ensures if ok then n <= bits && (bits < 8 || bits < n + 8) else next == |input| && bits == |Rest()| < n
    {
      hide Extra, Stream, Pow2;
      while bits < n
        invariant Held() && Rest() == old(Rest()) && (bits < 8 || bits < n + 8)
        decreases |input| - next
      {
        ok := PullByte();
        if !ok { return; }
      }
      ok := true;
    }

    /** The bits held are the front of what is to come. */
    lemma HeldFront(future: bits)
      requires Held()
      ensures bits <= |Rest() + future| && Hold((Rest() + future)[..bits]) == hold
      ensures forall n: nat :: n <= bits ==> Hold((Rest() + future)[..n]) == LowBits(hold, n)
    {
      hide Extra, Stream, LowBits, Pow2;
      HoldExtra(hold, bits);
      assert (Rest() + future)[..bits] == Extra(hold, bits);
      forall n: nat | n <= bits ensures Hold((Rest() + future)[..n]) == LowBits(hold, n) {
        Looked(hold, bits, n);
        assert (Rest() + future)[..n] == Extra(hold, bits)[..n];
      }
    }

    /** What the bits held say about the code at the front. */
    lemma CodeSettled(t: seq<Entry>, root: nat, future: bits)
      requires Held() && AllSettled(t, root)
      ensures Lookup(t, root, hold).Hit?
      ensures Wanting(t, root, hold, bits) ==> Snug(t, root, Rest() + future, bits + 8)
      ensures Wanting(t, root, hold, bits) && next == |input| ==> ReadCode(t, root, Rest()) == Need
      ensures !Wanting(t, root, hold, bits) ==> Lookup(t, root, Hold(Rest() + future)) == Lookup(t, root, hold)
    {
      hide Lookup, LowBits, Hold, Extra, Stream, LinksFull, Pow2, Settled;
      HeldFront(future);
      TooFew(t, root, Rest() + future, bits);
      if next == |input| {
        HeldFront([]);
        assert Rest() + [] == Rest() && Rest()[..bits] == Rest();
      }
    }

    lemma Leaner(t: seq<Entry>, root: nat, r: bits)
      requires bits < 8 || Wanting(t, root, hold, bits)
      requires Wanting(t, root, hold, bits) ==> Snug(t, root, r, bits + 8)
      ensures Snug(t, root, r, bits)
    {}

    /** Look up the root entry of as many bits as are held, and pull in bytes until they are enough for it. */
    method GetRoot(t: seq<Entry>, root: nat, ghost future: bits) returns (ok: bool, here: Entry)
      requires Held() && AllSettled(t, root) && Snug(t, root, Rest() + future, bits)
      modifies `hold, `bits, `next
      ensures Held() && Rest() == old(Rest()) && Snug(t, root, Rest() + future, bits)
      ensures ok ==> LowBits(hold, root) < |t| && here == t[LowBits(hold, root)] && here.bits <= bits
      ensures !ok ==> next == |input| && Wanting(t, root, hold, bits)
    {
      hide LowBits, Hold, Extra, Stream, Pow2, Shr, AllSettled, Snug;
      while true
        invariant Held() && Rest() == old(Rest()) && Snug(t, root, Rest() + future, bits)
        decreases |input| - next
      {
        hide Lookup;
        RootHit(t, root, hold);
        CodeSettled(t, root, future);
        here := t[LowBits(hold, root)];
        if here.bits <= bits { return true, here; }
        ok := PullByte();
        if !ok { return; }
      }
    }

    /** The same for an entry of the sub-table that the root entry links to. */
    method GetSub(t: seq<Entry>, root: nat, last: Entry, ghost future: bits) returns (ok: bool, here: Entry)
      requires Held() && AllSettled(t, root) && Snug(t, root, Rest() + future, bits)
      requires LowBits(hold, root) < |t| && last == t[LowBits(hold, root)] && last.bits <= bits && Link(last)
      modifies `hold, `bits, `next
      ensures Held() && Rest() == old(Rest()) && Snug(t, root, Rest() + future, bits)
      ensures ok ==> last.bits + here.bits <= bits && Lookup(t, root, hold) == Hit(here.op, here.val, last.bits + here.bits)
      ensures !ok ==> next == |input| && Wanting(t, root, hold, bits)
    {
      hide LowBits, Hold, Extra, Stream, Pow2, Shr, AllSettled, Snug, Lookup;
      ghost var low := LowBits(hold, root);
      RootHit(t, root, hold);
      while true
        invariant Held() && Rest() == old(Rest()) && Snug(t, root, Rest() + future, bits)
        invariant root <= bits && LowBits(hold, root) == low
        decreases |input| - next
      {
        RootHit(t, root, hold);
        CodeSettled(t, root, future);
        HeldFront(future);
        here := t[last.val + Shr(LowBits(hold, last.bits + last.op), last.bits)];
        if last.bits + here.bits <= bits { return true, here; }
        ok := PullByte();
        if !ok { return; }
        HeldFront(future);
      }
    }

    /** The entry at the front, and the bits dropped for a link to it. */
    method GetHere(t: seq<Entry>, root: nat, ghost future: bits) returns (ok: bool, skip: nat, here: Entry)
      requires Held() && AllSettled(t, root) && Snug(t, root, Rest() + future, bits)
      modifies `hold, `bits, `next
      ensures Held() && Rest() == old(Rest()) && Snug(t, root, Rest() + future, bits)
      ensures ok ==> skip + here.bits <= bits && Lookup(t, root, hold) == Hit(here.op, here.val, skip + here.bits)
      ensures !ok ==> next == |input| && Wanting(t, root, hold, bits)
    {
      hide Lookup, LowBits, Hold, Extra, Stream, Pow2, Shr, AllSettled, Snug, Wanting;
      skip := 0;
      ok, here := GetRoot(t, root, future);
      if !ok { return; }
      RootHit(t, root, hold);
      if Link(here) {
        skip := here.bits;
        ok, here := GetSub(t, root, here, future);
      }
    }

    lemma HeldBits(future: bits)
      requires next <= |input|
      ensures bits <= |Rest() + future|
    {}

    /** Decode a code: look up as many bits as are held, and pull in bytes until they are enough. */
    method GetCode(t: seq<Entry>, root: nat, ghost future: bits) returns (ok: bool, op: nat, val: nat)
      requires Held() && AllSettled(t, root) && (bits < 8 || Wanting(t, root, hold, bits))
      modifies `hold, `bits, `next
      ensures Held()
      ensures ok ==> bits < 8 && ReadCode(t, root, old(Rest()) + future) == Found(op, val, Rest() + future)
      ensures !ok ==> next == |input| && Rest() == old(Rest()) && Wanting(t, root, hold, bits)
      ensures !ok ==> ReadCode(t, root, Rest()) == Need
    {
      hide Lookup, LowBits, Hold, Extra, Stream, Pow2, Shr, AllSettled, ReadCode, Snug, Wanting, Settled, Rest;
      CodeSettled(t, root, future);
      Leaner(t, root, Rest() + future);
      var skip, here;
      ok, skip, here := GetHere(t, root, future);
      CodeSettled(t, root, future);
      if !ok { return false, 0, 0; }
      ghost var r := Rest() + future;
      Sufficient(t, root, hold, bits, here.op, here.val, skip + here.bits);
      HeldBits(future);
      ReadFound(t, root, r, here.op, here.val, skip + here.bits);
      DropBoth(skip, here.bits, future);
      ok, op, val := true, here.op, here.val;
    }

    method DropBoth(m: nat, n: nat, ghost future: bits)
      requires Held() && m + n <= bits
      modifies `hold, `bits
      ensures Held() && bits == old(bits) - m - n && m + n <= |old(Rest()) + future|
      ensures Rest() + future == (old(Rest()) + future)[m + n..]
    {
      hide Extra, Stream, Pow2, Shr;
      DropBits(m);
      DropBits(n);
    }

    lemma Sufficient(t: seq<Entry>, root: nat, hold: nat, bits: nat, op: nat, val: nat, n: nat)
      requires Lookup(t, root, hold) == Hit(op, val, n) && n <= bits
      ensures !Wanting(t, root, hold, bits)
    {}

    lemma ReadFound(t: seq<Entry>, root: nat, r: bits, op: nat, val: nat, n: nat)
      requires AllSettled(t, root) && Lookup(t, root, Hold(r)) == Hit(op, val, n) && n <= |r|
      ensures ReadCode(t, root, r) == Found(op, val, r[n..])
      ensures forall b: nat :: Snug(t, root, r, b) ==> b < n + 8
    {
      hide Lookup;
      assert Settled(t, root, Hold(r));
    }

    /** The extra bits of a length or distance. */
    method GetExtra(n: nat, ghost future: bits) returns (ok: bool, v: nat)
      requires Held() && (bits < 8 || bits < n)
      modifies `hold, `bits, `next
      ensures Held()
      ensures ok ==> bits < 8 && n <= |old(Rest()) + future| && v == Hold((old(Rest()) + future)[..n]) < Pow2(n)
      ensures ok ==> Rest() + future == (old(Rest()) + future)[n..]
      ensures !ok ==> next == |input| && Rest() == old(Rest()) && bits == |Rest()| < n
    {
      hide LowBits, Hold, Extra, Stream, Pow2;
      v := 0;
      if n == 0 {
        assert (Rest() + future)[..0] == [] && (Rest() + future)[0..] == Rest() + future;
        assert Hold([]) == 0 && Pow2(0) == 1 by { NoBitsHeld(); }
        return true, 0;
      }
      ok := NeedBits(n);
      if !ok { return; }
      HeldFront(future);
      v := LowBits(hold, n);
      ghost var r := Rest() + future;
      DropBits(n);
      assert Rest() + future == r[n..];
    }

    lemma NoBitsHeld()
      ensures Hold([]) == 0 && Pow2(0) == 1
    {}

    /** The mode that a literal/length code leads to. */
    method LenMode(op: nat, val: nat, ghost rest: bits)
      requires op == 0 ==> val < 256
      requires op != 0 && !Has(op, 32) && !Has(op, 64) ==> ModeFields(LENEXT, val, 0, op % 16)
      modifies `mode, `length, `extra
      ensures ModeFields(mode, length, offset, extra) && (mode == LIT || mode == TYPE || mode == BAD || mode == LENEXT)
      ensures Pending(tb, mode, length, offset, extra, rest) ==
              if op == 0 then Literal(val % 256, rest) else if Has(op, 32) then Stop(rest)
              else if Has(op, 64) then Bad else AtLenExt(tb, val, op % 16, rest)
    {
      hide AtLenExt, Has, Pow2;
      length := val;
      if op == 0 {
        mode := LIT;
      } else if Has(op, 32) {
        mode := TYPE;
      } else if Has(op, 64) {
        mode := BAD;
      } else {
        extra := op % 16;
        mode := LENEXT;
      }
    }

    /** LEN. */
    method Len(ghost future: bits) returns (ok: bool)
      requires Valid() && mode == LEN
      modifies `hold, `bits, `next, `mode, `length, `extra
      ensures Valid() && Current(future) == old(Current(future))
      ensures ok ==> |Rest()| < |old(Rest())|
      ensures |Rest()| <= |old(Rest())|
      ensures if ok then mode == LIT || mode == TYPE || mode == BAD || mode == LENEXT
              else mode == LEN && next == |input| && Current([]) == Short
    {
      hide Finish, Windowed, Usable, Wanting, Lookup, Extra, Stream, Pow2, ReadCode, AllSettled, AtLenExt, LowBits, Hold, Has, Rest, Lean, Pending, ModeFields;
      UsableTables(tb);
      LeanCode(tb, mode, hold, bits, extra);
      PendingCode(tb, length, offset, extra);
      var op, val;
      ghost var r := Rest() + future;
      ok, op, val := GetCode(tb.lencode, tb.lenbits, future);
      if !ok {
        assert Rest() + [] == Rest();
        LeanCode(tb, mode, hold, bits, extra);
        return;
      }
      LenElement(tb, r, op, val, Rest() + future);
      LenMode(op, val, Rest() + future);
      LeanFew(tb, mode, hold, bits, extra);
    }

    /** LENEXT. */
    method LenExt(ghost future: bits) returns (ok: bool)
      requires Valid() && mode == LENEXT
      modifies `hold, `bits, `next, `mode, `length
      ensures Valid() && Current(future) == old(Current(future))
      ensures |Rest()| <= |old(Rest())|
      ensures if ok then mode == DIST else mode == LENEXT && next == |input| && Current([]) == Short
    {
      hide Windowed, Usable, Lookup, Extra, Stream, Pow2, Hold, Rest, Lean, Pending, ModeFields;
      ExtraFields(tb, length, offset, extra, Rest() + future);
      ExtraFields(tb, length, offset, extra, Rest() + []);
      LeanCode(tb, mode, hold, bits, extra);
      var v;
      ok, v := GetExtra(extra, future);
      LeanCode(tb, mode, hold, bits, extra);
      if !ok {
        assert Rest() + [] == Rest();
        return;
      }
      length := length + v;
      mode := DIST;
      LeanFew(tb, mode, hold, bits, extra);
    }

    /** The mode that a distance code leads to. */
    method DistMode(op: nat, val: nat, ghost rest: bits)
      requires MIN_MATCH <= length <= MAX_MATCH && (!Has(op, 64) ==> 1 <= val && val + Pow2(op % 16) <= 32769)
      modifies `mode, `offset, `extra
      ensures ModeFields(mode, length, offset, extra) && (mode == BAD || mode == DISTEXT)
      ensures Pending(tb, mode, length, offset, extra, rest) ==
              if Has(op, 64) then Bad else AtDistExt(length, val, op % 16, rest)
    {
      hide AtDistExt, Has, Pow2;
      if Has(op, 64) {
        mode := BAD;
      } else {
        offset := val;
        extra := op % 16;
        mode := DISTEXT;
      }
    }

    /** DIST. */
    method Dist(ghost future: bits) returns (ok: bool)
      requires Valid() && mode == DIST
      modifies `hold, `bits, `next, `mode, `offset, `extra
      ensures Valid() && Current(future) == old(Current(future))
      ensures |Rest()| <= |old(Rest())|
      ensures if ok then mode == BAD || mode == DISTEXT else mode == DIST && next == |input| && Current([]) == Short
    {
      hide Finish, Windowed, Usable, Wanting, Lookup, Extra, Stream, Pow2, ReadCode, AllSettled, AtDistExt, Hold, Rest, Lean, Has, Pending, ModeFields;
      UsableTables(tb);
      LeanCode(tb, mode, hold, bits, extra);
      PendingCode(tb, length, offset, extra);
      DistLength(length, offset, extra);
      var op, val;
      ghost var r := Rest() + future;
      ok, op, val := GetCode(tb.distcode, tb.distbits, future);
      if !ok {
        assert Rest() + [] == Rest();
        LeanCode(tb, mode, hold, bits, extra);
        return;
      }
      DistanceElement(tb, r, op, val, Rest() + future);
      DistMode(op, val, Rest() + future);
      LeanFew(tb, mode, hold, bits, extra);
    }

    /** DISTEXT. */
    method DistExt(ghost future: bits) returns (ok: bool)
      requires Valid() && mode == DISTEXT
      modifies `hold, `bits, `next, `mode, `offset
      ensures Valid() && Current(future) == old(Current(future))
      ensures |Rest()| <= |old(Rest())|
      ensures if ok then mode == MATCH else mode == DISTEXT && next == |input| && Current([]) == Short
    {
      hide Finish, Windowed, Usable, Wanting, Lookup, Extra, Stream, Pow2, ReadCode, Hold, Rest, Lean;
      LeanCode(tb, mode, hold, bits, extra);
      var v;
      ok, v := GetExtra(extra, future);
      LeanCode(tb, mode, hold, bits, extra);
      if !ok {
        assert Rest() + [] == Rest();
        return;
      }
      offset := offset + v;
      mode := MATCH;
      LeanFew(tb, mode, hold, bits, extra);
    }

    /** *put++ = b. */
    method PutByte(b: Byte)
      requires Room() && put < output.Length
      modifies output, `put
      ensures Room() && put == old(put) + 1 && Total() == old(Total()) + [b]
    {
      ghost var o := output[..put];
      output[put] := b;
      put := put + 1;
      assert output[..put] == o + [b];
    }

    /** Output bytes are the end of the whole output. */
    lemma OutputByte(i: nat)
      requires put <= output.Length && i < put
      ensures |history| + i < |Total()| && Total()[|history| + i] == output[i]
    {}

    /** Copy n bytes of the output written in this call. */
    method FromOutput(dist: nat, n: nat)
      requires Room() && put + n <= output.Length && 1 <= dist <= put
      modifies output, `put
      ensures Room() && put == old(put) + n && |old(Total())| >= dist && Total() == CopyBack(old(Total()), dist, n)
    {
      hide CopyBack;
      ghost var t := Total();
      assert |t| >= dist;
      var from := put - dist;
      CopyNext(t, dist, 0);
      for i := 0 to n
        invariant Room() && put == old(put) + i && from == put - dist && Total() == CopyBack(t, dist, i)
      {
        OutputByte(from);
        CopyNext(t, dist, i);
        PutByte(output[from]);
        from := from + 1;
      }
    }

    /** Copy n bytes from the window, without passing its end or its write index. */
    method FromWindow(dist: nat, n: nat)
      requires Room() && Windowed() && put + n <= output.Length && put < dist <= put + whave
      requires n <= if dist - put > wnext then dist - put - wnext else dist - put
      modifies output, `put
      ensures Room() && put == old(put) + n && |old(Total())| >= dist && Total() == CopyBack(old(Total()), dist, n)
    {
      hide CopyBack, Back, Mirror, Lean, Finish;
      ghost var t := Total();
      WindowByte(dist - put);
      assert |t| >= dist;
      var from := Cell(wsize, wnext, dist - put);
      CopyNext(t, dist, 0);
      for i := 0 to n
        invariant Room() && put == old(put) + i && Total() == CopyBack(t, dist, i)
        invariant i < n ==> from == Cell(wsize, wnext, dist - put)
      {
        WindowByte(dist - put);
        CopyNext(t, dist, i);
        PutByte(window[from]);
        from := from + 1;
      }
    }

    lemma WindowByte(d: nat)
      requires Windowed() && 1 <= d <= whave
      ensures HeldAt(window[..], wsize, wnext, history, d)
      ensures window[Cell(wsize, wnext, d)] == history[|history| - d]
    {
      MirrorByte(window[..], wsize, whave, wnext, history, d);
      assert window[..][Cell(wsize, wnext, d)] == window[Cell(wsize, wnext, d)];
    }

    /** One piece of a copy: up to the end of the window, its write index, the length or the room. */
    method CopySome() returns (copy: nat)
      requires Room() && Windowed() && put < output.Length && 1 <= length && 1 <= offset <= put + whave
      modifies output, `put
      ensures Room() && 1 <= copy <= length && put == old(put) + copy
      ensures |old(Total())| >= offset && Total() == CopyBack(old(Total()), offset, copy)
    {
      hide Mirror, CopyBack, Back;
      if offset > put {
        copy := offset - put;
        if copy > wnext { copy := copy - wnext; }
        if copy > length { copy := length; }
        if copy > output.Length - put { copy := output.Length - put; }
        FromWindow(offset, copy);
      } else {
        copy := length;
        if copy > output.Length - put { copy := output.Length - put; }
        FromOutput(offset, copy);
      }
    }

    /** MATCH: as much of the copy as there is room for and as lies in one piece. */
    method MatchPiece(ghost future: bits) returns (ok: bool)
      requires Valid() && mode == MATCH
      modifies output, `put, `mode, `length
      ensures Valid() && Keeps(Lost(), old(Meaning(future)), Meaning(future)) && Rest() == old(Rest())
      ensures if ok then mode == MATCH || mode == LEN || mode == BAD else mode == MATCH && put == output.Length
      ensures ok ==> (mode == BAD <==> offset > old(put) + whave) && (mode != BAD ==> put > old(put))
    {
      hide Finish, Mirror, Usable, Pow2, AtLen, CopyBack, Lean, Pending, ModeFields, Lost, Rest, Total;
      MatchFields(tb, length, offset, extra, hold, bits);
      if put == output.Length { return false; }
      ok := true;
      if offset > put + whave {
        RefusedMeans(future);
        mode := BAD;
      } else {
        ghost var t := Total();
        Reached();
        var copy := CopySome();
        PieceMeans(tb, window.Length, Lost(), length, offset, extra, copy, Rest() + future, t);
        length := length - copy;
        if length == 0 { mode := LEN; }
      }
    }

    /** Within a call, the copies refused are exactly those from the bytes lost and before. */
    lemma Reached()
      requires Room() && Windowed()
      ensures Lost() == Behind(|history|, window.Length) && put + whave == |Total()| - Lost()
    {
      MirrorSize(window[..], wsize, whave, wnext, history);
    }

    /** A copy that is refused. */
    lemma TooFar(dist: nat, len: nat, r: bits)
      requires Room() && Windowed() && dist > put + whave && len > 0
      ensures Keeps(Lost(), Finish(tb, window.Length, Copy(dist, len, r), Total()), Finish(tb, window.Length, Bad, Total()))
    {
      hide AtLen, CopyBack;
      Reached();
      MirrorSize(window[..], wsize, whave, wnext, history);
    }

    /** The same of the copy in progress. */
    lemma RefusedMeans(future: bits)
      requires Room() && Held() && Windowed() && mode == MATCH && offset > put + whave && length > 0
      ensures Keeps(Lost(), Meaning(future), Finish(tb, window.Length, Pending(tb, BAD, length, offset, extra, Rest() + future), Total()))
    {
      hide Mirror, Finish, Keeps, Lost, Rest, Total;
      TooFar(offset, length, Rest() + future);
    }

    /** LIT. */
    method Lit(ghost future: bits) returns (ok: bool)
      requires Valid() && mode == LIT
      modifies output, `put, `mode
      ensures Valid() && Meaning(future) == old(Meaning(future)) && Rest() == old(Rest())
      ensures if ok then mode == LEN && put == old(put) + 1 else mode == LIT && put == output.Length
    {
      hide Usable, Rest, Total, Windowed, AtLen, Finish, Pending, Lean, ModeFields, Pow2;
      if put == output.Length { return false; }
      LitFields(tb, length, offset, extra, hold, bits);
      LitMeans(tb, window.Length, length, offset, extra, Rest() + future, Total());
      PutByte(length);
      mode := LEN;
      ok := true;
    }
  }

  /** A copy that no call refuses is made at once. */
  lemma NearCopy(tb: Tables, wsize: nat, dist: nat, len: nat, r: bits, t: seq<Byte>)
    requires 1 <= dist <= |t| && (dist <= wsize || len == 0)
    ensures Finish(tb, wsize, Copy(dist, len, r), t) == Finish(tb, wsize, AtLen(tb, r), CopyBack(t, dist, len))
  {
    hide AtLen;
    CopyNext(t, dist, 0);
  }

  /** Any other goes byte by byte. */
  lemma FarCopy(tb: Tables, wsize: nat, dist: nat, len: nat, r: bits, t: seq<Byte>)
    requires wsize < dist <= |t| && len > 0
    ensures Finish(tb, wsize, Copy(dist, len, r), t) == Far(t, dist, Finish(tb, wsize, Copy(dist, len - 1, r), CopyBack(t, dist, 1)))
  {
    hide AtLen;
    CopyNext(t, dist, 0);
  }

  /** The meaning of a copy of which n bytes have been made. */
  lemma {:induction false} CopyPart(tb: Tables, wsize: nat, lost: int, dist: nat, n: nat, len: nat, r: bits, t: seq<Byte>)
    requires 1 <= dist <= |t| - lost && lost >= 0 && n <= len
    ensures Keeps(lost, Finish(tb, wsize, Copy(dist, len, r), t), Finish(tb, wsize, Copy(dist, len - n, r), CopyBack(t, dist, n)))
    decreases n
  {
    hide CopyBack, Back, AtLen, Finish;
    CopyNext(t, dist, 0);
    CopyTwice(t, dist, n, len - n);
    if dist <= wsize {
      NearCopy(tb, wsize, dist, len, r, t);
      NearCopy(tb, wsize, dist, len - n, r, CopyBack(t, dist, n));
    } else if n > 0 {
      FarCopy(tb, wsize, dist, len, r, t);
      CopyTwice(t, dist, 1, n - 1);
      CopyPart(tb, wsize, lost, dist, n - 1, len - 1, r, CopyBack(t, dist, 1));
    }
  }

  lemma CopyWhole(tb: Tables, wsize: nat, lost: int, dist: nat, len: nat, r: bits, t: seq<Byte>)
    requires 1 <= dist <= |t| - lost && lost >= 0
    ensures Keeps(lost, Finish(tb, wsize, Copy(dist, len, r), t), Finish(tb, wsize, AtLen(tb, r), CopyBack(t, dist, len)))
  {
    hide CopyBack, Back, AtLen, Finish;
    CopyPart(tb, wsize, lost, dist, len, len, r, t);
    NearCopy(tb, wsize, dist, 0, r, CopyBack(t, dist, len));
    CopyNext(CopyBack(t, dist, len), dist, 0);
  }

  /** What MATCH leaves for itself, for LEN and for BAD. */
  lemma MatchFields(tb: Tables, length: nat, offset: nat, extra: nat, hold: nat, bits: nat)
    requires ModeFields(MATCH, length, offset, extra) && Lean(tb, MATCH, hold, bits, extra)
    ensures 1 <= length <= MAX_MATCH && 1 <= offset <= 32768
    ensures Lean(tb, LEN, hold, bits, extra) && Lean(tb, BAD, hold, bits, extra)
    ensures forall n: nat :: ModeFields(LEN, n, offset, extra) && ModeFields(BAD, n, offset, extra)
    ensures forall n: nat :: 1 <= n <= length ==> ModeFields(MATCH, n, offset, extra)
  {
    hide Lookup;
  }

  /** The piece made and what is left of the copy, or the element after it. */
  lemma PieceMeans(tb: Tables, wsize: nat, lost: int, length: nat, offset: nat, extra: nat, copy: nat, r: bits, t: seq<Byte>)
    requires 1 <= offset <= |t| - lost && lost >= 0 && copy <= length
    ensures var next := if length == copy then LEN else MATCH;
            Keeps(lost, Finish(tb, wsize, Pending(tb, MATCH, length, offset, extra, r), t),
                  Finish(tb, wsize, Pending(tb, next, length - copy, offset, extra, r), CopyBack(t, offset, copy)))
  {
    hide Finish, CopyBack, Back, AtLen, Keeps;
    CopyPart(tb, wsize, lost, offset, copy, length, r, t);
    if copy == length { CopyWhole(tb, wsize, lost, offset, length, r, t); }
  }

  /** What LIT leaves for LEN. */
  lemma LitFields(tb: Tables, length: nat, offset: nat, extra: nat, hold: nat, bits: nat)
    requires ModeFields(LIT, length, offset, extra) && Lean(tb, LIT, hold, bits, extra)
    ensures length < 256 && ModeFields(LEN, length, offset, extra) && Lean(tb, LEN, hold, bits, extra)
  {}

  lemma LitMeans(tb: Tables, wsize: nat, length: nat, offset: nat, extra: nat, r: bits, t: seq<Byte>)
    requires length < 256
    ensures Finish(tb, wsize, Pending(tb, LIT, length, offset, extra, r), t) ==
            Finish(tb, wsize, Pending(tb, LEN, length, offset, extra, r), t + [length])
  {
    hide AtLen;
  }

  /** The extra bits complete a length. */
  lemma ExtraFields(tb: Tables, length: nat, offset: nat, extra: nat, r: bits)
    ensures ModeFields(LENEXT, length, offset, extra) ==>
      if extra <= |r| then
        var v := Hold(r[..extra]);
        (v < Pow2(extra) ==> ModeFields(DIST, length + v, offset, extra)) &&
        Pending(tb, DIST, length + v, offset, extra, r[extra..]) == Pending(tb, LENEXT, length, offset, extra, r)
      else Pending(tb, LENEXT, length, offset, extra, r) == Short
  {
    hide AtDist, Hold, Pow2;
  }

  lemma PendingCode(tb: Tables, length: nat, offset: nat, extra: nat)
    ensures forall r: bits :: Pending(tb, LEN, length, offset, extra, r) == AtLen(tb, r)
    ensures forall r: bits :: Pending(tb, DIST, length, offset, extra, r) == AtDist(tb, length, r)
  {
    hide AtLen, AtDist;
  }

  lemma DistLength(length: nat, offset: nat, extra: nat)
    requires ModeFields(DIST, length, offset, extra)
    ensures MIN_MATCH <= length <= MAX_MATCH
  {}

  lemma LengthFields(tb: Tables, r: bits, op: nat, val: nat, rest: bits)
    requires Usable(tb) && ReadCode(tb.lencode, tb.lenbits, r) == Found(op, val, rest)
    ensures op == 0 ==> val < 256
    ensures Has(op, 16) <==> op != 0 && !Has(op, 32) && !Has(op, 64)
    ensures Has(op, 16) ==> ModeFields(LENEXT, val, 0, op % 16) && op == 16 + op % 16 <= 21
  {
    hide Lookup, Pow2, Settled;
    UsableEntries(tb, Hold(r));
  }

  /** What a literal/length code makes of the bits. */
  lemma LenElement(tb: Tables, r: bits, op: nat, val: nat, rest: bits)
    requires Usable(tb) && ReadCode(tb.lencode, tb.lenbits, r) == Found(op, val, rest)
    ensures op == 0 ==> val < 256
    ensures op != 0 && !Has(op, 32) && !Has(op, 64) ==> ModeFields(LENEXT, val, 0, op % 16)
    ensures AtLen(tb, r) ==
            if op == 0 then Literal(val % 256, rest) else if Has(op, 32) then Stop(rest)
            else if Has(op, 64) then Bad else AtLenExt(tb, val, op % 16, rest)
  {
    hide Lookup, Pow2, Settled, ReadCode, AtLenExt;
    LengthFields(tb, r, op, val, rest);
  }

  lemma DistanceFields(tb: Tables, r: bits, op: nat, val: nat, rest: bits)
    requires Usable(tb) && ReadCode(tb.distcode, tb.distbits, r) == Found(op, val, rest)
    ensures Has(op, 16) <==> !Has(op, 64)
    ensures Has(op, 16) ==> op == 16 + op % 16 <= 29 && 1 <= val && val + Pow2(op % 16) <= 32769
  {
    hide Lookup, Pow2, Settled;
    UsableEntries(tb, Hold(r));
  }

  /** What a distance code makes of the bits. */
  lemma DistanceElement(tb: Tables, r: bits, op: nat, val: nat, rest: bits)
    requires Usable(tb) && ReadCode(tb.distcode, tb.distbits, r) == Found(op, val, rest)
    ensures !Has(op, 64) ==> 1 <= val && val + Pow2(op % 16) <= 32769
    ensures forall length: nat :: AtDist(tb, length, r) == if Has(op, 64) then Bad else AtDistExt(length, val, op % 16, rest)
  {
    hide Lookup, Pow2, Settled, ReadCode, AtDistExt;
    DistanceFields(tb, r, op, val, rest);
  }
}
