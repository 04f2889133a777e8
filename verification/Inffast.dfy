/** inflate_fast: whole elements at a time, while six input bytes and room for 258 output bytes remain. */
module Inffast {
  import opened Rotations
  import opened Words
  import opened Bits
  import opened InflateBits
  import opened InflateCodes
  import opened TableLayout
  import opened InflateElements
  import opened Outcomes
  import opened InflateState
  import opened HistoryWindow
  import opened Lz77

  /** b is a with bits dropped from its front. */
  predicate Tail(a: bits, b: bits) {
    |b| <= |a| && b == a[|a| - |b|..]
  }

  lemma TailTwice(a: bits, b: bits, c: bits)
    requires Tail(a, b) && Tail(b, c)
    ensures Tail(a, c)
  {}

  lemma Drops(x: bits, a: nat, b: nat, future: bits)
    requires a + b <= |x|
    ensures x[a..][b..] == x[a + b..] && x[a + b..] + future == (x + future)[a + b..] && Tail(x, x[a + b..])
  {}

  /** What was pulled, if anything, and the b bits held before make at most n bits. */
  predicate Took(next: nat, b: nat, next': nat, n: nat) {
    next <= next' && (next' == next || 8 * (next' - next) + b <= n)
  }

  lemma TookTwice(a: nat, b: nat, a1: nat, b1: nat, a2: nat, n: nat)
    requires n <= 5 && Took(a, b, a1, n + 7) && b1 + n == b + 8 * (a1 - a) && Took(a1, b1, a2, 35)
    ensures Took(a, b, a2, 40)
  {}

  /** Pull two bytes unless a whole code is held. */
  method Refill(s: Inflate)
    requires s.Held() && (s.bits < MAXBITS ==> |s.Rest()| > 22)
    modifies s`hold, s`bits, s`next
    ensures s.Held() && s.Rest() == old(s.Rest()) && MAXBITS <= s.bits
    ensures if old(s.bits) < MAXBITS then s.bits == old(s.bits) + 16 && s.next == old(s.next) + 2
            else s.bits == old(s.bits) && s.next == old(s.next)
  {
    hide Extra, Stream, Pow2;
    if s.bits < MAXBITS {
      var ok := s.PullByte();
      ok := s.PullByte();
    }
  }

  /** With all its bits held, the code at the front is read by at most two look-ups. */
  lemma CodeHeld(s: Inflate, t: seq<Entry>, root: nat, future: bits)
    requires s.Held() && AllSettled(t, root) && s.bits >= MAXBITS
    ensures LowBits(s.hold, root) < |t|
    ensures var e, r := t[LowBits(s.hold, root)], s.Rest() + future;
            if Link(e) then
              var j := e.val + LowBits(Shr(s.hold, e.bits), e.op);
              && j < |t| && 1 <= e.bits + t[j].bits <= MAXBITS
              && ReadCode(t, root, r) == Found(t[j].op, t[j].val, r[e.bits + t[j].bits..])
            else 1 <= e.bits <= MAXBITS && ReadCode(t, root, r) == Found(e.op, e.val, r[e.bits..])
  {
    hide Lookup, LowBits, Hold, Extra, Stream, Pow2, Shr, AllSettled, ReadCode, Snug;
    HeldSettled(t, root, s.hold);
    s.CodeSettled(t, root, future);
    RootHit(t, root, s.hold);
    var hit := Lookup(t, root, s.hold);
    if Link(t[LowBits(s.hold, root)]) { SubHere(t, root, s.hold); }
    s.ReadFound(t, root, s.Rest() + future, hit.op, hit.val, hit.bits);
  }

  /** Read a code with all its bits held, following at most one link. */
  method FastCode(s: Inflate, t: seq<Entry>, root: nat, ghost future: bits) returns (op: nat, val: nat)
    requires s.Held() && AllSettled(t, root) && s.bits >= MAXBITS
    modifies s`hold, s`bits
    ensures s.Held() && ReadCode(t, root, old(s.Rest()) + future) == Found(op, val, s.Rest() + future)
    ensures old(s.bits) - MAXBITS <= s.bits < old(s.bits)
    ensures |old(s.Rest())| - MAXBITS <= |s.Rest()| < |old(s.Rest())| && Tail(old(s.Rest()), s.Rest())
  {
    hide LowBits, Extra, Stream, Pow2, Shr, AllSettled, ReadCode, Tail, Link;
    ghost var x := s.Rest();
    CodeHeld(s, t, root, future);
    var here := t[LowBits(s.hold, root)];
    ghost var skip := 0;
    if Link(here) {
      skip := here.bits;
      s.DropBits(here.bits);
      here := t[here.val + LowBits(s.hold, here.op)];
    }
    // an entry that is no link is dropped as it is; a link is dropped before the entry it leads to
    Drops(x, skip, here.bits, future);
    assert x[0..] == x;
    s.DropBits(here.bits);
    op, val := here.op, here.val;
  }

  lemma HeldSettled(t: seq<Entry>, root: nat, hold: nat)
    requires AllSettled(t, root)
    ensures Lookup(t, root, hold).Hit? && 1 <= Lookup(t, root, hold).bits <= MAXBITS
  {
    hide Lookup;
    assert Settled(t, root, hold);
  }

  /** The entry of a sub-table is found from the bits left after dropping those of the link. */
  lemma SubHere(t: seq<Entry>, root: nat, hold: nat)
    requires AllSettled(t, root) && LowBits(hold, root) < |t| && Link(t[LowBits(hold, root)])
    ensures var e := t[LowBits(hold, root)];
            && e.val + LowBits(Shr(hold, e.bits), e.op) < |t|
            && var here := t[e.val + LowBits(Shr(hold, e.bits), e.op)];
               Lookup(t, root, hold) == Hit(here.op, here.val, e.bits + here.bits)
  {
    hide LowBits, Shr, Pow2;
    assert Settled(t, root, hold);
  }

  /** Extra bits, with enough input for them. */
  method FastExtra(s: Inflate, n: nat, ghost future: bits) returns (v: nat)
    requires s.Held() && n <= 13 && |s.Rest()| >= n
    modifies s`hold, s`bits, s`next
    ensures s.Held() && v < Pow2(n) && v == Hold((old(s.Rest()) + future)[..n])
    ensures s.Rest() + future == (old(s.Rest()) + future)[n..] && Tail(old(s.Rest()), s.Rest())
    ensures if old(s.bits) >= n then s.bits == old(s.bits) - n else s.bits < 8
    ensures Took(old(s.next), old(s.bits), s.next, n + 7) && s.bits == old(s.bits) + 8 * (s.next - old(s.next)) - n
  {
    hide LowBits, Hold, Extra, Stream, Pow2;
    if s.bits < n {
      var ok := s.PullByte();
      if s.bits < n { ok := s.PullByte(); }
    }
    s.HeldFront(future);
    ghost var r := s.Rest() + future;
    v := LowBits(s.hold, n);
    s.DropBits(n);
    assert s.Rest() + future == r[n..];
  }

  /** Copy from the window, wrapping around its end, and then from the output. */
  method FastCopy(s: Inflate, dist: nat, len: nat)
    requires s.Room() && s.Windowed() && s.put + len <= s.output.Length && 1 <= dist <= s.put + s.whave
    modifies s.output, s`put
    ensures s.Room() && s.put == old(s.put) + len && s.output == old(s.output)
    ensures |old(s.Total())| >= dist && s.Total() == CopyBack(old(s.Total()), dist, len)
  {
    hide CopyBack, Back, Mirror;
    ghost var t := s.Total();
    if dist <= s.put {
      s.FromOutput(dist, len);
      return;
    }
    var op := dist - s.put;
    s.WindowByte(op);
    if s.wnext == 0 || op <= s.wnext {
      if op < len {
        s.FromWindow(dist, op);
        s.FromOutput(dist, len - op);
        CopyTwice(t, dist, op, len - op);
      } else {
        s.FromWindow(dist, len);
      }
    } else {
      op := op - s.wnext;
      if op < len {
        s.FromWindow(dist, op);
        CopyTwice(t, dist, op, len - op);
        WrappedCopy(s, dist, len - op);
      } else {
        s.FromWindow(dist, len);
      }
    }
  }

  /** The rest of a copy that has reached the start of the window. */
  method WrappedCopy(s: Inflate, dist: nat, len: nat)
    requires s.Room() && s.Windowed() && s.put + len <= s.output.Length && 1 <= dist <= s.put + s.whave
    requires dist == s.put + s.wnext && s.wnext > 0
    modifies s.output, s`put
    ensures s.Room() && s.put == old(s.put) + len && s.output == old(s.output)
    ensures |old(s.Total())| >= dist && s.Total() == CopyBack(old(s.Total()), dist, len)
  {
    hide CopyBack, Back, Mirror;
    ghost var t := s.Total();
    var op := s.wnext;
    if op < len {
      s.FromWindow(dist, op);
      s.FromOutput(dist, len - op);
      CopyTwice(t, dist, op, len - op);
    } else {
      s.FromWindow(dist, len);
    }
  }

  /** The distance code and its extra bits. */
  method FastDistance(s: Inflate, ghost length: nat, ghost future: bits) returns (ok: bool, dist: nat)
    requires s.Held() && Usable(s.tb) && |s.Rest()| >= 28 && s.bits <= 30
    modifies s`hold, s`bits, s`next
    ensures s.Held() && Tail(old(s.Rest()), s.Rest()) && s.bits <= 30
    ensures AtDist(s.tb, length, old(s.Rest()) + future) == if ok then Copy(dist, length, s.Rest() + future) else Bad
    ensures (ok ==> 1 <= dist <= 32768) && Took(old(s.next), old(s.bits), s.next, 35)
  {
    hide LowBits, Hold, Extra, Stream, Pow2, AllSettled, ReadCode, Usable, Tail, AtDist, Has;
    UsableTables(s.tb);
    ghost var r := s.Rest() + future;
    Refill(s);
    var op, val := FastCode(s, s.tb.distcode, s.tb.distbits, future);
    ghost var q := s.Rest();
    ReadDistance(s.tb, length, r, op, val, q + future);
    if Has(op, 16) {
      var v := FastExtra(s, op % 16, future);
      TailTwice(old(s.Rest()), q, s.Rest());
      return true, val + v;
    }
    return false, 0;
  }

  lemma ReadDistance(tb: Tables, length: nat, r: bits, op: nat, val: nat, rest: bits)
    requires Usable(tb) && ReadCode(tb.distcode, tb.distbits, r) == Found(op, val, rest)
    ensures Has(op, 16) ==> op % 16 <= 13 && 1 <= val && val + Pow2(op % 16) <= 32769
    ensures AtDist(tb, length, r) == if Has(op, 16) then AtDistExt(length, val, op % 16, rest) else Bad
  {
    hide ReadCode, AtDistExt, Usable, Pow2;
    DistanceFields(tb, r, op, val, rest);
  }

  lemma PairLeft(r: bits, q: bits, n: nat, future: bits)
    requires n <= |r| && q + future == (r + future)[n..]
    ensures |q| == |r| - n
  {}

  /** Length extra bits, distance code and distance extra bits. */
  method FastPair(s: Inflate, base: nat, n: nat, ghost future: bits) returns (ok: bool, len: nat, dist: nat)
    requires s.Held() && Usable(s.tb) && ModeFields(LENEXT, base, 0, n) && n <= 5 && |s.Rest()| >= 33 && s.bits <= 30
    modifies s`hold, s`bits, s`next
    ensures s.Held() && Tail(old(s.Rest()), s.Rest()) && s.bits <= 30
    ensures AtLenExt(s.tb, base, n, old(s.Rest()) + future) == if ok then Copy(dist, len, s.Rest() + future) else Bad
    ensures MIN_MATCH <= len <= MAX_MATCH && (ok ==> 1 <= dist <= 32768) && Took(old(s.next), old(s.bits), s.next, 40)
  {
    hide Hold, Extra, Stream, Pow2, AtDist, Usable, Took, Tail, LowBits;
    var v := FastExtra(s, n, future);
    len := base + v;
    ghost var q, a, b := s.Rest(), s.next, s.bits;
    PairLeft(old(s.Rest()), q, n, future);
    ok, dist := FastDistance(s, len, future);
    TookTwice(old(s.next), old(s.bits), a, b, s.next, n);
    TailTwice(old(s.Rest()), q, s.Rest());
  }

  /** Enough input and output for any element. */
  predicate Ample(s: Inflate)
    reads s`input, s`next, s`output, s`put
  {
    s.next + 6 <= |s.input| && s.put + MAX_MATCH <= s.output.Length
  }

  ghost predicate Ready(s: Inflate)
    reads s, s.window
  {
    s.Held() && s.Room() && s.Windowed() && Usable(s.tb) && s.bits <= 30
  }

  /** A match, once the base of its length is known. */
  method FastMatch(s: Inflate, base: nat, n: nat, ghost future: bits)
    requires Ready(s) && s.mode == LEN && s.put + MAX_MATCH <= s.output.Length
    requires ModeFields(LENEXT, base, 0, n) && n <= 5 && |s.Rest()| >= 33
    modifies s.output, s`put, s`hold, s`bits, s`next, s`mode
    ensures Ready(s) && s.output == old(s.output) && s.put <= old(s.put) + MAX_MATCH
    ensures s.mode == LEN || s.mode == BAD
    ensures Tail(old(s.Rest()), s.Rest()) && Took(old(s.next), old(s.bits), s.next, 40)
    ensures Keeps(s.Lost(), Finish(s.tb, s.window.Length, AtLenExt(s.tb, base, n, old(s.Rest()) + future), old(s.Total())), s.Meaning(future))
  {
    hide Lookup, LowBits, Hold, Extra, Stream, Pow2, ReadCode, Usable, AtLenExt, Finish, CopyBack, Mirror, AtLen, Tail;
    ghost var t := s.Total();
    var ok, len, dist := FastPair(s, base, n, future);
    if !ok {
      s.mode := BAD;
    } else if dist > s.put + s.whave {
      s.TooFar(dist, len, s.Rest() + future);
      s.mode := BAD;
    } else {
      s.Reached();
      FastCopy(s, dist, len);
      CopyWhole(s.tb, s.window.Length, s.Lost(), dist, len, s.Rest() + future, t);
    }
  }

  /** A literal/length code. */
  method FastSymbol(s: Inflate, ghost future: bits) returns (op: nat, val: nat)
    requires s.Held() && Usable(s.tb) && s.bits <= 30 && s.next + 6 <= |s.input|
    modifies s`hold, s`bits, s`next
    ensures s.Held() && s.bits <= 30 && |s.Rest()| >= 33
    ensures old(s.next) <= s.next <= old(s.next) + 2 && s.bits + MAXBITS >= old(s.bits) + 8 * (s.next - old(s.next))
    ensures ReadCode(s.tb.lencode, s.tb.lenbits, old(s.Rest()) + future) == Found(op, val, s.Rest() + future)
    ensures |s.Rest()| < |old(s.Rest())| && Tail(old(s.Rest()), s.Rest())
    ensures Wanting(s.tb.lencode, s.tb.lenbits, old(s.hold), old(s.bits)) ==> |s.Rest()| < |old(s.Rest())| - old(s.bits)
  {
    hide Lookup, LowBits, Hold, Extra, Stream, Pow2, AllSettled, ReadCode, Usable, Snug, Wanting;
    UsableTables(s.tb);
    ghost var r := s.Rest() + future;
    s.CodeSettled(s.tb.lencode, s.tb.lenbits, future);
    Refill(s);
    op, val := FastCode(s, s.tb.lencode, s.tb.lenbits, future);
    Drained(s.tb.lencode, s.tb.lenbits, r, old(s.bits), op, val, s.Rest() + future);
  }

  /** What a literal/length code stands for. */
  function Meant(tb: Tables, op: nat, val: nat, r: bits): Element {
    if op == 0 then Literal(val % 256, r)
    else if Has(op, 16) then AtLenExt(tb, val, op % 16, r)
    else if Has(op, 32) then Stop(r)
    else Bad
  }

  /** A literal byte, or a length within range. */
  predicate LengthCoded(op: nat, val: nat) {
    (op == 0 ==> val < 256) && (Has(op, 16) ==> op % 16 <= 5 && ModeFields(LENEXT, val, 0, op % 16))
  }

  /** What the block comes to with the element next. */
  ghost function After(s: Inflate, e: Element): Outcome
    requires s.put <= s.output.Length
    reads s, s.output
  {
    Finish(s.tb, s.window.Length, e, s.Total())
  }

  /** The rest of an element, its code being read. */
  method FastRest(s: Inflate, op: nat, val: nat, ghost future: bits)
    requires Ready(s) && s.mode == LEN && s.put + MAX_MATCH <= s.output.Length && |s.Rest()| >= 33
    requires LengthCoded(op, val)
    modifies s.output, s`put, s`hold, s`bits, s`next, s`mode
    ensures Ready(s) && s.output == old(s.output) && s.put <= old(s.put) + MAX_MATCH
    ensures s.mode == LEN || s.mode == TYPE || s.mode == BAD
    ensures Tail(old(s.Rest()), s.Rest()) && Took(old(s.next), old(s.bits), s.next, 40)
    ensures Keeps(s.Lost(), old(After(s, Meant(s.tb, op, val, s.Rest() + future))), s.Meaning(future))
  {
    hide Extra, Stream, Pow2, Usable, AtLenExt, Finish, Mirror, AtLen, Has, ModeFields;
    if op == 0 {
      ghost var t := s.Total();
      s.PutByte(val);
      LiteralMade(s.tb, s.window.Length, val, s.Rest() + future, t);
    } else if Has(op, 16) {
      FastMatch(s, val, op % 16, future);
    } else if Has(op, 32) {
      s.mode := TYPE;
    } else {
      s.mode := BAD;
    }
  }

  /** One element. */
  method FastElement(s: Inflate, ghost future: bits)
    requires Ready(s) && s.mode == LEN && Ample(s)
    modifies s.output, s`put, s`hold, s`bits, s`next, s`mode
    ensures Ready(s) && s.output == old(s.output) && s.put <= old(s.put) + MAX_MATCH && s.next <= old(s.next) + 6
    ensures s.mode == LEN || s.mode == TYPE || s.mode == BAD
    ensures Keeps(s.Lost(), old(s.Meaning(future)), s.Meaning(future))
    ensures |s.Rest()| < |old(s.Rest())| && Tail(old(s.Rest()), s.Rest())
    ensures Wanting(s.tb.lencode, s.tb.lenbits, old(s.hold), old(s.bits)) ==> |s.Rest()| < |old(s.Rest())| - old(s.bits)
  {
    hide Extra, Stream, Pow2, ReadCode, Usable, Finish, Mirror, AtLen, Meant, Wanting, LengthCoded, Inflate.Lost, Keeps;
    ghost var r := s.Rest() + future;
    var op, val := FastSymbol(s, future);
    ReadElement(s.tb, r, op, val, s.Rest() + future);
    ghost var q := s.Rest();
    FastRest(s, op, val, future);
    TailTwice(old(s.Rest()), q, s.Rest());
  }

  lemma ReadElement(tb: Tables, r: bits, op: nat, val: nat, rest: bits)
    requires Usable(tb) && ReadCode(tb.lencode, tb.lenbits, r) == Found(op, val, rest)
    ensures LengthCoded(op, val)
    ensures AtLen(tb, r) == Meant(tb, op, val, rest)
  {
    hide ReadCode, AtLenExt, Usable, Pow2;
    LengthFields(tb, r, op, val, rest);
  }

  lemma Drained(t: seq<Entry>, root: nat, r: bits, b: nat, op: nat, val: nat, rest: bits)
    requires ReadCode(t, root, r) == Found(op, val, rest)
    ensures Snug(t, root, r, b + 8) ==> |rest| < |r| - b
  {}

  lemma LiteralMade(tb: Tables, wsize: nat, c: Byte, r: bits, t: seq<Byte>)
    ensures Finish(tb, wsize, Literal(c, r), t) == Finish(tb, wsize, AtLen(tb, r), t + [c])
  {}

  /** Whole bytes held and not used go back to the input. */
  method GiveBack(s: Inflate, ghost src: bits, ghost bits0: nat, ghost next0: nat, ghost input: seq<Byte>, ghost used: nat)
    requires s.Held() && s.input == input && next0 <= s.next && used <= |src| && s.Rest() == src[used..]
    requires next0 <= |input| && |src| == bits0 + 8 * (|input| - next0) && src[bits0..] == Stream(input[next0..])
    requires bits0 < 8 || used >= bits0
    modifies s`hold, s`bits, s`next
    ensures s.Held() && s.bits < 8 && s.Rest() == old(s.Rest())
  {
    hide Extra, Stream, Pow2, LowBits;
    var len := s.bits / 8;
    var keep := s.bits - 8 * len;
    ghost var k: int := s.next - len;
    assert |s.Rest()| == |src| - used;
    assert used + keep == bits0 + 8 * (k - next0);
    assert k >= next0;
    StreamAt(input, next0, k);
    Looked(s.hold, s.bits, keep);
    assert src[used + keep..] == Stream(input[k..]);
    assert s.Rest()[keep..] == src[used + keep..];
    assert s.Rest()[..keep] == Extra(s.hold, s.bits)[..keep];
    ghost var r := s.Rest();
    assert r == r[..keep] + r[keep..];
    s.next := s.next - len;
    s.bits := keep;
    s.hold := LowBits(s.hold, keep);
  }

  lemma StreamAt(input: seq<Byte>, i: nat, k: nat)
    requires i <= k <= |input|
    ensures Stream(input[i..])[8 * (k - i)..] == Stream(input[k..])
  {
    StreamFrom(input[i..], k - i);
    assert input[i..][k - i..] == input[k..];
  }

  /** Elements until an end of block, an error, or too little input or room for one more. */
  method FastElements(s: Inflate, ghost future: bits)
    requires Ready(s) && s.mode == LEN && Ample(s) && (s.bits < 8 || Wanting(s.tb.lencode, s.tb.lenbits, s.hold, s.bits))
    modifies s.output, s`put, s`hold, s`bits, s`next, s`mode
    ensures Ready(s) && s.output == old(s.output) && s.next >= old(s.next)
    ensures s.mode == LEN || s.mode == TYPE || s.mode == BAD
    ensures Keeps(s.Lost(), old(s.Meaning(future)), s.Meaning(future))
    ensures Tail(old(s.Rest()), s.Rest()) && |s.Rest()| < |old(s.Rest())| && (old(s.bits) < 8 || |old(s.Rest())| - |s.Rest()| > old(s.bits))
  {
    hide Ready, Wanting, Keeps, Inflate.Meaning, Inflate.Rest, Inflate.Lost;
    ReadyBounds(s);
    FastElement(s, future);
    ReadyBounds(s);
    while s.mode == LEN && Ample(s)
      invariant Ready(s) && s.output == old(s.output) && old(s.next) <= s.next <= |s.input| && s.put <= s.output.Length
      invariant s.mode == LEN || s.mode == TYPE || s.mode == BAD
      invariant Keeps(s.Lost(), old(s.Meaning(future)), s.Meaning(future))
      invariant Tail(old(s.Rest()), s.Rest()) && |s.Rest()| < |old(s.Rest())|
      invariant old(s.bits) < 8 || |old(s.Rest())| - |s.Rest()| > old(s.bits)
      decreases |s.Rest()|
    {
      ghost var r, was := s.Rest(), s.Meaning(future);
      FastElement(s, future);
      ReadyBounds(s);
      TailTwice(old(s.Rest()), r, s.Rest());
      KeepsTwice(s.Lost(), old(s.Meaning(future)), was, s.Meaning(future));
    }
  }

  lemma ReadyBounds(s: Inflate)
    requires Ready(s)
    ensures s.next <= |s.input| && s.put <= s.output.Length
  {}

  /** Decode until an end of block, an error, or too little input or room for one more element. */
  method InflateFast(s: Inflate, ghost future: bits)
    requires s.Valid() && s.mode == LEN && Ample(s)
    modifies s.output, s`put, s`hold, s`bits, s`next, s`mode
    ensures s.Valid() && s.bits < 8 && s.output == old(s.output)
    ensures s.mode == LEN || s.mode == TYPE || s.mode == BAD
    ensures Keeps(s.Lost(), old(s.Meaning(future)), s.Meaning(future))
    ensures Answer(s.Lost(), s.Meaning(future)) == old(Answer(s.Lost(), s.Meaning(future)))
    ensures |s.Rest()| < |old(s.Rest())|
  {
    hide Extra, Stream, Pow2, Usable, Finish, Mirror, Pending, LowBits, Lookup, Answer, Keeps, Wanting, Inflate.Lost;
    ghost var src, bits0, next0 := s.Rest(), s.bits, s.next;
    StartHeld(s);
    FastElements(s, future);
    KeepsAnswer(s.Lost(), old(s.Meaning(future)), s.Meaning(future));
    GiveBack(s, src, bits0, next0, s.input, |src| - |s.Rest()|);
  }

  lemma StartHeld(s: Inflate)
    requires s.Valid() && s.mode == LEN
    ensures s.bits <= 30 && (s.bits < 8 || Wanting(s.tb.lencode, s.tb.lenbits, s.hold, s.bits))
    ensures s.Rest()[s.bits..] == Stream(s.input[s.next..])
  {
    hide Lookup, Extra, Stream, Usable, Pow2;
    UsableTables(s.tb);
    HeldSettled(s.tb.lencode, s.tb.lenbits, s.hold);
  }
}
