/** Calls of inflate within a block: any input, any room, the window carrying the output over. */
module InflateRun {
  import opened Rotations
  import opened Words
  import opened Bits
  import opened InflateBits
  import opened TableLayout
  import opened InflateElements
  import opened Outcomes
  import opened InflateState
  import opened InflateBlocks
  import opened InflateViews
  import opened InflateHeaders
  import opened DeflateFormat
  import opened Inffast
  import opened HistoryWindow
  import opened Lz77

  /** The call cannot go on: the stream has ended or is invalid, the input is used up, or the output is full. */
  ghost predicate Stopped(s: Inflate)
    reads s, s.lens, s.output
  {
    || s.mode == CHECK || s.mode == BAD || Starved(s)
    || ((s.mode == MATCH || s.mode == LIT || s.mode == COPY) && s.put == s.output.Length)
  }

  function Rank(mode: Mode): nat {
    match mode
    case LENLENS => 9
    case CODELENS => 8
    case COPY => 7
    case LENEXT => 6
    case DIST => 5
    case DISTEXT => 4
    case MATCH => 3
    case LIT => 2
    case CHECK => 0
    case BAD => 0
    case _ => 1
  }

  lemma DataPend(s: Inflate, future: bits)
    requires s.next <= |s.input| && s.put <= s.output.Length && (InBlock(s.mode) || s.mode == TYPE || s.mode == BAD)
    ensures Pend(See(s, future)) == s.Meaning(future)
  {
    hide Finish, Pending, Inflate.Rest, Inflate.Total;
  }

  /** Data modes preserve the outcome of the stream when they preserve that of the block. */
  lemma DataWhole(s: Inflate, future: bits, was: Outcome)
    requires s.next <= |s.input| && s.put <= s.output.Length && (InBlock(s.mode) || s.mode == TYPE || s.mode == BAD)
    requires Keeps(s.Lost(), was, s.Meaning(future))
    ensures Keeps(s.Lost(), Onward(s.window.Length, s.last, was), Whole(See(s, future)))
  {
    hide Onward, Pend, Keeps, Inflate.Rest, Inflate.Total, Inflate.Meaning;
    DataPend(s, future);
    KeepsOnward(s.window.Length, s.last, s.Lost(), was, Pend(See(s, future)));
  }

  lemma DataStarved(s: Inflate)
    requires s.next == |s.input| && s.put <= s.output.Length && InBlock(s.mode) && s.Current([]) == Short
    ensures Starved(s)
  {
    hide Pending, Inflate.Rest, Inflate.Total, Pend;
    DataPend(s, []);
  }

  /** The fast loop if there is enough input and room, or one code. */
  method LenMode(s: Inflate, ghost future: bits) returns (ok: bool)
    requires s.Valid() && s.mode == LEN
    modifies s.output, s`put, s`hold, s`bits, s`next, s`mode, s`length, s`extra
    ensures s.Valid() && s.output == old(s.output) && (InBlock(s.mode) || s.mode == TYPE || s.mode == BAD)
    ensures Keeps(s.Lost(), old(s.Meaning(future)), s.Meaning(future))
    ensures |s.Rest()| <= |old(s.Rest())|
    ensures if ok then |s.Rest()| < |old(s.Rest())| else s.mode == LEN && s.next == |s.input| && s.Current([]) == Short
  {
    hide Finish, Pending, Usable, Pow2, Mirror, ModeFields, Inflate.Rest, Inflate.Total, Lean, Inflate.Windowed, Answer;
    if Ample(s) {
      InflateFast(s, future);
      ok := true;
    } else {
      ok := s.Len(future);
    }
  }

  /** One turn of a mode that decodes data. */
  method DataMode(s: Inflate, ghost future: bits) returns (ok: bool)
    requires s.Valid() && InBlock(s.mode)
    modifies s.output, s`put, s`hold, s`bits, s`next, s`mode, s`length, s`offset, s`extra
    ensures s.Valid() && s.output == old(s.output) && (InBlock(s.mode) || s.mode == TYPE || s.mode == BAD)
    ensures Keeps(s.Lost(), old(s.Meaning(future)), s.Meaning(future))
    ensures |s.Rest()| <= |old(s.Rest())|
    ensures if ok then
              || |s.Rest()| < |old(s.Rest())|
              || Rank(s.mode) < Rank(old(s.mode))
              || (s.mode == old(s.mode) && s.put > old(s.put))
            else InBlock(s.mode) && ((s.next == |s.input| && s.Current([]) == Short)
                                     || ((s.mode == MATCH || s.mode == LIT) && s.put == s.output.Length))
  {
    hide Finish, Pending, Usable, Wanting, Lookup, Extra, Stream, Pow2, Mirror, ModeFields, Inflate.Rest, Inflate.Total, Lean, Inflate.Windowed;
    match s.mode
    case LEN => ok := LenMode(s, future);
    case LENEXT => ok := s.LenExt(future);
    case DIST => ok := s.Dist(future);
    case DISTEXT => ok := s.DistExt(future);
    case MATCH => ok := s.MatchPiece(future);
    case LIT => ok := s.Lit(future);
  }

  lemma DataConsistent(s: Inflate)
    requires s.Valid() && Apart(s) && (InBlock(s.mode) || s.mode == TYPE || s.mode == BAD)
    ensures Consistent(s)
  {
    hide Inflate.Valid;
    SimplePrepared(s);
  }

  lemma ConsistentData(s: Inflate)
    requires Consistent(s)
    ensures s.Valid() && Apart(s) && s.next <= |s.input| && s.put <= s.output.Length
  {}

  method DataTurn(s: Inflate, ghost future: bits) returns (ok: bool)
    requires Consistent(s) && InBlock(s.mode)
    modifies s.output, s`put, s`hold, s`bits, s`next, s`mode, s`length, s`offset, s`extra
    ensures Consistent(s)
    ensures Keeps(s.Lost(), old(Whole(See(s, future))), Whole(See(s, future)))
    ensures |s.Rest()| <= |old(s.Rest())|
    ensures if ok then
              || |s.Rest()| < |old(s.Rest())|
              || Rank(s.mode) < Rank(old(s.mode))
              || (s.mode == old(s.mode) && s.put > old(s.put))
            else Stopped(s)
  {
    hide Inflate.Rest, Inflate.Total, Inflate.Meaning, Inflate.Current, Inflate.Valid, Consistent, Whole, Pend, Onward, Apart, See, Starved;
    ConsistentData(s);
    ghost var was := s.Meaning(future);
    WholeIs(s, future);
    ok := DataMode(s, future);
    ValidBounds(s);
    DataWhole(s, future, was);
    DataConsistent(s);
    if !ok && !((s.mode == MATCH || s.mode == LIT) && s.put == s.output.Length) { DataStarved(s); }
  }

  lemma WholeIs(s: Inflate, future: bits)
    requires s.next <= |s.input| && s.put <= s.output.Length && InBlock(s.mode)
    ensures Whole(See(s, future)) == Onward(s.window.Length, s.last, s.Meaning(future))
  {
    hide Onward, Pend, Inflate.Rest, Inflate.Total, Inflate.Meaning;
    DataPend(s, future);
  }

  lemma ValidBounds(s: Inflate)
    requires s.Valid()
    ensures s.next <= |s.input| && s.put <= s.output.Length
  {}

  /** One turn of a mode between or before the data. */
  method HeadTurn(s: Inflate, ghost future: bits) returns (ok: bool)
    requires Consistent(s) && !InBlock(s.mode) && s.mode != CHECK && s.mode != BAD && Aligned(future)
    modifies s.output, s`put, s`hold, s`bits, s`next, s`mode, s`length, s`last, s`nlen, s`ndist, s`ncode, s`have, s`tb, s.lens, s.work, s.codes
    ensures Consistent(s)
    ensures Whole(See(s, future)) == old(Whole(See(s, future)))
    ensures |s.Rest()| <= |old(s.Rest())|
    ensures if ok then |s.Rest()| < |old(s.Rest())| || Rank(s.mode) < Rank(old(s.mode)) else Stopped(s)
  {
    hide Inflate.Rest, Inflate.Total, Inflate.Valid, Consistent, Whole, See, Starved;
    ConsistentData(s);
    match s.mode
    case TYPE => ok := TypeDo(s, future);
    case STORED => ok := StoredBlock(s, future);
    case COPY => ok := CopyBlock(s, future);
    case TABLE => ok := TableBlock(s, future);
    case LENLENS => ok := LenLens(s, future);
    case CODELENS => ok := CodeLens(s, future);
  }

  /** One turn of the mode switch. */
  method Turn(s: Inflate, ghost future: bits) returns (ok: bool)
    requires Consistent(s) && s.mode != CHECK && s.mode != BAD && Aligned(future)
    modifies s.output, s`put, s`hold, s`bits, s`next, s`mode, s`length, s`offset, s`extra, s`last, s`nlen, s`ndist, s`ncode, s`have, s`tb,
             s.lens, s.work, s.codes
    ensures Consistent(s)
    ensures Keeps(s.Lost(), old(Whole(See(s, future))), Whole(See(s, future)))
    ensures |s.Rest()| <= |old(s.Rest())|
    ensures if ok then
              || |s.Rest()| < |old(s.Rest())|
              || Rank(s.mode) < Rank(old(s.mode))
              || (s.mode == old(s.mode) && s.put > old(s.put))
            else Stopped(s)
  {
    hide Inflate.Rest, Inflate.Total, Inflate.Valid, Consistent, Whole, See, Starved;
    ConsistentData(s);
    if InBlock(s.mode) {
      ok := DataTurn(s, future);
    } else {
      ok := HeadTurn(s, future);
    }
  }

  /** Decode until the call cannot go on. */
  method Decode(s: Inflate, ghost future: bits)
    requires Consistent(s) && Aligned(future)
    modifies s.output, s`put, s`hold, s`bits, s`next, s`mode, s`length, s`offset, s`extra, s`last, s`nlen, s`ndist, s`ncode, s`have, s`tb,
             s.lens, s.work, s.codes
    ensures Consistent(s) && Stopped(s)
    ensures Keeps(s.Lost(), old(Whole(See(s, future))), Whole(See(s, future)))
  {
    hide Inflate.Rest, Inflate.Total, Inflate.Valid, Consistent, Whole, See, Starved;
    ConsistentData(s);
    while s.mode != CHECK && s.mode != BAD
      invariant Consistent(s) && s.next <= |s.input| && s.put <= s.output.Length
      invariant Keeps(s.Lost(), old(Whole(See(s, future))), Whole(See(s, future)))
      decreases |s.Rest()|, Rank(s.mode), s.output.Length - s.put
    {
      ghost var was := Whole(See(s, future));
      var ok := Turn(s, future);
      ConsistentData(s);
      KeepsTwice(s.Lost(), old(Whole(See(s, future))), was, Whole(See(s, future)));
      if !ok { return; }
    }
  }

  /** The window mirrors all output so far, that of this call included. */
  ghost predicate Carried(s: Inflate)
    requires s.put <= s.output.Length
    reads s, s.window, s.output
  {
    (s.wsize == 0 || s.wsize == s.window.Length) && s.window.Length > 0
    && Mirror(s.window[..], s.wsize, s.whave, s.wnext, s.Total())
  }

  /** As much output as the window holds, or more. */
  method UpdateAll(s: Inflate)
    requires s.Room() && s.Windowed() && s.put >= s.wsize > 0
    modifies s.window, s`whave, s`wnext
    ensures Carried(s)
  {
    hide Mirror, Spliced;
    ghost var w := s.window[..];
    Bounds(w, s.wsize, s.whave, s.wnext, s.history);
    Memcpy(s.window, 0, s.output, s.put - s.wsize, s.wsize);
    WholeWindow(w, s.window[..], s.wsize, s.output[..], s.put);
    Replaced(s.window[..], s.wsize, s.history, s.output[..s.put]);
    s.wnext := 0;
    s.whave := s.wsize;
  }

  /** Output that reaches the end of the window and goes on at its start. */
  method UpdateAround(s: Inflate, dist: nat)
    requires s.Room() && s.Windowed() && s.wnext + dist == s.wsize && dist < s.put < s.wsize
    modifies s.window, s`whave, s`wnext
    ensures Carried(s)
  {
    hide Mirror, Spliced;
    ghost var w := s.window[..];
    Bounds(w, s.wsize, s.whave, s.wnext, s.history);
    Memcpy(s.window, s.wnext, s.output, 0, dist);
    ghost var half := s.window[..];
    var copy := s.put - dist;
    Memcpy(s.window, 0, s.output, s.put - copy, copy);
    TwoParts(w, half, s.window[..], s.wsize, s.wnext, s.output[..], s.put, dist);
    Wrapped(w, s.window[..], s.wsize, s.whave, s.wnext, s.history, s.output[..s.put], dist);
    s.wnext := copy;
    s.whave := s.wsize;
  }

  /** Output that fits before the end of the window. */
  method UpdateWithin(s: Inflate)
    requires s.Room() && s.Windowed() && s.wnext + s.put <= s.wsize && s.put < s.wsize
    modifies s.window, s`whave, s`wnext
    ensures Carried(s)
  {
    hide Mirror, Spliced;
    ghost var w := s.window[..];
    Bounds(w, s.wsize, s.whave, s.wnext, s.history);
    Memcpy(s.window, s.wnext, s.output, 0, s.put);
    OnePart(w, s.window[..], s.wnext, s.output[..], s.put);
    Added(w, s.window[..], s.wsize, s.whave, s.wnext, s.history, s.output[..s.put]);
    s.wnext := s.wnext + s.put;
    if s.wnext == s.wsize { s.wnext := 0; }
    if s.whave < s.wsize { s.whave := s.whave + s.put; }
  }

  /** Copy the last bytes written in this call into the window. */
  method UpdateWindow(s: Inflate)
    requires s.Room() && s.Windowed()
    modifies s.window, s`wsize, s`whave, s`wnext
    ensures Carried(s) && s.wsize == s.window.Length
  {
    hide Mirror;
    if s.wsize == 0 {
      FreshWindow(s.window[..], s.whave, s.wnext, s.history);
      s.wsize, s.wnext, s.whave := s.window.Length, 0, 0;
    }
    Bounds(s.window[..], s.wsize, s.whave, s.wnext, s.history);
    if s.put >= s.wsize {
      UpdateAll(s);
    } else {
      var dist := s.wsize - s.wnext;
      if dist < s.put { UpdateAround(s, dist); } else { UpdateWithin(s); }
    }
  }

  lemma FreshWindow(window: seq<Byte>, whave: nat, wnext: nat, history: seq<Byte>)
    requires Mirror(window, 0, whave, wnext, history) && |window| > 0
    ensures Mirror(window, |window|, 0, 0, history)
  {}

  lemma Bounds(window: seq<Byte>, wsize: nat, whave: nat, wnext: nat, history: seq<Byte>)
    requires Mirror(window, wsize, whave, wnext, history) && wsize > 0
    ensures wnext < wsize <= |window|
  {}

  lemma WholeWindow(w: seq<Byte>, window: seq<Byte>, wsize: nat, output: seq<Byte>, put: nat)
    requires wsize <= put <= |output| && wsize <= |w| && window == Spliced(w, 0, output, put - wsize, wsize)
    ensures window[..wsize] == output[..put][put - wsize..]
  {}

  lemma OnePart(w: seq<Byte>, window: seq<Byte>, wnext: nat, output: seq<Byte>, put: nat)
    requires put <= |output| && wnext + put <= |w| && window == Spliced(w, wnext, output, 0, put)
    ensures window == w[..wnext] + output[..put] + w[wnext + |output[..put]|..]
  {}

  lemma TwoParts(w: seq<Byte>, half: seq<Byte>, window: seq<Byte>, wsize: nat, wnext: nat, output: seq<Byte>, put: nat, k: nat)
    requires k < put <= |output| && put < wsize == wnext + k <= |w|
    requires half == Spliced(w, wnext, output, 0, k) && window == Spliced(half, 0, output, k, put - k)
    ensures var out := output[..put];
            window == out[k..] + w[|out| - k..wnext] + out[..k] + w[wsize..]
  {}

  /** The end of a call: keep the window when it is in use or there is output that may still be copied from. */
  method Leave(s: Inflate, finish: bool)
    requires s.Valid()
    modifies s.window, s`wsize, s`whave, s`wnext
    ensures s.Room() && (NeedsWindow(s.mode) || s.wsize > 0 ==> Carried(s))
  {
    hide Mirror, Finish, Pending, Usable, Lookup, Extra, Stream, Pow2, ModeFields;
    if s.wsize > 0 || (s.put > 0 && s.mode != BAD && (s.mode != CHECK || !finish)) {
      UpdateWindow(s);
    } else if NeedsWindow(s.mode) {
      assert s.Total() == s.history;
    }
  }

  /** The state between calls. */
  ghost predicate Between(s: Inflate)
    reads s, s.window, s.output, s.lens
  {
    && s.Held() && Lean(s.tb, s.mode, s.hold, s.bits, s.extra) && s.Room() && (InBlock(s.mode) ==> Usable(s.tb))
    && ModeFields(s.mode, s.length, s.offset, s.extra) && (NeedsWindow(s.mode) || s.wsize > 0 ==> Carried(s))
    && Apart(s) && Prepared(s) && Trim(s)
  }

  /** Not one of the decoder's own arrays. */
  ghost predicate Foreign(s: Inflate, out: array<Byte>) {
    var mine: set<object> := {s.window, s.lens, s.work, s.codes};
    out !in mine
  }

  /** The caller provides more input after what was left, and new room for output. */
  method Provide(s: Inflate, more: seq<Byte>, out: array<Byte>, ghost future: bits)
    requires Between(s) && Foreign(s, out)
    modifies s`input, s`next, s`output, s`put, s`history
    ensures Consistent(s) && s.output == out && s.put == 0 && s.Lost() == old(|s.Total()| - s.whave)
    ensures Whole(See(s, future)) == old(Whole(See(s, Stream(more) + future)))
  {
    hide Mirror, Whole, Prepared, Usable, Lookup, Extra, Stream, Pow2, ModeFields, Lean, Received;
    ghost var left, t := s.input[s.next..], s.Total();
    StreamConcat(left, more);
    s.input := s.input[s.next..] + more;
    s.next := 0;
    s.history := t;
    s.output := out;
    s.put := 0;
    assert s.input[0..] == left + more;
    assert s.Rest() + future == old(s.Rest()) + (Stream(more) + future);
    assert out[..0] == [] && s.Total() == t;
  }

  lemma BetweenBounds(s: Inflate)
    requires Between(s)
    ensures s.next <= |s.input| && s.put <= s.output.Length && Apart(s) && Prepared(s) && Trim(s)
  {}

  lemma BetweenAgain(s: Inflate)
    requires s.Held() && Lean(s.tb, s.mode, s.hold, s.bits, s.extra) && s.Room() && (InBlock(s.mode) ==> Usable(s.tb))
    requires ModeFields(s.mode, s.length, s.offset, s.extra) && (NeedsWindow(s.mode) || s.wsize > 0 ==> Carried(s))
    requires Apart(s) && Prepared(s) && Trim(s)
    ensures Between(s)
  {}

  lemma ConsistentParts(s: Inflate)
    requires Consistent(s)
    ensures s.Held() && Lean(s.tb, s.mode, s.hold, s.bits, s.extra) && s.Room() && (InBlock(s.mode) ==> Usable(s.tb))
    ensures ModeFields(s.mode, s.length, s.offset, s.extra) && Apart(s) && Prepared(s) && Trim(s) && s.Valid()
  {}

  /** Leaving changes nothing but the window. */
  method LeaveCall(s: Inflate, finish: bool, ghost future: bits)
    requires Consistent(s) && Stopped(s)
    modifies s.window, s`wsize, s`whave, s`wnext
    ensures Between(s) && Stopped(s)
    ensures Whole(See(s, future)) == old(Whole(See(s, future)))
  {
    hide Inflate.Rest, Inflate.Total, Inflate.Valid, Consistent, Whole, Prepared, Lean, Usable, ModeFields, Received, Inflate.Held, Between, Carried;
    hide Inflate.Room, Apart, Trim;
    ConsistentParts(s);
    ConsistentData(s);
    Leave(s, finish);
    BetweenAgain(s);
  }

  /** A call reaches back over as much of the output of earlier calls as the window can hold. */
  lemma Reach(s: Inflate, future: bits)
    requires Between(s) && s.put <= s.output.Length && s.next <= |s.input|
    ensures Whole(See(s, future)).Far? ==> |s.Total()| - s.whave == Behind(|s.Total()|, s.window.Length)
  {
    hide Pend, ReadBlocks, Usable, Prepared, Inflate.Total, Inflate.Rest, ModeFields, Lean, Apart;
    var v := See(s, future);
    if s.mode == BAD {
      WholeBad(v);
    } else if s.mode == CHECK {
      WholeType(v);
      LastRead(v.wsize, v.rest, v.total);
    } else {
      MirrorSize(s.window[..], s.wsize, s.whave, s.wnext, s.Total());
    }
  }

  lemma KeepsSame(lost: int, more: int, a: Outcome, b: Outcome)
    requires Keeps(lost, a, b) && (a.Far? ==> lost == more)
    ensures Keeps(more, a, b)
  {}

  /** A call of inflate. */
  method Call(s: Inflate, more: seq<Byte>, out: array<Byte>, finish: bool, ghost future: bits)
    requires Between(s) && Foreign(s, out) && Aligned(future)
    modifies s, s.window, s.lens, s.work, s.codes, out
    ensures Between(s) && Stopped(s) && s.output == out
    ensures Keeps(Behind(old(|s.Total()|), s.window.Length), old(Whole(See(s, Stream(more) + future))), Whole(See(s, future)))
  {
    hide Keeps, Carried, Inflate.Room, Apart, Trim, Behind, Consistent, Inflate.Rest, Inflate.Total, Inflate.Valid, Consistent, Whole, Starved, Prepared, Lean, Usable, ModeFields, Received, Inflate.Held, Stream, Between, See, Stopped;
    BetweenBounds(s);
    Reach(s, Stream(more) + future);
    ghost var lost, n, was := |s.Total()| - s.whave, |s.Total()|, Whole(See(s, Stream(more) + future));
    Provide(s, more, out, future);
    Decode(s, future);
    LeaveCall(s, finish, future);
    BetweenBounds(s);
    KeepsSame(lost, Behind(n, s.window.Length), was, Whole(See(s, future)));
  }

  function Concat(parts: seq<seq<Byte>>): seq<Byte> {
    if parts == [] then [] else Concat(parts[..|parts| - 1]) + parts[|parts| - 1]
  }

  lemma ConcatNext(parts: seq<seq<Byte>>, i: nat)
    requires i < |parts|
    ensures Concat(parts[..i + 1]) == Concat(parts[..i]) + parts[i]
  {
    assert parts[..i + 1][..i] == parts[..i];
  }

  /** What is yet to come of the parts from the i-th on. */
  function Later(parts: seq<seq<Byte>>, i: nat): (r: bits)
    requires i <= |parts|
    ensures |r| % 8 == 0
    decreases |parts| - i
  {
    if i == |parts| then [] else Stream(parts[i]) + Later(parts, i + 1)
  }

  lemma {:induction false} LaterAll(parts: seq<seq<Byte>>, i: nat)
    requires i <= |parts|
    ensures Stream(Concat(parts)) == Stream(Concat(parts[..i])) + Later(parts, i)
    decreases |parts| - i
  {
    hide Stream, Concat;
    if i == |parts| {
      assert parts[..i] == parts;
    } else {
      LaterAll(parts, i + 1);
      ConcatNext(parts, i);
      StreamConcat(Concat(parts[..i]), parts[i]);
    }
  }

  lemma LaterNone(parts: seq<seq<Byte>>)
    ensures Later(parts, |parts|) == [] && Stream(Concat(parts)) == Later(parts, 0)
  {
    LaterAll(parts, 0);
    assert parts[..0] == [];
  }

  lemma LaterNext(parts: seq<seq<Byte>>, i: nat)
    requires i < |parts|
    ensures Later(parts, i) == Stream(parts[i]) + Later(parts, i + 1) && Aligned(Later(parts, i + 1))
  {}

  lemma FreshForeign(s: Inflate, out: array<Byte>)
    requires (s.window as object) != out && (s.lens as object) != out && (s.work as object) != out && (s.codes as object) != out
    ensures Foreign(s, out)
  {}

  /** A run of calls, the input arriving in any parts and the output leaving in any portions. */
  method Calls(s: Inflate, parts: seq<seq<Byte>>, rooms: seq<nat>)
    requires Between(s) && |rooms| == |parts|
    modifies s, s.window, s.output, s.lens, s.work, s.codes
    ensures Between(s) && s.next <= |s.input| && s.put <= s.output.Length && (|parts| > 0 ==> Stopped(s))
    ensures Leads(old(Whole(See(s, Stream(Concat(parts))))), Whole(See(s, [])))
  {
    hide Between, Whole, See, Stream, Later, Stopped, Concat, Foreign;
    BetweenBounds(s);
    LaterNone(parts);
    for i := 0 to |parts|
      invariant Between(s) && (s.output == old(s.output) || fresh(s.output))
      invariant s.next <= |s.input| && s.put <= s.output.Length && (i > 0 ==> Stopped(s))
      invariant Leads(old(Whole(See(s, Stream(Concat(parts))))), Whole(See(s, Later(parts, i))))
    {
      var out := new Byte[rooms[i]];
      LaterNext(parts, i);
      FreshForeign(s, out);
      ghost var lost, was := Behind(|s.Total()|, s.window.Length), Whole(See(s, Later(parts, i)));
      Call(s, parts[i], out, i + 1 == |parts|, Later(parts, i + 1));
      BetweenBounds(s);
      KeepsLeads(lost, was, Whole(See(s, Later(parts, i + 1))));
      LeadsTwice(old(Whole(See(s, Stream(Concat(parts))))), was, Whole(See(s, Later(parts, i + 1))));
    }
  }

  // ----- what a run of calls delivers -----

  /** The output is always the start of what the stream holds, and at its end all of it. A stream is refused with the output
      up to its error, or at a copy from further back than the window. */
  lemma Delivered(s: Inflate, u: View, future: bits)
    requires s.next <= |s.input| && s.put <= s.output.Length && Trim(s) && Leads(Whole(u), Whole(See(s, future)))
    ensures s.Total() <= Last(Whole(u)).out
    ensures s.mode == CHECK ==> Last(Whole(u)) == Done(s.Total(), FromByte(s.Rest() + future))
    ensures s.mode == BAD ==> Last(Whole(u)) == Invalid(s.Total()) || RefusedAt(Whole(u), s.Total())
    ensures future == [] && Starved(s) ==> Last(Whole(u)) == Cut(s.Total())
    ensures future == [] && Stopped(s) && s.put < s.output.Length ==> s.mode == CHECK || s.mode == BAD || Starved(s)
  {
    hide Pend, See, Inflate.Rest, Inflate.Total, ReadBlocks, Onward, Whole;
    SeeParts(s, future);
    var v := See(s, future);
    if v.mode == BAD { WholeBad(v); }
    if v.mode == CHECK {
      WholeType(v);
      LastRead(v.wsize, v.rest, v.total);
    }
    WholeGrows(u);
    WholeGrows(v);
    GrowsLast(v.total, Whole(v));
    LeadsWithin(u.total, Whole(u), Whole(v));
  }

  /** A fresh decoder, whatever it is fed and however: what it puts out is what the format makes of the bits. */
  method InflateAll(wbits: nat, parts: seq<seq<Byte>>, rooms: seq<nat>) returns (s: Inflate, ghost o: Outcome)
    requires |rooms| == |parts| > 0
    ensures o == ReadBlocks(Pow2(wbits), false, Stream(Concat(parts)), [])
    ensures s.next <= |s.input| && s.put <= s.output.Length && s.Total() <= Last(o).out
    ensures s.mode == CHECK ==> Last(o) == Done(s.Total(), FromByte(s.Rest()))
    ensures s.mode == BAD ==> Last(o) == Invalid(s.Total()) || RefusedAt(o, s.Total())
    ensures s.put < s.output.Length && s.mode != CHECK && s.mode != BAD ==> s.next == |s.input| && Last(o) == Cut(s.Total())
  {
    hide Whole, See, Stream, ReadBlocks, Between, Concat, FromByte, Stopped, Leads;
    var out := new Byte[0];
    s := new Inflate(wbits, out);
    StartWhole(s, Stream(Concat(parts)));
    ghost var u := See(s, Stream(Concat(parts)));
    o := Whole(u);
    Calls(s, parts, rooms);
    BetweenBounds(s);
    Delivered(s, u, []);
    assert s.Rest() + [] == s.Rest();
  }

  lemma SeeParts(s: Inflate, future: bits)
    requires s.next <= |s.input| && s.put <= s.output.Length
    ensures See(s, future).mode == s.mode && See(s, future).last == s.last && See(s, future).total == s.Total() && See(s, future).rest == s.Rest() + future
  {}

  /** A compressor's tokens in blocks of any types, fed to a fresh decoder in any parts, come out as the data. */
  method RoundTrip(blocks: seq<Part>, wbits: nat, ghost maxDist: nat, data: seq<Byte>, parts: seq<seq<Byte>>, rooms: seq<nat>, ghost rest: bits)
    returns (s: Inflate)
    requires blocks != [] && (forall k :: 0 <= k < |blocks| ==> Writable(blocks[k]))
    requires Covers(AllTokens(blocks), maxDist, data, |data|) && maxDist <= Pow2(wbits)
    requires |rooms| == |parts| > 0 && Stream(Concat(parts)) == StreamBits(blocks, 0) + rest
    ensures s.next <= |s.input| && s.put <= s.output.Length && s.mode != BAD && s.Total() <= data
    ensures s.mode == CHECK ==> s.Total() == data && FromByte(s.Rest()) == FromByte(rest)
    ensures s.put < s.output.Length ==> s.mode == CHECK
  {
    hide Stream, StreamBits, Writable, Covers, ReadBlocks, Concat, FromByte;
    EndsWhole(Concat(parts), StreamBits(blocks, 0), rest);
    CoversFarther(AllTokens(blocks), maxDist, Pow2(wbits), data, |data|);
    StreamReads(blocks, Pow2(wbits), data, rest);
    ghost var o;
    s, o := InflateAll(wbits, parts, rooms);
  }

  lemma EndsWhole(input: seq<Byte>, all: bits, rest: bits)
    requires Stream(input) == all + rest
    ensures Ends(0, all, rest)
  {
    hide Stream;
    assert |all| + |rest| == 8 * |input|;
  }

  lemma StartWhole(s: Inflate, future: bits)
    requires s.Valid() && s.mode == TYPE && !s.last && s.history == [] && s.put == 0 && s.Rest() == [] && s.wsize == 0 && Apart(s)
    ensures Between(s) && Whole(See(s, future)) == ReadBlocks(s.window.Length, false, future, [])
  {
    hide ReadBlocks, Usable, Mirror, Finish, Pending;
    assert [] + future == future && s.output[..0] == [];
    assert s.Total() == s.history;
    SimplePrepared(s);
    WholeType(See(s, future));
  }
}
