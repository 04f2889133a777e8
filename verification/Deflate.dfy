/** The match finders of the compressor: whatever the input and however it is split into calls, the tokens
    recorded expand to exactly the input coded so far, and each is the one its strategy prescribes. */
module Deflate {
  import opened Rotations
  import opened Lz77
  import opened HashChains
  import opened DeflateWindow
  import opened MatchChoice

  datatype Flush = NoFlush | SomeFlush | FullFlush | Finish
  datatype BlockState = NeedMore | BlockDone | FinishStarted | FinishDone

  /** How a call ends when there is room for all output. */
  function Ending(flush: Flush): BlockState {
    match flush case NoFlush => NeedMore case Finish => FinishDone case _ => BlockDone
  }

  /** Every match repeats the byte before it. */
  predicate RunsOnly(tokens: seq<Token>) {
    forall k :: 0 <= k < |tokens| ==> tokens[k].Match? ==> tokens[k].dist == 1
  }

  class DeflateState {
    const w: Window
    const goodMatch: nat
    const maxLazyMatch: nat
    const niceMatch: nat
    const maxChainLength: nat
    const filtered: bool
    const litBufsize: nat
    var matchLength: nat
    var prevLength: nat
    var prevMatch: int
    var matchAvailable: bool
    var lastLit: nat
    var tokens: seq<Token>
    /** FINISH_STATE: the last block has been started. */
    var finishing: bool
    /** The looks behind the tokens, and the one whose token is not yet decided. */
    ghost var picks: seq<Pick>
    ghost var waiting: Look
    /** How often the history has been forgotten. */
    ghost var era: nat
    /** Where the input stood at each flush. */
    ghost var edges: set<nat>

    /** A new stream at a level given by its search limits. */
    constructor (wSize: nat, hashBits: nat, good: nat, lazy: nat, nice: nat, chain: nat, filtered: bool, litBufsize: nat)
      requires 512 <= wSize <= 32768 && HashSizes(hashBits) && chain >= 4 && litBufsize >= 2
      ensures Fast() && Slow() && Rle() && w.data == [] && w.nextIn == [] && tokens == [] && !finishing
      ensures picks == [] && era == 0 && edges == {}
      ensures Lims() == Limits(w.MaxDist(), hashBits, good, lazy, nice, chain, filtered)
      ensures fresh(w) && fresh(w.window) && fresh(w.head) && fresh(w.prev) && w.wSize == wSize
    {
      w := new Window(wSize, hashBits);
      goodMatch, maxLazyMatch, niceMatch, maxChainLength := good, lazy, nice, chain;
      this.filtered, this.litBufsize := filtered, litBufsize;
      matchLength, prevLength, prevMatch, matchAvailable, lastLit, tokens := MIN_MATCH - 1, MIN_MATCH - 1, 0, false, 0, [];
      finishing, picks, waiting, era, edges := false, [], Look(0, 0, 0, 0, {}, 0, 0, 0), 0, {};
      new;
      w.ValidFacts();
    }

    /** Stream position of the next byte to look at. */
    ghost function Pos(): nat
      reads w`base, w`strstart
    {
      w.base + w.strstart
    }

    function Lims(): Limits {
      Limits(w.MaxDist(), w.hashBits, goodMatch, maxLazyMatch, niceMatch, maxChainLength, filtered)
    }

    ghost function Here(): Spot
      reads this`era, w`base, w`strstart, w`ins
    {
      Spot(Pos(), era, w.base, w.ins)
    }

    /** Where the next token belongs: a look that is waiting has been taken already. */
    ghost function End(k: Strategy): Spot
      reads this`matchAvailable, this`waiting, this`era, w`base, w`strstart, w`ins
    {
      if k == Lazy && matchAvailable then SpotOf(waiting) else Here()
    }

    /** Every token so far is the one that the strategy chooses. */
    ghost predicate Logged(k: Strategy)
      reads this`tokens, this`picks, this`edges, this`matchAvailable, this`waiting, this`era, w`data, w`base, w`strstart, w`ins
    {
      Log(k, picks, tokens, w.data, Lims(), edges, End(k))
    }

    ghost predicate Tallied(pos: nat)
      reads this`tokens, this`lastLit, w`data
    {
      litBufsize >= 2 && lastLit < litBufsize - 1 && maxChainLength >= 4 && w.Sizes() &&
      Covers(tokens, w.MaxDist(), w.data, pos)
    }

    // ----- recording tokens -----

    /** _tr_tally_lit and _tr_tally_dist; the result says that the buffer is full. */
    method Tally(t: Token) returns (bflush: bool)
      requires litBufsize >= 2 && lastLit < litBufsize - 1
      modifies this`tokens, this`lastLit
      ensures tokens == old(tokens) + [t] && lastLit <= litBufsize - 1 && bflush == (lastLit == litBufsize - 1)
    {
      tokens := tokens + [t];
      lastLit := lastLit + 1;
      bflush := lastLit == litBufsize - 1;
    }

    method TallyLit(c: Byte, ghost pos: nat) returns (bflush: bool)
      requires Tallied(pos) && pos < |w.data| && w.data[pos] == c
      modifies this`tokens, this`lastLit
      ensures Recorded(pos + 1) && (!bflush ==> Tallied(pos + 1)) && tokens == old(tokens) + [Lit(c)]
    {
      CoversLit(tokens, w.MaxDist(), w.data, pos);
      bflush := Tally(Lit(c));
    }

    method TallyDist(dist: int, len: nat, ghost pos: nat) returns (bflush: bool)
      requires Tallied(pos) && MIN_MATCH <= len <= MAX_MATCH && dist <= w.MaxDist() && Repeats(w.data, pos - dist, pos, len)
      modifies this`tokens, this`lastLit
      ensures Recorded(pos + len) && (!bflush ==> Tallied(pos + len)) && tokens == old(tokens) + [Match(dist, len)]
    {
      CoversMatch(tokens, w.MaxDist(), w.data, pos, pos - dist, len);
      bflush := Tally(Match(dist, len));
    }

    /** As Tallied, but the buffer may be full. */
    ghost predicate Recorded(pos: nat)
      reads this`tokens, this`lastLit, w`data
    {
      litBufsize >= 2 && maxChainLength >= 4 && w.Sizes() && Covers(tokens, w.MaxDist(), w.data, pos)
    }

    /** FLUSH_BLOCK: the buffered tokens are handed on; the result says that there is no room for more output. */
    method FlushBlock(ghost pos: nat, ample: bool) returns (full: bool)
      requires Recorded(pos)
      modifies this`lastLit
      ensures Tallied(pos) && (ample ==> !full)
    {
      lastLit := 0;
      full := NoRoom(ample);
    }

    /** Whether the output room of the caller, unless ample, is used up. */
    method NoRoom(ample: bool) returns (full: bool)
      ensures ample ==> !full
    {
      if ample { return false; }
      full := *;
    }

    /** Refilling the window leaves the tokens as good as they were. */
    method Refill(ghost pos: nat)
      requires Tallied(pos) && w.Valid() && w.lookahead < MIN_LOOKAHEAD
      modifies w, w.window, w.head, w.prev
      ensures Tallied(pos) && w.Valid() && (w.lookahead >= MIN_LOOKAHEAD || w.nextIn == []) && w.strstart < w.wSize + w.MaxDist()
      ensures Pos() == old(Pos()) && w.base + w.matchStart == old(w.base + w.matchStart) && w.lookahead >= old(w.lookahead)
      ensures (w.base == old(w.base) || w.strstart >= w.MaxDist()) && old(w.ins) <= w.ins
      ensures old(w.data) <= w.data && w.data + w.nextIn == old(w.data + w.nextIn)
    {
      hide Window.Filled, Window.Hashed, Window.Ready, Covers, Span;
      ghost var d := w.data;
      w.FillWindow();
      CoversMore(tokens, w.MaxDist(), d, pos, w.data[|d|..]);
      assert w.data == d + w.data[|d|..];
    }

    // ----- looks -----

    /** The search just made at the current string. */
    ghost function NewLook(prev: nat, len: nat): Look
      reads this`era, w`base, w`strstart, w`ins, w`data, w`matchStart
    {
      Look(Pos(), |w.data|, era, w.base, w.ins, prev, len, w.base + w.matchStart)
    }

    lemma LookSound(prev: nat, len: nat)
      requires w.Inserted() && w.lookahead > 0 && (w.lookahead >= MIN_MATCH ==> Pos() in w.ins)
      ensures Sound(NewLook(prev, len), w.data, Lims())
    {
      hide Mirrors, AllBefore, Primed;
      w.FilledFacts();
    }

    /** There is nothing to search. */
    lemma LookNowhere(hashHead: nat, prev: nat)
      requires hashHead == NIL || w.strstart - hashHead > w.MaxDist()
      requires w.Filled() && if w.lookahead >= MIN_MATCH then w.Candidate(hashHead, w.strstart) else hashHead == NIL
      ensures Best(NewLook(prev, prev), w.data, Lims())
    {
      hide Mirrors, HashAt, HasHash;
      w.FilledFacts();
      var l := NewLook(prev, prev);
      var c := MatchChoice.Candidates(l, w.data, w.hashBits);
      if w.lookahead >= MIN_MATCH {
        ChainEarlier(hashHead, HashAt(w.data, Pos(), w.hashBits), Pos(), w.data, w.base, w.ins, w.hashBits);
      }
      assert Searched(l, w.data, c, 0, 0, Lims());
    }

    /** What was found, as a look. */
    lemma LookFound(prev: nat, r: nat, v: nat, at: nat)
      requires w.Filled() && Pos() + 3 <= |w.data| && r <= w.lookahead && r <= MAX_MATCH && (r >= prev || r == w.lookahead)
      requires r > prev ==> Nearest(w.data, w.Candidates(), Pos(), v, at, r, w.base + w.matchStart)
      requires 0 < v <= |w.Candidates()| && (r < w.lookahead && r < MAX_MATCH ==> NoneLonger(w.data, w.Candidates(), Pos(), v, r))
      requires v == |w.Candidates()| || v == Budget(prev, goodMatch, maxChainLength) || (r > prev && r >= niceMatch) || r == w.lookahead ||
               Pos() - w.Candidates()[v] >= w.MaxDist()
      ensures Best(NewLook(prev, Greater(r, prev)), w.data, Lims())
    {
      hide Mirrors, Earlier, NoneLonger, Nearest;
      w.FilledFacts();
      var l := NewLook(prev, Greater(r, prev));
      assert MatchChoice.Candidates(l, w.data, w.hashBits) == w.Candidates();
      assert Searched(l, w.data, w.Candidates(), v, at, Lims());
    }

    // ----- deflate_fast -----

    ghost predicate Fast()
      reads this, w, w.window, w.head, w.prev
    {
      FastFull() && Tallied(Pos())
    }

    /** As Fast, but the buffer may be full. */
    ghost predicate FastFull()
      reads this, w, w.window, w.head, w.prev
    {
      w.Valid() && Recorded(Pos()) && matchLength < MIN_MATCH && prevLength == MIN_MATCH - 1 && Logged(Fastest)
    }

    /** The match at the current string is recorded; its strings are inserted only if it is short. */
    method FastMatch(ghost pos: nat) returns (bflush: bool)
      requires w.Inserted() && Tallied(pos) && pos == Pos() && MIN_MATCH <= matchLength <= MAX_MATCH && matchLength <= w.lookahead
      requires w.Matches(w.matchStart, w.strstart, matchLength) && w.strstart + MIN_LOOKAHEAD <= 2 * w.wSize
      modifies this`matchLength, this`tokens, this`lastLit, w, w.head, w.prev
      ensures w.Valid() && matchLength == 0 && Recorded(Pos()) && (!bflush ==> Tallied(Pos()))
      ensures Pos() == pos + old(matchLength) && w.data == old(w.data) && w.nextIn == old(w.nextIn) && w.base == old(w.base)
      ensures tokens == old(tokens) + [Match(old(w.strstart - w.matchStart), old(matchLength))]
      ensures w.ins == old(w.ins) +
        if old(matchLength) <= maxLazyMatch && |w.data| - Pos() >= MIN_MATCH then Span(pos + 1, Pos()) else {}
    {
      hide Covers, Repeats, Window.Valid, Window.Inserted, Span;
      w.InsertedFacts();
      bflush := TallyDist(w.strstart - w.matchStart, matchLength, pos);
      if matchLength <= maxLazyMatch && w.lookahead - matchLength >= MIN_MATCH {
        w.StepInserting(matchLength);
      } else {
        w.StepOver(matchLength);
      }
      matchLength := 0;
    }

    /** The current byte is recorded as a literal. */
    method FastLiteral(ghost pos: nat) returns (bflush: bool)
      requires w.Inserted() && Tallied(pos) && pos == Pos() && w.lookahead > 0
      modifies this`tokens, this`lastLit, w`strstart, w`lookahead
      ensures w.Valid() && Recorded(Pos()) && (!bflush ==> Tallied(Pos())) && Pos() == pos + 1
      ensures pos < |w.data| && tokens == old(tokens) + [Lit(w.data[pos])]
    {
      hide Covers, Mirrors, Chains, AllBefore, Primed, HashAt;
      w.FilledFacts();
      MirrorAt(w.window[..], w.data, w.base, w.strstart + w.lookahead, w.strstart);
      bflush := TallyLit(w.window[w.strstart], pos);
      w.Step();
    }

    /** The string at strstart is inserted and its longest match found. */
    method FastLook() returns (ghost l: Look)
      requires Fast() && w.lookahead > 0 && w.strstart + MIN_LOOKAHEAD <= 2 * w.wSize && (w.lookahead >= MIN_LOOKAHEAD || |w.data| in edges)
      modifies this`matchLength, w`matchStart, w`insH, w`ins, w.head, w.prev
      ensures w.Inserted() && Tallied(Pos()) && Pos() == old(Pos()) && Log(Fastest, picks, tokens, w.data, Lims(), edges, SpotOf(l))
      ensures l == NewLook(MIN_MATCH - 1, l.len) && Looked(l, w.data, Lims(), edges)
      ensures if matchLength >= MIN_MATCH then matchLength == l.len else l.len < MIN_MATCH
      ensures matchLength >= MIN_MATCH ==> matchLength <= MAX_MATCH && matchLength <= w.lookahead && w.Matches(w.matchStart, w.strstart, matchLength)
    {
      hide Covers, Window.Valid, Window.Inserted, Window.Candidate, Window.Candidates, Window.Matches, Tallied, Recorded, Chains, Mirrors, Primed, AllBefore, Nearest, NoneLonger, Best, Sound, Chosen, Log;
      TalliedRecorded(Pos());
      w.ValidFacts();
      var hashHead := w.Enter();
      w.InsertedFacts();
      ghost var len := MIN_MATCH - 1;
      if hashHead != NIL && w.strstart - hashHead <= w.MaxDist() {
        ghost var v, at;
        w.InsertedSearching();
        matchLength, v, at := w.LongestMatch(hashHead, prevLength, goodMatch, niceMatch, maxChainLength);
        len := Greater(matchLength, prevLength);
        LookFound(prevLength, matchLength, v, at);
      } else {
        LookNowhere(hashHead, prevLength);
      }
      LookSound(prevLength, len);
      l := NewLook(prevLength, len);
      LogMove(Fastest, picks, tokens, w.data, Lims(), edges, old(Here()), SpotOf(l));
    }

    /** One token. */
    method FastStep() returns (bflush: bool)
      requires Fast() && w.lookahead > 0 && w.strstart + MIN_LOOKAHEAD <= 2 * w.wSize && (w.lookahead >= MIN_LOOKAHEAD || |w.data| in edges)
      modifies this`matchLength, this`tokens, this`lastLit, this`picks, w, w.window, w.head, w.prev
      ensures FastFull() && (!bflush ==> Fast())
      ensures Pos() > old(Pos()) && w.data == old(w.data) && w.nextIn == old(w.nextIn)
      ensures old(tokens) < tokens
    {
      hide Covers, Window.Valid, Window.Inserted, Window.Matches, Tallied, Recorded, Chains, Mirrors, Looked, Log, Span;
      ghost var pos := Pos();
      ghost var l := FastLook();
      if matchLength >= MIN_MATCH {
        bflush := FastMatch(pos);
      } else {
        bflush := FastLiteral(pos);
      }
      LogFast(l, old(tokens), tokens[|tokens| - 1]);
      picks := picks + [Pick(l, l)];
    }

    /** The strings of a short match have been inserted. */
    lemma LogFast(l: Look, was: seq<Token>, t: Token)
      requires Log(Fastest, picks, was, w.data, Lims(), edges, SpotOf(l)) && Greedy(l, t, w.data, Lims(), edges) && l.era == era && l.known == |w.data|
      requires w.base < Pos() == l.pos + Size(t)
      requires w.ins == l.ins + if t.Match? && t.len <= maxLazyMatch && |w.data| - Pos() >= MIN_MATCH then Span(l.pos + 1, Pos()) else {}
      ensures Log(Fastest, picks + [Pick(l, l)], was + [t], w.data, Lims(), edges, Here())
    {
      hide Log, Greedy, Span;
      LogAdd(Fastest, picks, was, w.data, Lims(), edges, Pick(l, l), t, Here());
    }

    lemma FastFacts()
      requires FastFull()
      ensures w.Sizes() && w.strstart + w.lookahead <= 2 * w.wSize && Pos() + w.lookahead == |w.data| && w.Valid() && Recorded(Pos())
    {
      w.ValidFacts();
    }

    method FastRefill()
      requires Fast() && w.lookahead < MIN_LOOKAHEAD
      modifies w, w.window, w.head, w.prev
      ensures Fast() && (w.lookahead >= MIN_LOOKAHEAD || w.nextIn == []) && w.strstart < w.wSize + w.MaxDist()
      ensures old(w.data) <= w.data && w.data + w.nextIn == old(w.data + w.nextIn) && Pos() == old(Pos())
    {
      hide Covers, Window.Valid, Recorded, Tallied, Log;
      ghost var d, e := w.data, Here();
      w.ValidFacts();
      Refill(Pos());
      w.ValidFacts();
      TalliedRecorded(Pos());
      assert w.data == d + w.data[|d|..];
      LogMore(Fastest, picks, tokens, d, Lims(), edges, e, w.data[|d|..], edges);
      LogMove(Fastest, picks, tokens, w.data, Lims(), edges, e, Here());
    }

    method FastFlush(ample: bool) returns (full: bool)
      requires FastFull()
      modifies this`lastLit
      ensures Fast() && (ample ==> !full)
    {
      hide Covers, Window.Valid, Recorded, Tallied, Log;
      full := FlushBlock(Pos(), ample);
      TalliedRecorded(Pos());
    }

    method FastEnd(flush: Flush, ample: bool) returns (state: BlockState)
      requires FastFull() && w.lookahead == 0 && flush != NoFlush
      modifies this`lastLit, w`insert
      ensures Fast() && (ample ==> state == Ending(flush))
      ensures state == FinishStarted || state == FinishDone ==> flush == Finish
    {
      hide Covers, Window.Valid, Recorded, Tallied, Log;
      w.EndRun();
      state := LastBlock(flush, Pos(), ample);
      TalliedRecorded(Pos());
    }

    method DeflateFast(flush: Flush, ample: bool) returns (state: BlockState)
      requires Fast() && (flush != NoFlush ==> |w.data| + |w.nextIn| in edges)
      modifies this, w, w.window, w.head, w.prev
      ensures Fast() && old(w.data) <= w.data && w.data + w.nextIn == old(w.data + w.nextIn)
      ensures state != NeedMore ==> flush != NoFlush && w.nextIn == [] && Pos() == |w.data|
      ensures ample ==> state == Ending(flush) && w.nextIn == [] && w.lookahead < MIN_LOOKAHEAD
      ensures finishing == old(finishing) && era == old(era) && edges == old(edges) && (state == FinishStarted || state == FinishDone ==> flush == Finish)
      ensures old(tokens) <= tokens && (state == NeedMore ==> old(tokens) < tokens || (w.nextIn == [] && w.lookahead < MIN_LOOKAHEAD))
    {
      hide FastFull,  Tallied,  Recorded,  Window.Valid,  Window.Sizes;
      while true
        invariant Fast() && old(w.data) <= w.data && w.data + w.nextIn == old(w.data + w.nextIn) && finishing == old(finishing) && era == old(era) && edges == old(edges)
        invariant old(tokens) <= tokens
        decreases |w.data| + |w.nextIn| - Pos()
      {
        FastFacts();
        if w.lookahead < MIN_LOOKAHEAD {
          FastRefill();
          FastFacts();
          if w.lookahead < MIN_LOOKAHEAD && flush == NoFlush { return NeedMore; }
          if w.lookahead == 0 { break; }
        }
        var bflush := FastStep();
        FastFacts();
        if bflush {
          var full := FastFlush(ample);
          if full { return NeedMore; }
        }
      }
      state := FastEnd(flush, ample);
    }

    // ----- deflate_slow -----

    /** First position not yet coded: a match or literal at the previous byte may still be waiting. */
    ghost function Coded(): int
      reads this`matchAvailable, w`base, w`strstart
    {
      Pos() - if matchAvailable then 1 else 0
    }

    /** A waiting match is a match of the previous byte's string. */
    ghost predicate Waiting()
      reads this`matchAvailable, this`matchLength, w`lookahead, w`data, w`base, w`matchStart, w`strstart
    {
      if matchLength >= MIN_MATCH then
        matchAvailable && matchLength <= MAX_MATCH && matchLength - 1 <= w.lookahead && w.Matches(w.matchStart, w.strstart - 1, matchLength)
      else matchLength == MIN_MATCH - 1
    }

    ghost predicate Slow()
      reads this, w, w.window, w.head, w.prev
    {
      SlowFull() && Tallied(Coded())
    }

    /** As Slow, but the buffer may be full. */
    ghost predicate SlowFull()
      reads this, w, w.window, w.head, w.prev
    {
      w.Valid() && (matchAvailable ==> w.strstart >= 1) && Recorded(Coded()) && Waiting() && Held() && Logged(Lazy)
    }

    /** The look that is waiting goes with the match that is waiting. */
    ghost predicate Held()
      reads this`matchAvailable, this`matchLength, this`waiting, this`picks, this`era, this`edges, w`data, w`base, w`strstart, w`matchStart, w`ins
    {
      if matchAvailable then
        Tried(waiting, w.data, Lims(), edges) && waiting.pos == Pos() - 1 && waiting.era == era && waiting.ins <= w.ins &&
        (matchLength >= MIN_MATCH <==> Better(waiting, Lims())) &&
        (Better(waiting, Lims()) ==> matchLength == waiting.len && w.base + w.matchStart == waiting.start) && Resumes(picks, waiting, Lims())
      else Free(picks, Lims())
    }

    /** The match for the current string, if it is worth having. */
    method SlowMatch(hashHead: nat) returns (len: nat, ghost l: Look)
      requires w.Inserted() && (if w.lookahead >= MIN_MATCH then w.Candidate(hashHead, w.strstart) else hashHead == NIL)
      requires 2 <= prevLength <= MAX_MATCH && maxChainLength >= 4 && w.strstart + MIN_LOOKAHEAD <= 2 * w.wSize
      requires w.lookahead > 0 && (w.lookahead >= MIN_LOOKAHEAD || |w.data| in edges) && (w.lookahead >= MIN_MATCH ==> Pos() in w.ins)
      modifies w`matchStart
      ensures len >= MIN_MATCH && len > prevLength ==> len <= MAX_MATCH && len <= w.lookahead && w.Matches(w.matchStart, w.strstart, len)
      ensures len >= MIN_MATCH - 1 && (len == MIN_MATCH - 1 || w.lookahead >= MIN_MATCH)
      ensures l == NewLook(prevLength, l.len) && Tried(l, w.data, Lims(), edges)
      ensures (len > prevLength <==> Better(l, Lims())) && (len > prevLength ==> len == l.len)
    {
      hide Mirrors, Chains, AllBefore, Primed, HashAt, Repeats, Nearest, NoneLonger, Best, Sound, Window.Candidate, Window.Candidates, Window.Matches;
      w.InsertedFacts();
      len := MIN_MATCH - 1;
      ghost var n := prevLength;
      if hashHead != NIL && prevLength < maxLazyMatch && w.strstart - hashHead <= w.MaxDist() {
        ghost var v, at;
        w.InsertedSearching();
        len, v, at := w.LongestMatch(hashHead, prevLength, goodMatch, niceMatch, maxChainLength);
        n := Greater(len, prevLength);
        LookFound(prevLength, len, v, at);
        if len <= 5 && (filtered || (len == MIN_MATCH && w.strstart - w.matchStart > TOO_FAR)) {
          len := MIN_MATCH - 1;
        }
      } else if prevLength < maxLazyMatch {
        LookNowhere(hashHead, prevLength);
      }
      LookSound(prevLength, n);
      l := NewLook(prevLength, n);
    }

    /** The waiting match is recorded, and every string in it inserted. */
    method EmitPrevious(ghost pos: nat) returns (bflush: bool)
      requires w.Inserted() && Tallied(pos) && pos == Pos() - 1 && MIN_MATCH <= prevLength <= MAX_MATCH && prevLength - 1 <= w.lookahead
      requires w.Matches(prevMatch, w.strstart - 1, prevLength)
      modifies this`matchLength, this`prevLength, this`matchAvailable, this`tokens, this`lastLit, w, w.window, w.head, w.prev
      ensures w.Valid() && !matchAvailable && matchLength == MIN_MATCH - 1 && Recorded(Pos()) && (!bflush ==> Tallied(Pos()))
      ensures Pos() == pos + old(prevLength) && w.data == old(w.data) && w.nextIn == old(w.nextIn) && w.base == old(w.base)
      ensures tokens == old(tokens) + [Match(old(w.strstart - 1 - prevMatch), old(prevLength))]
      ensures w.ins == old(w.ins) + Span(pos + 2, Lesser(Pos(), |w.data| - 2))
    {
      hide Covers, Repeats, Window.Valid, Window.Inserted, Span;
      bflush := TallyDist(w.strstart - 1 - prevMatch, prevLength, pos);
      w.StepToLimit(prevLength - 1);
      prevLength := 0;
      matchAvailable := false;
      matchLength := MIN_MATCH - 1;
    }

    /** The waiting byte is recorded as a literal; the current string's match, if any, waits in its turn. */
    method EmitLiteral(ghost pos: nat) returns (bflush: bool)
      requires w.Inserted() && Tallied(pos) && pos == Pos() - 1 && w.strstart >= 1 && w.lookahead > 0
      modifies this`tokens, this`lastLit, w`strstart, w`lookahead
      ensures w.Valid() && w.strstart == old(w.strstart) + 1 && w.lookahead == old(w.lookahead) - 1
      ensures Recorded(Pos() - 1) && (!bflush ==> Tallied(Pos() - 1))
      ensures pos < |w.data| && tokens == old(tokens) + [Lit(w.data[pos])]
    {
      hide Covers, Mirrors, Chains, AllBefore, Primed, HashAt;
      w.FilledFacts();
      MirrorAt(w.window[..], w.data, w.base, w.strstart + w.lookahead, w.strstart - 1);
      bflush := TallyLit(w.window[w.strstart - 1], pos);
      w.Step();
    }

    /** The string at strstart is inserted; what was the current match is now the previous one. */
    method SlowEnter() returns (hashHead: nat)
      requires Slow() && w.lookahead > 0
      modifies this`prevLength, this`prevMatch, w`insH, w`ins, w.head, w.prev
      ensures w.Inserted() && (if w.lookahead >= MIN_MATCH then w.Candidate(hashHead, w.strstart) else hashHead == NIL)
      ensures (w.lookahead >= MIN_MATCH ==> Pos() in w.ins) && (matchAvailable ==> w.strstart >= 1) && Tallied(Coded()) && Previous()
      ensures Logged(Lazy) && MIN_MATCH - 1 <= prevLength <= MAX_MATCH && maxChainLength >= 4
    {
      hide Covers, Repeats, Window.Valid, Window.Inserted, Window.Candidate, Window.Matches, Tallied, Recorded, Log, Tried, Better;
      TalliedRecorded(Coded());
      ghost var e := End(Lazy);
      hashHead := w.Enter();
      prevLength, prevMatch := matchLength, w.matchStart;
      LogMove(Lazy, picks, tokens, w.data, Lims(), edges, e, End(Lazy));
    }

    /** One step of lazy evaluation: a match is recorded only if the next string has no longer one. */
    method SlowStep() returns (bflush: bool, literal: bool)
      requires Slow() && w.lookahead > 0 && w.strstart + MIN_LOOKAHEAD <= 2 * w.wSize && (w.lookahead >= MIN_LOOKAHEAD || |w.data| in edges)
      modifies this`matchLength, this`prevLength, this`prevMatch, this`matchAvailable, this`tokens, this`lastLit, this`picks, this`waiting,
               w, w.window, w.head, w.prev
      ensures SlowFull() && (!bflush ==> Slow())
      ensures Pos() > old(Pos()) && w.data == old(w.data) && w.nextIn == old(w.nextIn)
      ensures old(tokens) <= tokens && (bflush || literal ==> old(tokens) < tokens)
    {
      hide Covers, Slow, SlowFull, Window.Inserted, Window.Candidate, Window.Matches, Tallied, Recorded, Log, Tried, Previous, Better;
      var hashHead := SlowEnter();
      ghost var l;
      matchLength, l := SlowMatch(hashHead);
      bflush, literal := SlowEmit(l);
    }

    /** The previous match, with the look that goes with it, if one is waiting. */
    ghost predicate Previous()
      reads this`prevLength, this`prevMatch, this`matchAvailable, this`waiting, this`picks, this`era, this`edges,
            w`lookahead, w`data, w`base, w`strstart, w`ins
    {
      if matchAvailable then
        Tried(waiting, w.data, Lims(), edges) && waiting.pos == Pos() - 1 && waiting.era == era && waiting.ins <= w.ins && Resumes(picks, waiting, Lims()) &&
        if Better(waiting, Lims()) then
          MIN_MATCH <= prevLength == waiting.len <= MAX_MATCH && w.base + prevMatch == waiting.start && prevLength - 1 <= w.lookahead &&
          w.Matches(prevMatch, w.strstart - 1, prevLength)
        else prevLength == MIN_MATCH - 1
      else Free(picks, Lims()) && prevLength == MIN_MATCH - 1
    }

    /** What is known once the current string has been searched. */
    ghost predicate Decided(l: Look)
      reads this, w, w.window, w.head, w.prev
    {
      w.Inserted() && (matchAvailable ==> w.strstart >= 1) && Tallied(Coded()) && w.lookahead > 0 && Logged(Lazy) && Previous() &&
      matchLength >= MIN_MATCH - 1 && l == NewLook(prevLength, l.len) && Tried(l, w.data, Lims(), edges) &&
      if matchLength > prevLength
      then Better(l, Lims()) && matchLength == l.len <= w.lookahead && matchLength <= MAX_MATCH && w.Matches(w.matchStart, w.strstart, matchLength)
      else !Better(l, Lims())
    }

    /** What is recorded once the previous and the current match are known. */
    method SlowEmit(ghost l: Look) returns (bflush: bool, literal: bool)
      requires Decided(l)
      modifies this`matchLength, this`prevLength, this`matchAvailable, this`tokens, this`lastLit, this`picks, this`waiting, w, w.window, w.head, w.prev
      ensures SlowFull() && (!bflush ==> Slow())
      ensures Pos() > old(Pos()) && w.data == old(w.data) && w.nextIn == old(w.nextIn)
      ensures old(tokens) <= tokens && (bflush || literal ==> old(tokens) < tokens)
    {
      hide Covers, Repeats, Window.Valid, Window.Inserted, Window.Matches, Tallied, Recorded, Log, Tried, Span, Better;
      literal := false;
      if prevLength >= MIN_MATCH && matchLength <= prevLength {
        bflush := RecordMatch(l);
      } else if matchAvailable {
        bflush := RecordLiteral(l);
        literal := true;
      } else {
        bflush := false;
        matchAvailable := true;
        waiting := l;
        w.InsertedFacts();
        w.Step();
        TalliedRecorded(Pos() - 1);
      }
    }

    /** The waiting match, not overtaken by the current one. */
    method RecordMatch(ghost l: Look) returns (bflush: bool)
      requires Decided(l) && prevLength >= MIN_MATCH && matchLength <= prevLength
      modifies this`matchLength, this`prevLength, this`matchAvailable, this`tokens, this`lastLit, this`picks, w, w.window, w.head, w.prev
      ensures SlowFull() && (!bflush ==> Slow())
      ensures Pos() > old(Pos()) && w.data == old(w.data) && w.nextIn == old(w.nextIn)
      ensures old(tokens) < tokens
    {
      hide Covers, Repeats, Window.Valid, Window.Inserted, Window.Matches, Tallied, Recorded, Log, Tried, Span, Better;
      w.InsertedFacts();
      ghost var p := Pick(waiting, l);
      bflush := EmitPrevious(Pos() - 1);
      LogMatch(p, old(tokens), tokens[|tokens| - 1]);
      picks := picks + [p];
    }

    /** The waiting byte, without a match or with one that the current one has overtaken. */
    method RecordLiteral(ghost l: Look) returns (bflush: bool)
      requires Decided(l) && matchAvailable && !(prevLength >= MIN_MATCH && matchLength <= prevLength)
      modifies this`tokens, this`lastLit, this`picks, this`waiting, w`strstart, w`lookahead
      ensures SlowFull() && (!bflush ==> Slow()) && Pos() > old(Pos())
      ensures old(tokens) < tokens
    {
      hide Covers, Repeats, Window.Valid, Window.Inserted, Tallied, Recorded, Log, Tried, Better, Window.MaxDist;
      w.InsertedFacts();
      ghost var p := Pick(waiting, l);
      bflush := EmitLiteral(Pos() - 1);
      LogAdd(Lazy, picks, old(tokens), w.data, Lims(), edges, p, Lit(w.data[p.at.pos]), SpotOf(l));
      picks := picks + [p];
      waiting := l;
    }

    /** All strings of the match just recorded, of which three bytes are known, have been inserted. */
    lemma LogMatch(p: Pick, was: seq<Token>, t: Token)
      requires Log(Lazy, picks, was, w.data, Lims(), edges, SpotOf(p.at)) && Patient(p, t, w.data, Lims(), edges) && Resumes(picks, p.at, Lims())
      requires t.Match? && Better(p.at, Lims()) && p.after.known == |w.data| && p.at.era == era && w.base < Pos() == p.at.pos + t.len
      requires w.ins == p.after.ins + Span(p.at.pos + 2, Lesser(Pos(), |w.data| - 2))
      ensures Log(Lazy, picks + [p], was + [t], w.data, Lims(), edges, Here())
    {
      hide Log, Span, Resumes, Best;
      var hi := Lesser(Pos(), |w.data| - 2);
      forall a | a in Span(p.at.pos + 1, hi) ensures a in w.ins {
        SpanHas(p.at.pos + 1, hi, a);
        SpanHas(p.at.pos + 2, hi, a);
      }
      LogAdd(Lazy, picks, was, w.data, Lims(), edges, p, t, Here());
    }

    lemma SlowFacts()
      requires SlowFull()
      ensures w.Sizes() && w.strstart + w.lookahead <= 2 * w.wSize && Pos() + w.lookahead == |w.data|
      ensures w.Valid() && (matchAvailable ==> w.strstart >= 1) && Recorded(Coded()) && Waiting()
    {
      hide Log;
      w.ValidFacts();
    }

    lemma SlowSpan()
      requires SlowFull()
      ensures 512 <= w.wSize && w.strstart + w.lookahead <= 2 * w.wSize && Pos() + w.lookahead == |w.data|
    {
      SlowFacts();
    }

    method SlowFlush(ample: bool) returns (full: bool)
      requires SlowFull()
      modifies this`lastLit
      ensures Slow() && (ample ==> !full)
    {
      hide Covers, Window.Valid, Recorded, Tallied, Waiting, Held, Log;
      full := FlushBlock(Coded(), ample);
      TalliedRecorded(Coded());
    }

    method SlowEnd(flush: Flush, ample: bool) returns (state: BlockState)
      requires SlowFull() && (matchAvailable ==> Slow()) && w.lookahead == 0 && flush != NoFlush
      modifies this`lastLit, this`tokens, this`matchAvailable, this`picks, w`insert
      ensures Slow() && !matchAvailable && (ample ==> state == Ending(flush))
      ensures state == FinishStarted || state == FinishDone ==> flush == Finish
      ensures old(tokens) <= tokens
    {
      hide Covers, Window.Valid, Recorded, Tallied, Waiting, Log;
      if matchAvailable { LastLiteral(); }
      w.EndRun();
      state := LastBlock(flush, Pos(), ample);
      TalliedRecorded(Pos());
    }

    /** One step, and a look at the output room whenever something was recorded. */
    method SlowTurn(ample: bool) returns (full: bool)
      requires Slow() && w.lookahead > 0 && w.strstart + MIN_LOOKAHEAD <= 2 * w.wSize && (w.lookahead >= MIN_LOOKAHEAD || |w.data| in edges)
      modifies this`matchLength, this`prevLength, this`prevMatch, this`matchAvailable, this`tokens, this`lastLit, this`picks, this`waiting,
               w, w.window, w.head, w.prev
      ensures Slow() && old(tokens) <= tokens && (full ==> !ample && old(tokens) < tokens)
      ensures Pos() > old(Pos()) && w.data == old(w.data) && w.nextIn == old(w.nextIn)
    {
      hide Slow, SlowFull;
      var bflush, literal := SlowStep();
      full := false;
      if bflush {
        full := SlowFlush(ample);
      } else if literal {
        full := NoRoom(ample);
      }
    }

    method DeflateSlow(flush: Flush, ample: bool) returns (state: BlockState)
      requires Slow() && (flush != NoFlush ==> |w.data| + |w.nextIn| in edges)
      modifies this, w, w.window, w.head, w.prev
      ensures Slow() && old(w.data) <= w.data && w.data + w.nextIn == old(w.data + w.nextIn)
      ensures state != NeedMore ==> flush != NoFlush && w.nextIn == [] && Coded() == |w.data| && !matchAvailable
      ensures ample ==> state == Ending(flush) && w.nextIn == [] && w.lookahead < MIN_LOOKAHEAD
      ensures finishing == old(finishing) && era == old(era) && edges == old(edges) && (state == FinishStarted || state == FinishDone ==> flush == Finish)
      ensures old(tokens) <= tokens && (state == NeedMore ==> old(tokens) < tokens || (w.nextIn == [] && w.lookahead < MIN_LOOKAHEAD))
    {
      hide SlowFull, Tallied, Waiting, Recorded, Window.Valid, Window.Sizes, Log;
      ghost var was, all := w.data, w.data + w.nextIn;
      while true
        invariant Slow() && was <= w.data && w.data + w.nextIn == all && finishing == old(finishing) && era == old(era) && edges == old(edges)
        invariant old(tokens) <= tokens
        decreases |w.data| + |w.nextIn| - Pos()
      {
        SlowSpan();
        if w.lookahead < MIN_LOOKAHEAD {
          RefillWaiting();
          SlowSpan();
          if w.lookahead < MIN_LOOKAHEAD && flush == NoFlush { return NeedMore; }
          if w.lookahead == 0 { break; }
        }
        var full := SlowTurn(ample);
        SlowSpan();
        if full { return NeedMore; }
      }
      state := SlowEnd(flush, ample);
    }

    /** Refilling keeps the waiting match, wherever the window slides. */
    method RefillWaiting()
      requires Slow() && w.lookahead < MIN_LOOKAHEAD
      modifies w, w.window, w.head, w.prev
      ensures Slow() && (w.lookahead >= MIN_LOOKAHEAD || w.nextIn == []) && w.strstart < w.wSize + w.MaxDist()
      ensures old(w.data) <= w.data && w.data + w.nextIn == old(w.data + w.nextIn) && Pos() == old(Pos())
    {
      hide Covers, Window.Valid, Recorded, Tallied, Repeats, Log, Tried;
      TalliedRecorded(Coded());
      w.ValidFacts();
      ghost var d, e := w.data, End(Lazy);
      ghost var a, b := w.base + w.matchStart, w.base + w.strstart - 1;
      Refill(Coded());
      assert w.data == d + w.data[|d|..];
      if matchLength >= MIN_MATCH { RepeatsMore(d, a, b, matchLength, w.data[|d|..]); }
      TalliedRecorded(Coded());
      w.ValidFacts();
      if matchAvailable { TriedMore(waiting, d, Lims(), edges, w.data[|d|..], edges); }
      LogMore(Lazy, picks, tokens, d, Lims(), edges, e, w.data[|d|..], edges);
      LogMove(Lazy, picks, tokens, w.data, Lims(), edges, e, End(Lazy));
    }

    // ----- deflate_rle -----

    ghost predicate Rle()
      reads this, w, w.window, w.head, w.prev
    {
      RleFull() && Tallied(Pos())
    }

    /** No hash is kept up to date here. */
    ghost predicate RleFull()
      reads this, w, w.window, w.head, w.prev
    {
      w.Filled() && w.Hashed() && Recorded(Pos()) && RunsOnly(tokens) && Logged(Runs)
    }

    /** How often the previous byte repeats, eight comparisons between checks for the end. */
    method RunLength() returns (len: nat)
      requires w.Filled() && w.strstart > 0 && w.strstart + MAX_MATCH < 2 * w.wSize
      ensures if len == 0 then !Repeats(w.window[..], w.strstart - 1, w.strstart, MIN_MATCH)
              else MIN_MATCH <= len && RunIs(w.window[..], w.strstart, len, MAX_MATCH)
    {
      hide Repeats, Mirrors;
      w.FilledFacts();
      var scan := w.strstart - 1;
      var prev := w.window[scan];
      NoRepeat(w.window[..], w.strstart);
      RepeatOne(w.window[..], w.strstart, 0);
      if w.window[scan + 1] != prev { RunEnds(w.window[..], w.strstart, 0, MIN_MATCH); return 0; }
      RepeatOne(w.window[..], w.strstart, 1);
      if w.window[scan + 2] != prev { RunEnds(w.window[..], w.strstart, 1, MIN_MATCH); return 0; }
      RepeatOne(w.window[..], w.strstart, 2);
      if w.window[scan + 3] != prev { RunEnds(w.window[..], w.strstart, 2, MIN_MATCH); return 0; }
      scan := scan + 3;
      var strend := w.strstart + MAX_MATCH;
      while true
        invariant w.strstart + 2 <= scan < strend && (strend - scan) % 8 == 0
        invariant Repeats(w.window[..], w.strstart - 1, w.strstart, scan - w.strstart + 1) && w.window[scan] == prev
        decreases strend - scan
      {
        ghost var from := scan;
        var j := 0;
        while j < 8
          invariant 0 <= j <= 8 && scan == from + j
          invariant Repeats(w.window[..], w.strstart - 1, w.strstart, scan - w.strstart + 1) && w.window[scan] == prev
        {
          RepeatsNext(w.window[..], w.strstart - 1, w.strstart, scan - w.strstart + 1);
          scan := scan + 1;
          if w.window[scan] != prev {
            RunEnds(w.window[..], w.strstart, scan - w.strstart, scan - w.strstart + 1);
            return MAX_MATCH - (strend - scan);
          }
          j := j + 1;
        }
        if scan >= strend {
          RepeatsFewer(w.window[..], w.strstart - 1, w.strstart, scan - w.strstart + 1, MAX_MATCH);
          return MAX_MATCH - (strend - scan);
        }
      }
    }

    /** The run at the current byte, as far as it goes within the input at hand; 0 if it is too short. */
    method RleMatch() returns (len: nat)
      requires w.Filled() && w.strstart + MAX_MATCH < 2 * w.wSize && w.lookahead > 0 && (w.lookahead > MAX_MATCH || |w.data| in edges)
      ensures Pos() < |w.data| && RunOf(NewLook(0, len), if len >= MIN_MATCH then Match(1, len) else Lit(w.data[Pos()]), w.data, edges)
      ensures len >= MIN_MATCH ==> len <= MAX_MATCH && len <= w.lookahead && Repeats(w.data, Pos() - 1, Pos(), len)
    {
      hide Repeats, Mirrors;
      len := 0;
      w.FilledFacts();
      if w.lookahead >= MIN_MATCH && w.strstart > 0 {
        len := RunLength();
        if len > w.lookahead {
          RepeatsFewer(w.window[..], w.strstart - 1, w.strstart, len, w.lookahead);
          len := w.lookahead;
        }
        if len > 0 { w.BothAgree(w.strstart - 1, len); }
        if len < w.lookahead { w.BothAgree(w.strstart - 1, len + 1); }
        w.BothAgree(w.strstart - 1, MIN_MATCH);
      }
    }

    /** A run of the previous byte, or a literal. */
    method RleEmit(ghost pos: nat) returns (bflush: bool)
      requires w.Filled() && w.Hashed() && Tallied(pos) && pos == Pos() < |w.data| && RunsOnly(tokens)
      requires matchLength >= MIN_MATCH ==> matchLength <= MAX_MATCH && matchLength <= w.lookahead && Repeats(w.data, pos - 1, pos, matchLength)
      modifies this`matchLength, this`tokens, this`lastLit, w`strstart, w`lookahead
      ensures w.Filled() && w.Hashed() && Recorded(Pos()) && RunsOnly(tokens) && (!bflush ==> Tallied(Pos()))
      ensures tokens == old(tokens) + [if old(matchLength) >= MIN_MATCH then Match(1, old(matchLength)) else Lit(w.data[pos])]
      ensures Pos() == pos + Size(tokens[|tokens| - 1])
    {
      hide Covers, Repeats, Mirrors, Chains, Window.Hashed;
      w.FilledFacts();
      if matchLength >= MIN_MATCH {
        bflush := TallyDist(1, matchLength, pos);
        RleAdvance(matchLength);
        matchLength := 0;
      } else {
        MirrorAt(w.window[..], w.data, w.base, w.strstart + w.lookahead, w.strstart);
        bflush := TallyLit(w.window[w.strstart], pos);
        RleAdvance(1);
      }
    }

    /** One token. */
    method RleStep() returns (bflush: bool)
      requires Rle() && w.lookahead > 0 && w.strstart + MAX_MATCH < 2 * w.wSize && (w.lookahead > MAX_MATCH || |w.data| in edges)
      modifies this`matchLength, this`tokens, this`lastLit, this`picks, w`strstart, w`lookahead
      ensures RleFull() && (!bflush ==> Rle()) && Pos() > old(Pos())
      ensures old(tokens) < tokens
    {
      hide Covers, Repeats, Window.Filled, Window.Hashed, Tallied, Recorded, Log, RunOf, RunsOnly;
      w.FilledFacts();
      TalliedRecorded(Pos());
      matchLength := RleMatch();
      ghost var l := NewLook(0, matchLength);
      bflush := RleEmit(Pos());
      LogRun(l, old(tokens), tokens[|tokens| - 1]);
      picks := picks + [Pick(l, l)];
    }

    lemma LogRun(l: Look, was: seq<Token>, t: Token)
      requires Log(Runs, picks, was, w.data, Lims(), edges, SpotOf(l)) && RunOf(l, t, w.data, edges) && l.era == era && l.ins == w.ins
      requires l.base == w.base <= l.pos < Pos() == l.pos + Size(t)
      ensures Log(Runs, picks + [Pick(l, l)], was + [t], w.data, Lims(), edges, Here())
    {
      hide Log, RunOf;
      LogAdd(Runs, picks, was, w.data, Lims(), edges, Pick(l, l), t, Here());
    }

    method RleAdvance(n: nat)
      requires w.Filled() && w.Hashed() && n <= w.lookahead
      modifies w`strstart, w`lookahead
      ensures w.Filled() && w.Hashed() && w.strstart == old(w.strstart) + n && w.lookahead == old(w.lookahead) - n
    {
      hide Mirrors, Chains;
      ChainsAdvance(w.head[..], w.prev[..], w.data, w.base, w.strstart, w.strstart + n, w.ins, w.hashBits);
      w.lookahead := w.lookahead - n;
      w.strstart := w.strstart + n;
    }

    lemma RleFacts()
      requires RleFull()
      ensures w.Sizes() && w.strstart + w.lookahead <= 2 * w.wSize && Pos() + w.lookahead == |w.data|
    {
      w.FilledFacts();
    }

    method RleRefill()
      requires Rle() && w.lookahead < MIN_LOOKAHEAD
      modifies w, w.window, w.head, w.prev
      ensures Rle() && (w.lookahead >= MIN_LOOKAHEAD || w.nextIn == []) && w.strstart < w.wSize + w.MaxDist()
      ensures old(w.data) <= w.data && w.data + w.nextIn == old(w.data + w.nextIn) && Pos() == old(Pos())
    {
      hide Covers, Window.Filled, Window.Hashed, Log, Span;
      ghost var d, e := w.data, Here();
      w.FilledFacts();
      w.FillWindow();
      w.FilledFacts();
      CoversMore(tokens, w.MaxDist(), d, Pos(), w.data[|d|..]);
      assert w.data == d + w.data[|d|..];
      LogMore(Runs, picks, tokens, d, Lims(), edges, e, w.data[|d|..], edges);
      LogMove(Runs, picks, tokens, w.data, Lims(), edges, e, Here());
    }

    method RleFlush(ample: bool) returns (full: bool)
      requires RleFull()
      modifies this`lastLit
      ensures Rle() && (ample ==> !full)
    {
      hide Covers, Window.Filled, Window.Hashed, Log;
      full := FlushBlock(Pos(), ample);
    }

    method RleEnd(flush: Flush, ample: bool) returns (state: BlockState)
      requires RleFull() && flush != NoFlush
      modifies this`lastLit, w`insert
      ensures Rle() && (ample ==> state == Ending(flush))
      ensures state == FinishStarted || state == FinishDone ==> flush == Finish
    {
      hide Covers, Window.Filled, Chains, Log;
      w.insert := 0;
      state := LastBlock(flush, Pos(), ample);
    }

    method DeflateRle(flush: Flush, ample: bool) returns (state: BlockState)
      requires Rle() && (flush != NoFlush ==> |w.data| + |w.nextIn| in edges)
      modifies this, w, w.window, w.head, w.prev
      ensures Rle() && old(w.data) <= w.data && w.data + w.nextIn == old(w.data + w.nextIn)
      ensures state != NeedMore ==> flush != NoFlush && w.nextIn == [] && Pos() == |w.data|
      ensures ample ==> state == Ending(flush) && w.nextIn == [] && w.lookahead <= MAX_MATCH
      ensures finishing == old(finishing) && era == old(era) && edges == old(edges) && (state == FinishStarted || state == FinishDone ==> flush == Finish)
      ensures old(tokens) <= tokens && (state == NeedMore ==> old(tokens) < tokens || (w.nextIn == [] && w.lookahead <= MAX_MATCH))
    {
      hide RleFull, Tallied;
      while true
        invariant Rle() && old(w.data) <= w.data && w.data + w.nextIn == old(w.data + w.nextIn) && finishing == old(finishing) && era == old(era) && edges == old(edges)
        invariant old(tokens) <= tokens
        decreases |w.data| + |w.nextIn| - Pos()
      {
        RleFacts();
        if w.lookahead <= MAX_MATCH {
          RleRefill();
          RleFacts();
          if w.lookahead <= MAX_MATCH && flush == NoFlush { return NeedMore; }
          if w.lookahead == 0 { break; }
        }
        var bflush := RleStep();
        RleFacts();
        if bflush {
          var full := RleFlush(ample);
          if full { return NeedMore; }
        }
      }
      state := RleEnd(flush, ample);
    }

    // ----- full flush -----

    /** Full flush between two runs of deflate_fast: history is forgotten, what has been coded stays coded. */
    method FastForget()
      requires Fast()
      modifies this`era, w`strstart, w`insert, w`base, w`ins, w.head
      ensures Fast() && Pos() == old(Pos()) && w.lookahead == old(w.lookahead) && w.ins == {} && era == old(era) + 1
    {
      hide Covers, Window.Valid, Log;
      ghost var e := End(Fastest);
      w.Forget();
      era := era + 1;
      LogMove(Fastest, picks, tokens, w.data, Lims(), edges, e, End(Fastest));
    }

    /** The same for deflate_slow, which leaves nothing waiting when its input is used up. */
    method SlowForget()
      requires Slow() && !matchAvailable
      modifies this`era, w`strstart, w`insert, w`base, w`ins, w.head
      ensures Slow() && !matchAvailable && Coded() == old(Coded()) && w.lookahead == old(w.lookahead) && w.ins == {} && era == old(era) + 1
    {
      hide Covers, Window.Valid, Log;
      ghost var e := End(Lazy);
      w.Forget();
      era := era + 1;
      LogMove(Lazy, picks, tokens, w.data, Lims(), edges, e, End(Lazy));
    }

    /** The same for deflate_rle, all input coded. */
    method RleForget()
      requires Rle() && w.lookahead == 0
      modifies this`era, w`strstart, w`insert, w`base, w`ins, w.head
      ensures Rle() && Pos() == old(Pos()) && w.lookahead == old(w.lookahead) && w.ins == {} && era == old(era) + 1
    {
      hide Covers, Window.Filled, Window.Hashed, Log;
      ghost var e := End(Runs);
      w.Forget();
      era := era + 1;
      LogMove(Runs, picks, tokens, w.data, Lims(), edges, e, End(Runs));
    }

    // ----- calls -----

    ghost predicate State(k: Strategy)
      reads this, w, w.window, w.head, w.prev
    {
      match k case Fastest => Fast() case Lazy => Slow() case Runs => Rle()
    }

    /** How much of the input the tokens stand for. */
    ghost function CodedBy(k: Strategy): int
      reads this`matchAvailable, w`base, w`strstart
    {
      if k == Lazy then Coded() else Pos()
    }

    /** Between calls: the tokens stand for the input coded, and for all of it once the stream is being finished. */
    ghost predicate Running(k: Strategy)
      reads this, w, w.window, w.head, w.prev
    {
      State(k) && (finishing ==> w.nextIn == [] && CodedBy(k) == |w.data|)
    }

    lemma Starts(k: Strategy)
      requires Fast() && Slow() && Rle() && !finishing
      ensures Running(k)
    {
      hide Fast, Slow, Rle;
    }

    lemma RunningCovers(k: Strategy)
      requires Running(k)
      ensures 0 <= CodedBy(k) && Covers(tokens, w.MaxDist(), w.data, CodedBy(k)) && (k == Runs ==> RunsOnly(tokens)) && Logged(k)
    {
      hide Covers, Window.Valid, Window.Filled, Window.Hashed, Waiting, Log;
    }

    /** Nothing is left to look at once all input is coded. */
    lemma AllCoded(k: Strategy)
      requires State(k) && CodedBy(k) == |w.data|
      ensures w.lookahead == 0 && (k == Lazy ==> !matchAvailable)
    {
      hide Covers, Window.Valid, Window.Filled, Window.Hashed, Waiting, Tallied, Recorded;
      match k
      case Fastest => FastFacts();
      case Lazy => SlowFacts();
      case Runs => RleFacts();
    }

    /** Nothing but the input waiting changes when the caller supplies more. */
    method Feed(k: Strategy, more: seq<Byte>)
      requires State(k)
      modifies w`nextIn
      ensures State(k) && w.nextIn == old(w.nextIn) + more && CodedBy(k) == old(CodedBy(k))
    {
      hide Covers, Mirrors, Chains, AllBefore, Primed, Repeats, Log, Tried;
      w.Feed(more);
    }

    /** The match finder of the strategy. */
    method Find(k: Strategy, flush: Flush, ample: bool) returns (state: BlockState)
      requires State(k) && (flush != NoFlush ==> |w.data| + |w.nextIn| in edges)
      modifies this, w, w.window, w.head, w.prev
      ensures State(k) && old(w.data) <= w.data && w.data + w.nextIn == old(w.data + w.nextIn) && finishing == old(finishing)
      ensures era == old(era) && edges == old(edges) && (ample ==> state == Ending(flush) && w.nextIn == [])
      ensures old(tokens) <= tokens && (state == NeedMore ==> old(tokens) < tokens || w.nextIn == [])
      ensures state != NeedMore ==> w.nextIn == [] && CodedBy(k) == |w.data|
      ensures state == FinishStarted || state == FinishDone ==> flush == Finish
    {
      hide Fast, Slow, Rle;
      match k
      case Fastest => state := DeflateFast(flush, ample);
      case Lazy => state := DeflateSlow(flush, ample);
      case Runs => state := DeflateRle(flush, ample);
    }

    /** Full flush: all input so far is coded. */
    method ForgetAll(k: Strategy)
      requires State(k) && CodedBy(k) == |w.data|
      modifies this`era, w`strstart, w`insert, w`base, w`ins, w.head
      ensures State(k) && CodedBy(k) == old(CodedBy(k)) && w.ins == {} && era == old(era) + 1
    {
      hide Covers, Window.Valid, Window.Filled, Window.Hashed, Tallied, Waiting, Recorded;
      AllCoded(k);
      match k
      case Fastest => FastForget();
      case Lazy => SlowForget();
      case Runs => RleForget();
    }

    /** A flush: matches are looked for up to the end of the input so far. */
    ghost method AddEdge(k: Strategy)
      requires State(k)
      modifies this`edges
      ensures State(k) && edges == old(edges) + {|w.data| + |w.nextIn|}
    {
      hide Covers, Window.Valid, Window.Filled, Window.Hashed, Waiting, Log, Tried;
      ghost var e := edges;
      edges := edges + {|w.data| + |w.nextIn|};
      assert w.data + [] == w.data;
      LogMore(k, picks, tokens, w.data, Lims(), e, End(k), [], edges);
      if k == Lazy && matchAvailable { TriedMore(waiting, w.data, Lims(), e, [], edges); }
    }

    /** One call of deflate, whose caller may have ample room for its output. Input after the first call with Finish is refused. */
    method Deflate(k: Strategy, more: seq<Byte>, flush: Flush, ample: bool) returns (ok: bool)
      requires Running(k)
      modifies this, w, w.window, w.head, w.prev
      ensures Running(k) && ok == (!old(finishing) || more == [])
      ensures w.data + w.nextIn == old(w.data + w.nextIn) + if ok then more else []
      ensures old(w.data) <= w.data && (old(finishing) ==> finishing) && (finishing && !old(finishing) ==> flush == Finish)
      ensures old(tokens) <= tokens && (ok ==> old(tokens) < tokens || w.nextIn == [])
      ensures ok && ample ==> w.nextIn == [] && (flush != NoFlush ==> CodedBy(k) == |w.data|) && (flush == Finish ==> finishing)
      ensures edges == old(edges) + if ok && flush != NoFlush then {|w.data| + |w.nextIn|} else {}
      ensures era == old(era) || (flush == FullFlush && era == old(era) + 1)
    {
      hide State, CodedBy;
      ok := true;
      if finishing { AllCoded(k); }
      if finishing && w.nextIn + more != [] { return false; }
      assert w.data + (w.nextIn + more) == w.data + w.nextIn + more;
      Feed(k, more);
      if flush != NoFlush { AddEdge(k); }
      if w.nextIn != [] || w.lookahead != 0 || (flush != NoFlush && !finishing) {
        var state := Find(k, flush, ample);
        if state == FinishStarted || state == FinishDone { Finishing(k); }
        if state == BlockDone && flush == FullFlush { ForgetAll(k); }
      }
    }

    method Finishing(k: Strategy)
      requires State(k) && w.nextIn == [] && CodedBy(k) == |w.data|
      modifies this`finishing
      ensures Running(k) && finishing && w.nextIn == [] && CodedBy(k) == |w.data|
    {
      hide Covers, Window.Valid, Window.Filled, Window.Hashed, Waiting, Log, Tallied;
      finishing := true;
    }

    // ----- the end of a call -----

    /** The byte still waiting when the input ends; the buffer has room, and is emptied next. */
    method LastLiteral()
      requires Slow() && matchAvailable && w.lookahead == 0
      modifies this`tokens, this`lastLit, this`matchAvailable, this`picks
      ensures w.Valid() && Waiting() && Recorded(Pos()) && !matchAvailable && Held() && Logged(Lazy)
      ensures old(tokens) <= tokens
    {
      hide Covers, Repeats, Mirrors, Chains, AllBefore, Primed, HashAt, Log, Tried;
      w.FilledFacts();
      MirrorAt(w.window[..], w.data, w.base, w.strstart + w.lookahead, w.strstart - 1);
      var bflush := TallyLit(w.window[w.strstart - 1], Coded());
      matchAvailable := false;
      ghost var p := Pick(waiting, waiting);
      LogAdd(Lazy, picks, old(tokens), w.data, Lims(), edges, p, Lit(w.data[p.at.pos]), Here());
      picks := picks + [p];
    }

    /** The block state after all input has been coded. */
    method LastBlock(flush: Flush, ghost pos: nat, ample: bool) returns (state: BlockState)
      requires Recorded(pos) && flush != NoFlush
      modifies this`lastLit
      ensures Tallied(pos) && (ample ==> state == Ending(flush)) && (state == FinishStarted || state == FinishDone ==> flush == Finish)
    {
      if flush == Finish {
        var full := FlushBlock(pos, ample);
        return if full then FinishStarted else FinishDone;
      }
      if lastLit > 0 {
        var full := FlushBlock(pos, ample);
        if full { return NeedMore; }
      }
      return BlockDone;
    }

    lemma TalliedRecorded(pos: nat)
      requires Tallied(pos)
      ensures Recorded(pos) && maxChainLength >= 4 && w.Sizes()
    {}
  }

  /** The byte before p is not repeated more than n times. */
  lemma RunEnds(w: seq<Byte>, p: int, n: nat, m: nat)
    requires 1 <= p && p + n < |w| && w[p + n] != w[p - 1 + n] && m > n
    ensures !Repeats(w, p - 1, p, m)
  {
    assert !SameByte(w, p - 1, p, n);
  }

  lemma NoRepeat(w: seq<Byte>, p: int)
    requires 1 <= p <= |w|
    ensures Repeats(w, p - 1, p, 0)
  {}

  /** One more repetition of the byte before p. */
  lemma RepeatOne(w: seq<Byte>, p: int, n: int)
    requires 1 <= p && 0 <= n && p + n < |w| && (Repeats(w, p - 1, p, n) || n == 0)
    ensures Repeats(w, p - 1, p, n) && w[p + n] == w[p - 1 + n] ==> Repeats(w, p - 1, p, n + 1)
  {
    if Repeats(w, p - 1, p, n) { RepeatsNext(w, p - 1, p, n); }
  }
}
