/** The sliding window and hash chains of the compressor. */
module DeflateWindow {
  import opened Rotations
  import opened Words
  import opened Lz77
  import opened HashChains

  const MIN_LOOKAHEAD: nat := MAX_MATCH + MIN_MATCH + 1
  const WIN_INIT: nat := MAX_MATCH

  /** The window holds the stream from position base on, up to window index end. */
  ghost predicate Mirrors(window: seq<Byte>, data: seq<Byte>, base: nat, end: nat) {
    end <= |window| && base + end == |data| && forall i :: 0 <= i < end ==> window[i] == data[base..][i]
  }

  lemma MirrorAt(window: seq<Byte>, data: seq<Byte>, base: nat, end: nat, i: nat)
    requires Mirrors(window, data, base, end) && i < end
    ensures window[i] == data[base + i]
  {
    assert window[i] == data[base..][i];
  }

  lemma MirrorsMore(window: seq<Byte>, window': seq<Byte>, data: seq<Byte>, base: nat, end: nat, more: seq<Byte>)
    requires Mirrors(window, data, base, end) && |window'| == |window| && end + |more| <= |window|
    requires window'[..end] == window[..end] && window'[end..end + |more|] == more
    ensures Mirrors(window', data + more, base, end + |more|)
  {
    forall i | 0 <= i < end + |more| ensures window'[i] == (data + more)[base..][i] {
      if i < end {
        assert window'[i] == window'[..end][i] == window[i] == data[base..][i];
      } else {
        assert window'[i] == window'[end..end + |more|][i - end];
      }
    }
  }

  lemma MirrorsSlide(window: seq<Byte>, window': seq<Byte>, data: seq<Byte>, base: nat, end: nat, n: nat)
    requires Mirrors(window, data, base, end) && |window| == |window'| == 2 * n && n <= end
    requires window'[..n] == window[n..]
    ensures Mirrors(window', data, base + n, end - n)
  {
    forall i | 0 <= i < end - n ensures window'[i] == data[base + n..][i] {
      assert window'[i] == window[n..][i] == window[i + n] == data[base..][i + n];
    }
  }

  lemma MirrorsSame(window: seq<Byte>, window': seq<Byte>, data: seq<Byte>, base: nat, end: nat)
    requires Mirrors(window, data, base, end) && |window'| == |window| && window'[..end] == window[..end]
    ensures Mirrors(window', data, base, end)
  {
    forall i | 0 <= i < end ensures window'[i] == data[base..][i] { assert window'[i] == window'[..end][i] == window[i]; }
  }

  /** Stream positions from lo on and before hi. */
  ghost function Span(lo: int, hi: int): set<nat>
    decreases hi
  {
    if hi <= lo || hi <= 0 then {} else Span(lo, hi - 1) + {hi - 1}
  }

  lemma SpanNext(lo: int, hi: nat)
    requires lo <= hi
    ensures Span(lo, hi + 1) == Span(lo, hi) + {hi}
  {}

  lemma SpanNone(lo: int, hi: int)
    requires hi <= lo
    ensures Span(lo, hi) == {}
  {}

  lemma {:induction false} SpanHas(lo: int, hi: int, a: nat)
    ensures a in Span(lo, hi) <==> lo <= a < hi
    decreases hi
  {
    if lo < hi && 0 < hi { SpanHas(lo, hi - 1, a); }
  }

  lemma SpanJoin(lo: int, mid: int, hi: int)
    requires lo <= mid <= hi
    ensures Span(lo, hi) == Span(lo, mid) + Span(mid, hi)
  {
    hide Span;
    forall a: nat ensures a in Span(lo, hi) <==> a in Span(lo, mid) + Span(mid, hi) {
      SpanHas(lo, hi, a);
      SpanHas(lo, mid, a);
      SpanHas(mid, hi, a);
    }
  }

  lemma SpanGrows(s: set<nat>, t: set<nat>, u: set<nat>, lo: int, mid: int, hi: int)
    requires t == s + Span(lo, mid) && u == t + Span(mid, hi) && lo <= mid <= hi
    ensures u == s + Span(lo, hi)
  {
    hide Span;
    SpanJoin(lo, mid, hi);
  }

  ghost predicate NoneBelow(ins: set<nat>, base: nat) {
    forall a :: a in ins ==> base <= a
  }

  class Window {
    const wSize: nat
    const hashBits: nat
    const window: array<Byte>
    const prev: array<nat>
    const head: array<nat>
    var insH: nat
    var strstart: nat
    var lookahead: nat
    var insert: nat
    var matchStart: int
    var highWater: nat
    var nextIn: seq<Byte>
    ghost var data: seq<Byte>
    ghost var base: nat
    ghost var ins: set<nat>

    /** Largest distance of a match. */
    function MaxDist(): int { wSize - MIN_LOOKAHEAD }

    ghost predicate Sizes() {
      512 <= wSize <= 32768 && HashSizes(hashBits) && head.Length == Pow2(hashBits) && prev.Length == wSize &&
      window.Length == 2 * wSize && head != prev
    }

    /** The window mirrors the input read so far. */
    ghost predicate Filled()
      reads this`strstart, this`lookahead, this`data, this`base, this`highWater, window
    {
      Sizes() && highWater <= 2 * wSize && Mirrors(window[..], data, base, strstart + lookahead)
    }

    /** The chains are sound, every inserted string starts before the strings still to be inserted, and until matches
        can reach as far back as they ever may, all of them are in the window. */
    ghost predicate Hashed()
      reads this`strstart, this`insert, this`data, this`base, this`ins, head, prev
    {
      Chains(head[..], prev[..], data, base, strstart, ins, hashBits) && insert <= 2 && insert <= strstart &&
      AllBefore(ins, base + strstart - insert) && (strstart < MaxDist() ==> NoneBelow(ins, base))
    }

    /** With three bytes ahead the running hash is ready for the string at strstart; the strings still to be inserted are short
        of bytes. */
    ghost predicate Ready()
      reads this`strstart, this`lookahead, this`insert, this`data, this`base, this`insH
    {
      (insert > 0 ==> lookahead + insert < MIN_MATCH) &&
      (lookahead >= MIN_MATCH ==>
        base + strstart + 2 <= |data| && Primed(insH, data[base + strstart], data[base + strstart + 1], hashBits))
    }

    ghost predicate Valid()
      reads this, window, head, prev
    {
      Filled() && Hashed() && Ready()
    }

    constructor (wSize: nat, hashBits: nat)
      requires 512 <= wSize <= 32768 && HashSizes(hashBits)
      ensures Valid() && data == [] && base == 0 && strstart == 0 && lookahead == 0 && nextIn == []
      ensures this.wSize == wSize && this.hashBits == hashBits && ins == {} && fresh(window) && fresh(head) && fresh(prev)
    {
      this.wSize, this.hashBits := wSize, hashBits;
      window := new Byte[2 * wSize];
      prev := new nat[wSize];
      head := new nat[Pow2(hashBits)];
      insH, strstart, lookahead, insert, matchStart, highWater, nextIn := 0, 0, 0, 0, 0, 0, [];
      data, base, ins := [], 0, {};
      new;
      ClearHash();
    }

    /** CLEAR_HASH: forget all strings. */
    method ClearHash()
      requires Sizes()
      modifies this`ins, head
      ensures ins == {} && Chains(head[..], prev[..], data, base, strstart, ins, hashBits)
    {
      for i := 0 to head.Length
        modifies head
        invariant forall h :: 0 <= h < i ==> head[h] == NIL
      {
        head[i] := NIL;
      }
      ins := {};
      ChainsEmpty(head[..], prev[..], data, base, strstart, hashBits);
    }

    // ----- sliding -----

    /** Moves the upper half of the window down and every chain entry with it. */
    method Slide()
      requires Filled() && Hashed() && strstart >= wSize + MaxDist()
      modifies this`strstart, this`matchStart, this`base, window, head, prev
      ensures Filled() && Hashed() && base == old(base) + wSize && strstart == old(strstart) - wSize && matchStart == old(matchStart) - wSize
    {
      hide Mirrors, Chains, AllBefore;
      ghost var was, end := window[..], strstart + lookahead;
      MirrorsFits(was, data, base, end);
      CopyDown();
      MirrorsSlide(was, window[..], data, base, end, wSize);
      ChainsSlide(head[..], prev[..], data, base, strstart, ins, hashBits);
      matchStart := matchStart - wSize;
      strstart := strstart - wSize;
      base := base + wSize;
      SlideTable(head, wSize);
      SlideTable(prev, wSize);
    }

    method CopyDown()
      requires Sizes()
      modifies window
      ensures window[..wSize] == old(window[wSize..])
    {
      for i := 0 to wSize
        invariant forall k :: 0 <= k < i ==> window[k] == old(window[wSize..])[k]
        invariant forall k :: wSize <= k < 2 * wSize ==> window[k] == old(window[k])
      {
        assert window[wSize + i] == old(window[wSize..])[i];
        window[i] := window[wSize + i];
      }
    }

    // ----- reading -----

    /** Takes input into the free end of the window. */
    method ReadBuf(more: nat) returns (n: nat)
      requires Filled() && more == 2 * wSize - lookahead - strstart
      modifies this`lookahead, this`nextIn, this`data, window
      ensures Filled() && n == (if |old(nextIn)| > more then more else |old(nextIn)|) && lookahead == old(lookahead) + n
      ensures nextIn == old(nextIn)[n..] && data == old(data) + old(nextIn)[..n]
    {
      hide Mirrors;
      ghost var was, end := window[..], strstart + lookahead;
      n := |nextIn|;
      if n > more { n := more; }
      for i := 0 to n
        modifies window
        invariant window[..end] == was[..end] && window[end..end + i] == nextIn[..i]
      {
        window[strstart + lookahead + i] := nextIn[i];
        assert window[end..end + i + 1] == nextIn[..i] + [nextIn[i]];
        assert nextIn[..i + 1] == nextIn[..i] + [nextIn[i]];
      }
      MirrorsMore(was, window[..], data, base, end, nextIn[..n]);
      data := data + nextIn[..n];
      nextIn := nextIn[n..];
      lookahead := lookahead + n;
    }
  
    // ----- hashing -----

    /** INSERT_STRING for the string at window index str: returns the previous head of its chain. */
    method InsertString(str: nat) returns (hashHead: nat)
      requires Filled() && str <= strstart && Chains(head[..], prev[..], data, base, strstart, ins, hashBits) && AllBefore(ins, base + str)
      requires str + MIN_MATCH <= strstart + lookahead && base + str + 3 <= |data| && Primed(insH, data[base + str], data[base + str + 1], hashBits)
      modifies this`insH, this`ins, head, prev
      ensures Filled() && Chains(head[..], prev[..], data, base, strstart, ins, hashBits) && AllBefore(ins, base + str + 1)
      ensures base + str + 3 <= |data| && Primed(insH, data[base + str + 1], data[base + str + 2], hashBits)
      ensures ins == old(ins) + {base + str} && Candidate(hashHead, str)
    {
      hide Mirrors, Chains, AllBefore, Primed, UpdateHash, Hash3;
      MirrorsFits(window[..], data, base, strstart + lookahead);
      MirrorAt(window[..], data, base, strstart + lookahead, str + 2);
      PrimedHash(insH, data, base + str, hashBits);
      PrimedNext(insH, data[base + str], data[base + str + 1], data[base + str + 2], hashBits);
      insH := UpdateHash(insH, window[str + (MIN_MATCH - 1)], hashBits);
      ChainsInsert(head[..], prev[..], data, base, strstart, str, ins, hashBits, insH);
      hashHead := head[insH];
      ghost var h1, p1 := head[..][insH := str], prev[..][Slot(str, wSize) := hashHead];
      prev[Slot(str, wSize)] := hashHead;
      head[insH] := str;
      assert head[..] == h1 && prev[..] == p1;
      ins := ins + {base + str};
    }

    /** The latest string inserted before the one at str with the same hash, NIL if the window has none. */
    ghost predicate Candidate(m: nat, str: nat)
      reads this`data, this`base, this`ins
    {
      base + str + 3 <= |data| && Latest(m, HashAt(data, base + str, hashBits), base + str, data, base, ins, hashBits)
    }

    /** Once enough input is there, the strings left over from before are inserted. */
    method InitHash()
      requires Filled() && Hashed() && strstart <= 2 * wSize - MIN_MATCH
      modifies this`insH, this`insert, this`ins, head, prev
      ensures Filled() && Hashed() && Ready() && insert <= old(insert)
      ensures ins == old(ins) + Span(base + strstart - old(insert), base + strstart - insert)
    {
      hide Mirrors, Chains, AllBefore, Primed, UpdateHash, Span;
      SpanNone(base + strstart - insert, base + strstart - insert);
      if lookahead + insert >= MIN_MATCH {
        var str := strstart - insert;
        MirrorsFits(window[..], data, base, strstart + lookahead);
        MirrorAt(window[..], data, base, strstart + lookahead, str);
        MirrorAt(window[..], data, base, strstart + lookahead, str + 1);
        PrimedFresh(data[base + str], data[base + str + 1], hashBits);
        insH := window[str];
        insH := UpdateHash(insH, window[str + 1], hashBits);
        InsertLeft(str);
      }
    }

    method InsertLeft(from: nat)
      requires Filled() && Hashed() && from == strstart - insert && lookahead + insert >= MIN_MATCH
      requires base + from + 2 <= |data| && Primed(insH, data[base + from], data[base + from + 1], hashBits)
      modifies this`insH, this`insert, this`ins, head, prev
      ensures Filled() && Hashed() && Ready() && insert <= old(insert)
      ensures ins == old(ins) + Span(base + from, base + strstart - insert)
    {
      hide Mirrors, Chains, AllBefore, Primed, Span, Candidate;
      var str := from;
      SpanNone(base + from, base + from);
      while insert > 0
        invariant Filled() && Hashed() && str == strstart - insert && insert <= old(insert) && lookahead + insert >= MIN_MATCH
        invariant base + str + 2 <= |data| && Primed(insH, data[base + str], data[base + str + 1], hashBits)
        invariant ins == old(ins) + Span(base + from, base + str)
        decreases insert
      {
        FilledFacts();
        var _ := InsertString(str);
        SpanNext(base + from, base + str);
        str := str + 1;
        insert := insert - 1;
        if lookahead + insert < MIN_MATCH { break; }
      }
    }

    // ----- filling -----

    /** Refills the lookahead, sliding the window when it is almost full.  Positions in the stream do not move. */
    method FillWindow()
      requires Filled() && Hashed() && lookahead < MIN_LOOKAHEAD
      modifies this`insH, this`strstart, this`lookahead, this`insert, this`matchStart, this`highWater, this`nextIn,
               this`data, this`base, this`ins, window, head, prev
      ensures Filled() && Hashed() && (old(Ready()) ==> Ready()) && (lookahead >= MIN_LOOKAHEAD || nextIn == [])
      ensures strstart < wSize + MaxDist() && (base == old(base) || strstart >= MaxDist())
      ensures base + strstart == old(base + strstart) && base + matchStart == old(base + matchStart)
      ensures old(data) <= data && data + nextIn == old(data + nextIn) && lookahead >= old(lookahead) && insert <= old(insert)
      ensures ins == old(ins) + Span(base + strstart - old(insert), base + strstart - insert)
    {
      hide Filled, Hashed, Ready, Span;
      TakeAll();
      ZeroAhead();
    }

    /** As much input as there is room for, until the lookahead suffices. */
    method TakeAll()
      requires Filled() && Hashed() && lookahead < MIN_LOOKAHEAD
      modifies this`insH, this`strstart, this`lookahead, this`insert, this`matchStart, this`nextIn,
               this`data, this`base, this`ins, window, head, prev
      ensures Filled() && Hashed() && (old(Ready()) ==> Ready()) && (lookahead >= MIN_LOOKAHEAD || nextIn == [])
      ensures strstart < wSize + MaxDist() && (base == old(base) || strstart >= MaxDist())
      ensures base + strstart == old(base + strstart) && base + matchStart == old(base + matchStart)
      ensures old(data) <= data && data + nextIn == old(data + nextIn) && lookahead >= old(lookahead) && insert <= old(insert)
      ensures ins == old(ins) + Span(base + strstart - old(insert), base + strstart - insert)
    {
      hide Filled, Hashed, Ready, Span, Sizes, Mirrors;
      FilledFacts();
      SpanNone(base + strstart - insert, base + strstart - insert);
      while true
        invariant Filled() && Hashed() && (old(Ready()) ==> Ready()) && lookahead < MIN_LOOKAHEAD
        invariant base + strstart == old(base + strstart) && base + matchStart == old(base + matchStart) && (base == old(base) || strstart >= MaxDist())
        invariant old(data) <= data && data + nextIn == old(data + nextIn) && lookahead >= old(lookahead) && insert <= old(insert)
        invariant ins == old(ins) + Span(base + strstart - old(insert), base + strstart - insert)
        decreases |nextIn|
      {
        FilledFacts();
        var more := 2 * wSize - lookahead - strstart;
        if strstart >= wSize + MaxDist() {
          SlideReady();
          more := more + wSize;
        }
        if |nextIn| == 0 { break; }
        assert more >= 2;
        ghost var left, had := insert, ins;
        Take(more);
        SpanGrows(old(ins), had, ins, base + strstart - old(insert), base + strstart - left, base + strstart - insert);
        if lookahead >= MIN_LOOKAHEAD || |nextIn| == 0 { break; }
      }
    }

    lemma FilledFacts()
      requires Filled()
      ensures Sizes() && strstart + lookahead <= 2 * wSize && base + strstart + lookahead == |data|
    {}

    lemma ValidFacts()
      requires Valid()
      ensures Sizes() && strstart + lookahead <= 2 * wSize && base + strstart + lookahead == |data|
    {}

    method SlideReady()
      requires Filled() && Hashed() && strstart >= wSize + MaxDist()
      modifies this`strstart, this`matchStart, this`base, window, head, prev
      ensures Filled() && Hashed() && (old(Ready()) ==> Ready()) && base == old(base) + wSize && strstart == old(strstart) - wSize && matchStart == old(matchStart) - wSize
    {
      hide Filled, Hashed, Primed;
      Slide();
    }

    /** Reads, and brings the hash up to date. */
    method Take(more: nat)
      requires Filled() && Hashed() && more == 2 * wSize - lookahead - strstart && strstart <= 2 * wSize - MIN_MATCH
      modifies this`insH, this`lookahead, this`insert, this`nextIn, this`data, this`ins, window, head, prev
      ensures Valid() && lookahead >= old(lookahead) && insert <= old(insert)
      ensures old(data) <= data && data + nextIn == old(data + nextIn)
      ensures ins == old(ins) + Span(base + strstart - old(insert), base + strstart - insert)
      ensures |nextIn| == if |old(nextIn)| > more then |old(nextIn)| - more else 0
    {
      hide Filled, Ready, Chains, AllBefore;
      ghost var taken := if |nextIn| > more then more else |nextIn|;
      assert nextIn == nextIn[..taken] + nextIn[taken..];
      ChainsMore(head[..], prev[..], data, base, strstart, ins, hashBits, nextIn[..taken]);
      var n := ReadBuf(more);
      InitHash();
    }

    /** Clears the bytes after the data that have never been written, as far as a match may look. */
    method ZeroAhead()
      requires Filled()
      modifies this`highWater, window
      ensures Filled()
    {
      hide Mirrors;
      ghost var was, end := window[..], strstart + lookahead;
      MirrorsFits(was, data, base, end);
      if highWater < 2 * wSize {
        var curr := strstart + lookahead;
        if highWater < curr {
          var init := 2 * wSize - curr;
          if init > WIN_INIT { init := WIN_INIT; }
          ZeroRange(curr, init, end);
          highWater := curr + init;
        } else if highWater < curr + WIN_INIT {
          var init := curr + WIN_INIT - highWater;
          if init > 2 * wSize - highWater { init := 2 * wSize - highWater; }
          ZeroRange(highWater, init, end);
          highWater := highWater + init;
        }
      }
      MirrorsSame(was, window[..], data, base, end);
    }

    method ZeroRange(from: nat, n: nat, ghost end: nat)
      requires end <= from && from + n <= window.Length
      modifies window
      ensures window[..end] == old(window[..end])
    {
      for i := from to from + n
        invariant window[..end] == old(window[..end])
      {
        window[i] := 0;
      }
    }

    // ----- matching -----

    /** How far the strings at m and strstart agree, eight comparisons between checks for the end; the first three
        bytes are known to agree. */
    method MatchLength(m: nat) returns (len: nat)
      requires Repeats(window[..], m, strstart, MIN_MATCH) && strstart + MAX_MATCH < window.Length
      ensures len <= MAX_MATCH && Repeats(window[..], m, strstart, len)
      ensures len < MAX_MATCH ==> !SameByte(window[..], m, strstart, len)
    {
      hide Repeats;
      var scan, mat := strstart + 2, m + 2;
      var strend := strstart + MAX_MATCH;
      while true
        invariant strstart + 2 <= scan < strend && (strend - scan) % 8 == 0 && mat - m == scan - strstart
        invariant Repeats(window[..], m, strstart, scan - strstart + 1)
        decreases strend - scan
      {
        ghost var from := scan;
        var j := 0;
        while j < 8
          invariant 0 <= j <= 8 && scan == from + j && mat - m == scan - strstart
          invariant Repeats(window[..], m, strstart, scan - strstart + 1)
        {
          RepeatsNext(window[..], m, strstart, scan - strstart + 1);
          scan, mat := scan + 1, mat + 1;
          if window[scan] != window[mat] { return MAX_MATCH - (strend - scan); }
          j := j + 1;
        }
        if scan >= strend {
          RepeatsFewer(window[..], m, strstart, scan - strstart + 1, MAX_MATCH);
          return MAX_MATCH - (strend - scan);
        }
      }
    }
  
    /** The string at strstart has been inserted and is being matched. */
    ghost predicate Searching()
      reads this`strstart, this`lookahead, this`data, this`base, this`ins, this`highWater, window, head, prev
    {
      Filled() && Chains(head[..], prev[..], data, base, strstart, ins, hashBits) && lookahead >= MIN_MATCH &&
      strstart + MIN_LOOKAHEAD <= 2 * wSize
    }

    /** A match of n bytes at the current string, starting at window index m, which a slide may have moved below 0. */
    ghost predicate Matches(m: int, pos: int, n: nat)
      reads this`data, this`base
    {
      Repeats(data, base + m, base + pos, n) && pos - m <= MaxDist()
    }

    /** The earlier strings in the window with the hash of the current one, the latest first. */
    ghost function Candidates(): seq<nat>
      requires base + strstart + 3 <= |data|
      reads this`strstart, this`data, this`base, this`ins
    {
      Earlier(data, ins, HashAt(data, base + strstart, hashBits), base + strstart, base, hashBits)
    }

    /** The candidates in turn, until the budget is spent, one agrees in nice bytes, or the chain leaves the reach. */
    method Search(curMatch: nat, prevLength: nat, budget: nat, nice: nat) returns (bestLen: nat, ghost v: nat, ghost at: nat)
      requires Searching() && curMatch != NIL && Candidate(curMatch, strstart) && strstart - curMatch <= MaxDist()
      requires 1 <= prevLength <= MAX_MATCH && budget >= 1 && nice <= lookahead
      modifies this`matchStart
      ensures base + strstart + 3 <= |data| && prevLength <= bestLen <= MAX_MATCH && 0 < v <= |Candidates()|
      ensures SoFar(data, Candidates(), base + strstart, v, at, bestLen, base + matchStart, prevLength, lookahead)
      ensures bestLen > prevLength ==> strstart - matchStart <= MaxDist()
      ensures v == |Candidates()| || v == budget || (bestLen > prevLength && bestLen >= nice) ||
              base + strstart - Candidates()[v] >= MaxDist()
    {
      hide Repeats, Searching, Candidate, OnChain, Reached, SoFar, Chains, Slot, Earlier, HashAt, Mirrors;
      SearchFacts();
      var cur: nat, chainLength := curMatch, budget;
      bestLen := prevLength;
      var limit: nat := if strstart > MaxDist() then strstart - MaxDist() else NIL;
      var scanEnd1, scanEnd := window[strstart + bestLen - 1], window[strstart + bestLen];
      ghost var c, pos := Candidates(), base + strstart;
      v, at := 0, 0;
      ReachedFirst(cur);
      NoneYet(data, c, pos, prevLength, lookahead, base + matchStart);
      while true
        invariant v + chainLength == budget && chainLength >= 1 && limit <= cur
        invariant Reached(c, v, cur) && OnChain(cur) && v < |c| && c[v] == base + cur
        invariant bestLen > prevLength ==> bestLen < nice && strstart - matchStart <= MaxDist()
        invariant SoFar(data, c, pos, v, at, bestLen, base + matchStart, prevLength, lookahead)
        invariant prevLength <= bestLen <= MAX_MATCH
        invariant scanEnd1 == window[strstart + bestLen - 1] && scanEnd == window[strstart + bestLen]
        decreases chainLength
      {
        var len := TryMatch(cur, bestLen, scanEnd1, scanEnd);
        NextLonger(data, c, pos, v, at, bestLen, base + matchStart, prevLength, lookahead, len);
        v := v + 1;
        if len > bestLen {
          matchStart := cur;
          at := v - 1;
          bestLen := len;
          if len >= nice { return; }
          scanEnd1, scanEnd := window[strstart + bestLen - 1], window[strstart + bestLen];
        }
        ReachedNext(c, v - 1, cur);
        cur := prev[Slot(cur, wSize)];
        if cur <= limit { return; }
        chainLength := chainLength - 1;
        if chainLength == 0 { return; }
      }
    }

    /** Searches the chain for the longest match; only matches longer than prevLength are recorded.  The candidates are looked
        at latest first.  Nothing but the budget, a match long enough or the end of the reach ends the search. */
    method LongestMatch(curMatch: nat, prevLength: nat, goodMatch: nat, niceMatch: nat, maxChain: nat)
      returns (r: nat, ghost v: nat, ghost at: nat)
      requires Searching() && curMatch != NIL && Candidate(curMatch, strstart) && strstart - curMatch <= MaxDist()
      requires 1 <= prevLength <= MAX_MATCH && maxChain >= 4
      modifies this`matchStart
      ensures base + strstart + 3 <= |data| && r <= lookahead && r <= MAX_MATCH && (r >= prevLength || r == lookahead)
      ensures r > prevLength ==> Matches(matchStart, strstart, r) && Nearest(data, Candidates(), base + strstart, v, at, r, base + matchStart)
      ensures 0 < v <= |Candidates()| && (r < lookahead && r < MAX_MATCH ==> NoneLonger(data, Candidates(), base + strstart, v, r))
      ensures v == |Candidates()| || v == Budget(prevLength, goodMatch, maxChain) || (r > prevLength && r >= niceMatch) || r == lookahead ||
              base + strstart - Candidates()[v] >= MaxDist()
    {
      hide Repeats, NoneLonger, Nearest, SoFar, Searching, Candidate, Matches, Candidates, Chains, Mirrors;
      var chainLength, nice := maxChain, niceMatch;
      if prevLength >= goodMatch { chainLength := chainLength / 4; }
      if nice > lookahead { nice := lookahead; }
      var bestLen;
      bestLen, v, at := Search(curMatch, prevLength, chainLength, nice);
      Longest(data, Candidates(), base + strstart, v, at, bestLen, base + matchStart, prevLength, lookahead);
      r := if bestLen <= lookahead then bestLen else lookahead;
      if r > prevLength { NearestMatches(v, at, r); }
    }

    lemma NearestMatches(v: nat, at: nat, r: nat)
      requires base + strstart + 3 <= |data| && Nearest(data, Candidates(), base + strstart, v, at, r, base + matchStart)
      requires strstart - matchStart <= MaxDist()
      ensures Matches(matchStart, strstart, r)
    {}

    lemma SearchFacts()
      requires Searching()
      ensures 512 <= wSize == prev.Length && window.Length == 2 * wSize && lookahead >= MIN_MATCH && strstart + MIN_LOOKAHEAD <= 2 * wSize && base + strstart + lookahead == |data|
      ensures Filled()
    {}

    /** An earlier string in the window with the hash of the current one. */
    ghost predicate OnChain(m: nat)
      reads this`strstart, this`data, this`base, this`ins
    {
      m != NIL && m < strstart && base + m in ins && base + strstart + 3 <= |data| &&
      HasHash(data, base + m, HashAt(data, base + strstart, hashBits), hashBits)
    }

    /** The candidates after the one at m. */
    ghost function Rest(m: nat): seq<nat>
      requires base + strstart + 3 <= |data|
      reads this`strstart, this`data, this`base, this`ins
    {
      Earlier(data, ins, HashAt(data, base + strstart, hashBits), base + m, base, hashBits)
    }

    /** Candidate v is at window index m. */
    ghost predicate Reached(c: seq<nat>, v: nat, m: nat)
      reads this`strstart, this`data, this`base, this`ins
    {
      OnChain(m) && v < |c| && c[v] == base + m && c[v + 1..] == Rest(m)
    }

    lemma ReachedFirst(m: nat)
      requires Candidate(m, strstart) && m != NIL
      ensures base + strstart + 3 <= |data| && Reached(Candidates(), 0, m) && OnChain(m) && |Candidates()| > 0 && Candidates()[0] == base + m
    {
      hide HashAt, HasHash;
      ChainEarlier(m, HashAt(data, base + strstart, hashBits), base + strstart, data, base, ins, hashBits);
    }

    /** The link of a string on the chain within reach leads to the next candidate. */
    lemma ReachedNext(c: seq<nat>, v: nat, m: nat)
      requires Searching() && Reached(c, v, m) && strstart - m <= MaxDist()
      ensures m < 2 * wSize && v < |c| && c[v] == base + m
      ensures var q := prev[Slot(m, wSize)];
              if q == NIL then v + 1 == |c| else Reached(c, v + 1, q) && OnChain(q) && v + 1 < |c| && c[v + 1] == base + q
    {
      hide Chains, Mirrors, HashAt, HasHash;
      FilledFacts();
      var h := HashAt(data, base + strstart, hashBits);
      FollowLink(head[..], prev[..], data, base, strstart, ins, hashBits, m, h);
      ChainEarlier(prev[Slot(m, wSize)], h, base + m, data, base, ins, hashBits);
      assert c[v + 1..] == Rest(m);
      if prev[Slot(m, wSize)] != NIL { assert c[v + 2..] == c[v + 1..][1..]; }
    }

    /** One candidate: compared in full only if the two bytes that would make it longer and the first two agree.  Bytes after
        the input so far do not matter. */
    method TryMatch(cur: nat, bestLen: nat, scanEnd1: Byte, scanEnd: Byte) returns (len: nat)
      requires Searching() && OnChain(cur) && 1 <= bestLen <= MAX_MATCH
      requires strstart + bestLen < window.Length && scanEnd1 == window[strstart + bestLen - 1] && scanEnd == window[strstart + bestLen]
      ensures len <= MAX_MATCH && (len > bestLen ==> Repeats(data, base + cur, base + strstart, Lesser(len, lookahead)))
      ensures Greater(len, bestLen) < Lesser(MAX_MATCH, lookahead) ==> !Repeats(data, base + cur, base + strstart, Greater(len, bestLen) + 1)
    {
      hide Chains, Mirrors, Repeats, Searching, HashAt, SameByte;
      SearchFacts();
      if window[cur + bestLen] != scanEnd || window[cur + bestLen - 1] != scanEnd1 ||
         window[cur] != window[strstart] || window[cur + 1] != window[strstart + 1]
      {
        Differs(cur, bestLen);
        if bestLen < lookahead { BothAgree(cur, bestLen + 1); }
        return 0;
      }
      ThreeAgree(cur);
      len := MatchLength(cur);
      var most := if len > bestLen then len else bestLen;
      if len < MAX_MATCH { Differ(window[..], cur, strstart, len, most); }
      if most < lookahead { BothAgree(cur, most + 1); }
      var n := if len <= lookahead then len else lookahead;
      RepeatsFewer(window[..], cur, strstart, len, n);
      BothAgree(cur, n);
    }

    /** As far as there is input, the window agrees where the input does. */
    lemma BothAgree(m: nat, n: nat)
      requires Filled() && m < strstart && n <= lookahead
      ensures Repeats(window[..], m, strstart, n) == Repeats(data, base + m, base + strstart, n)
    {
      hide Chains, Mirrors;
      var end := strstart + lookahead;
      MirrorsFits(window[..], data, base, end);
      if Repeats(data, base + m, base + strstart, n) {
        forall k | 0 <= k < n ensures SameByte(window[..], m, strstart, k) {
          assert SameByte(data, base + m, base + strstart, k);
          MirrorAt(window[..], data, base, end, m + k);
          MirrorAt(window[..], data, base, end, strstart + k);
        }
      }
      if Repeats(window[..], m, strstart, n) { WindowToData(window[..], data, base, end, m, strstart, n); }
    }

    lemma Differs(cur: nat, n: nat)
      requires 1 <= n && cur < strstart && strstart + n < window.Length
      requires window[cur + n] != window[strstart + n] || window[cur + n - 1] != window[strstart + n - 1] ||
               window[cur] != window[strstart] || window[cur + 1] != window[strstart + 1]
      ensures !Repeats(window[..], cur, strstart, n + 1)
    {
      hide Repeats;
      var k := if window[cur + n] != window[strstart + n] then n else if window[cur + n - 1] != window[strstart + n - 1] then n - 1 else
               if window[cur] != window[strstart] then 0 else 1;
      Differ(window[..], cur, strstart, k, n);
    }

    /** Equal hashes and two equal bytes make the third equal, which is why it is not compared. */
    lemma ThreeAgree(m: nat)
      requires Searching() && OnChain(m)
      requires window[m] == window[strstart] && window[m + 1] == window[strstart + 1]
      ensures Repeats(window[..], m, strstart, MIN_MATCH)
    {
      hide Hash3;
      var end := strstart + lookahead;
      var a, b := base + m, base + strstart;
      MirrorsFits(window[..], data, base, end);
      MirrorAt(window[..], data, base, end, m);
      MirrorAt(window[..], data, base, end, m + 1);
      MirrorAt(window[..], data, base, end, m + 2);
      MirrorAt(window[..], data, base, end, strstart);
      MirrorAt(window[..], data, base, end, strstart + 1);
      MirrorAt(window[..], data, base, end, strstart + 2);
      ThirdByte(data[a], data[a + 1], data[a + 2], data[b + 2], hashBits);
      forall k | 0 <= k < 3 ensures SameByte(window[..], m, strstart, k) {}
    }
  
    // ----- moving on -----

    /** The string at strstart, if there are three bytes of it, has been inserted. */
    ghost predicate Inserted()
      reads this`strstart, this`lookahead, this`insert, this`insH, this`data, this`base, this`ins, this`highWater, window, head, prev
    {
      Filled() && Chains(head[..], prev[..], data, base, strstart, ins, hashBits) && insert <= 2 && insert <= strstart &&
      (strstart < MaxDist() ==> NoneBelow(ins, base)) && (insert > 0 ==> lookahead + insert < MIN_MATCH) &&
      if lookahead < MIN_MATCH then AllBefore(ins, base + strstart - insert)
      else base + strstart + 3 <= |data| && AllBefore(ins, base + strstart + 1) &&
           Primed(insH, data[base + strstart + 1], data[base + strstart + 2], hashBits)
    }

    lemma InsertedFacts()
      requires Inserted()
      ensures Sizes() && strstart + lookahead <= 2 * wSize && base + strstart + lookahead == |data| && Filled()
    {}

    lemma InsertedSearching()
      requires Inserted() && lookahead >= MIN_MATCH && strstart + MIN_LOOKAHEAD <= 2 * wSize
      ensures Searching()
    {}

    /** Inserts the string at strstart and sets hashHead to the head of its chain. */
    method Enter() returns (hashHead: nat)
      requires Valid()
      modifies this`insH, this`ins, head, prev
      ensures Inserted() && (if lookahead >= MIN_MATCH then Candidate(hashHead, strstart) else hashHead == NIL)
      ensures ins == old(ins) + if lookahead >= MIN_MATCH then {base + strstart} else {}
    {
      hide Mirrors, Chains, AllBefore, Primed, HashAt;
      hashHead := NIL;
      FilledFacts();
      if lookahead >= MIN_MATCH { hashHead := InsertString(strstart); }
    }

    /** One byte on. */
    method Step()
      requires Inserted() && lookahead > 0
      modifies this`strstart, this`lookahead
      ensures Valid() && strstart == old(strstart) + 1 && lookahead == old(lookahead) - 1
    {
      hide Mirrors, Chains, Primed, HashAt;
      FilledFacts();
      ChainsAdvance(head[..], prev[..], data, base, strstart, strstart + 1, ins, hashBits);
      strstart := strstart + 1;
      lookahead := lookahead - 1;
    }

    /** On over a match, inserting every string in it. */
    method StepInserting(n: nat)
      requires Inserted() && n >= 1 && n + MIN_MATCH <= lookahead
      modifies this`strstart, this`lookahead, this`insH, this`ins, head, prev
      ensures Valid() && strstart == old(strstart) + n && lookahead == old(lookahead) - n
      ensures ins == old(ins) + Span(base + old(strstart) + 1, base + strstart)
    {
      hide Filled, Hashed, Ready, Inserted, Span, Candidate;
      var matchLength := n - 1;
      Step();
      SpanNone(base + strstart, base + strstart);
      while matchLength != 0
        invariant Valid() && strstart + matchLength == old(strstart) + n && lookahead == old(lookahead) + old(strstart) - strstart
        invariant ins == old(ins) + Span(base + old(strstart) + 1, base + strstart)
        decreases matchLength
      {
        var _ := Enter();
        SpanNext(base + old(strstart) + 1, base + strstart);
        Step();
        matchLength := matchLength - 1;
      }
    }

    /** On over a long match without inserting; the running hash is started afresh. */
    method StepOver(n: nat)
      requires Inserted() && MIN_MATCH <= n <= lookahead && strstart + n + 1 < 2 * wSize
      modifies this`strstart, this`lookahead, this`insH
      ensures Valid() && strstart == old(strstart) + n && lookahead == old(lookahead) - n
    {
      hide Mirrors, Chains, Primed, HashAt, UpdateHash;
      FilledFacts();
      ChainsAdvance(head[..], prev[..], data, base, strstart, strstart + n, ins, hashBits);
      strstart := strstart + n;
      lookahead := lookahead - n;
      if lookahead >= MIN_MATCH {
        MirrorAt(window[..], data, base, strstart + lookahead, strstart);
        MirrorAt(window[..], data, base, strstart + lookahead, strstart + 1);
        PrimedFresh(data[base + strstart], data[base + strstart + 1], hashBits);
      }
      insH := window[strstart];
      insH := UpdateHash(insH, window[strstart + 1], hashBits);
    }

    /** On over a match, inserting the strings that have three bytes. */
    method StepToLimit(n: nat)
      requires Inserted() && 1 <= n <= lookahead
      modifies this`strstart, this`lookahead, this`insH, this`ins, head, prev
      ensures Valid() && strstart == old(strstart) + n && lookahead == old(lookahead) - n
      ensures ins == old(ins) + Span(base + old(strstart) + 1, Lesser(base + strstart, |data| - 2))
    {
      hide Filled, Hashed, Ready, Inserted, Span, Candidate;
      var count := n - 1;
      Step();
      ValidFacts();
      SpanNone(base + strstart, Lesser(base + strstart, |data| - 2));
      while count != 0
        invariant Valid() && strstart + count == old(strstart) + n && lookahead == old(lookahead) + old(strstart) - strstart
        invariant ins == old(ins) + Span(base + old(strstart) + 1, Lesser(base + strstart, |data| - 2))
        decreases count
      {
        ValidFacts();
        var _ := Enter();
        SpanNext(base + old(strstart) + 1, base + strstart);
        Step();
        count := count - 1;
      }
    }

    /** All input so far has been coded: the last two strings are still to be inserted. */
    method EndRun()
      requires Valid() && lookahead == 0
      modifies this`insert
      ensures Valid() && insert == if strstart < 2 then strstart else 2
    {
      hide Mirrors, Primed;
      FilledFacts();
      insert := if strstart < MIN_MATCH - 1 then strstart else MIN_MATCH - 1;
    }

    /** The caller supplies more input. */
    method Feed(more: seq<Byte>)
      modifies this`nextIn
      ensures nextIn == old(nextIn) + more
    {
      nextIn := nextIn + more;
    }

    /** Full flush: history is forgotten, and the window starts over if nothing is waiting in it. */
    method Forget()
      requires Valid() || (Filled() && Hashed() && lookahead == 0)
      modifies this`strstart, this`insert, this`base, this`ins, head
      ensures Valid() && base + strstart == old(base + strstart) && lookahead == old(lookahead)
      ensures ins == {}
    {
      hide Mirrors, Chains, Primed;
      FilledFacts();
      ClearHash();
      if lookahead == 0 {
        base := base + strstart;
        strstart := 0;
        insert := 0;
        ChainsRestart(head[..], prev[..], data, base, hashBits);
        MirrorsNothing(window[..], data, base);
      }
    }

    lemma ChainsRestart(head: seq<nat>, prev: seq<nat>, data: seq<Byte>, base: nat, bits: nat)
      requires exists b, p: nat :: Chains(head, prev, data, b, p, {}, bits)
      ensures Chains(head, prev, data, base, 0, {}, bits)
    {
      var b, p: nat :| Chains(head, prev, data, b, p, {}, bits);
      forall h | 0 <= h < |head| ensures Latest(head[h], h, |data|, data, base, {}, bits) { assert Latest(head[h], h, |data|, data, b, {}, bits); }
    }
  }

  lemma MirrorsNothing(window: seq<Byte>, data: seq<Byte>, base: nat)
    requires base == |data|
    ensures Mirrors(window, data, base, 0)
  {}

  lemma WindowToData(window: seq<Byte>, data: seq<Byte>, base: nat, end: nat, m: int, p: int, n: nat)
    requires Mirrors(window, data, base, end) && Repeats(window, m, p, n) && p + n <= end
    ensures Repeats(data, base + m, base + p, n)
  {
    var a, b := base + m, base + p;
    forall k | 0 <= k < n ensures SameByte(data, a, b, k) {
      assert SameByte(window, m, p, k);
      MirrorAt(window, data, base, end, m + k);
      MirrorAt(window, data, base, end, p + k);
    }
  }

  lemma RepeatsNext(w: seq<Byte>, m: int, p: int, n: int)
    requires Repeats(w, m, p, n)
    ensures 0 <= m < p && p + n <= |w| && (p + n < |w| && w[m + n] == w[p + n] ==> Repeats(w, m, p, n + 1))
  {
    if p + n < |w| && w[m + n] == w[p + n] {
      forall k | 0 <= k < n + 1 ensures SameByte(w, m, p, k) { if k < n { assert SameByte(w, m, p, k); } }
    }
  }

  lemma MirrorsFits(window: seq<Byte>, data: seq<Byte>, base: nat, end: nat)
    requires Mirrors(window, data, base, end)
    ensures end <= |window| && base + end == |data|
  {}

  lemma PrimedHash(h: nat, data: seq<Byte>, a: nat, bits: nat)
    requires a + 3 <= |data| && Primed(h, data[a], data[a + 1], bits)
    ensures UpdateHash(h, data[a + 2], bits) == HashAt(data, a, bits) < Pow2(bits)
  {
    hide UpdateHash;
    HashInRange(h, data[a + 2], bits);
  }

  method SlideTable(t: array<nat>, wSize: nat)
    modifies t
    ensures t[..] == Slid(old(t[..]), wSize)
  {
    var n := t.Length;
    while n > 0
      invariant 0 <= n <= t.Length
      invariant forall k :: 0 <= k < n ==> t[k] == old(t[k])
      invariant forall k :: n <= k < t.Length ==> t[k] == Slid(old(t[..]), wSize)[k]
    {
      n := n - 1;
      var m := t[n];
      t[n] := if m >= wSize then m - wSize else NIL;
    }
  }
}
