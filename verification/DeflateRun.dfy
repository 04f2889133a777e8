/** Runs of calls of deflate, and what inflate makes of their tokens. */
module DeflateRun {
  import opened Rotations
  import opened Words
  import opened Bits
  import opened InflateBits
  import opened HashChains
  import opened MatchChoice
  import opened Deflate
  import opened DeflateFormat
  import opened InflateBlocks
  import opened InflateElements
  import opened Outcomes
  import opened InflateState
  import opened Lz77
  import R = InflateRun

  /** Nothing comes after the input with which the stream is finished. */
  predicate Orderly(inputs: seq<seq<Byte>>, flushes: seq<Flush>)
    requires |inputs| == |flushes|
  {
    forall i, j :: 0 <= i < j < |inputs| && flushes[i] == Finish ==> inputs[j] == []
  }

  /** The bits are those of the tokens, cut into blocks of any kinds, and whatever follows. */
  ghost predicate Encodes(blocks: seq<Part>, tokens: seq<Token>, r: bits, rest: bits) {
    blocks != [] && (forall k :: 0 <= k < |blocks| ==> Writable(blocks[k])) && AllTokens(blocks) == tokens &&
    r == StreamBits(blocks, 0) + rest
  }

  /** The input of the first calls up to one with a flush ends at e. */
  ghost predicate EdgeAt(e: nat, inputs: seq<seq<Byte>>, flushes: seq<Flush>, j: nat) {
    j < |inputs| && j < |flushes| && flushes[j] != NoFlush && e == |R.Concat(inputs[..j + 1])|
  }

  ghost predicate Edges(edges: set<nat>, inputs: seq<seq<Byte>>, flushes: seq<Flush>, i: nat) {
    forall e :: e in edges ==> exists j: nat :: j < i && EdgeAt(e, inputs, flushes, j)
  }

  /** Some call asks to finish the stream and has room for all of it. */
  predicate Finishes(flushes: seq<Flush>, amples: seq<bool>, i: nat) {
    exists j :: 0 <= j < i && j < |flushes| && j < |amples| && flushes[j] == Finish && amples[j]
  }

  /** A new stream, compressed in any number of calls: the tokens stand for the input coded, and once the stream is being
      finished for all input supplied.  Each token is the one the strategy chooses, with the input supplied up to a flush or as
      much as a match can use, among the strings inserted since the last full flush. */
  method DeflateAll(k: Strategy, wSize: nat, hashBits: nat, good: nat, lazy: nat, nice: nat, chain: nat, filtered: bool,
                    litBufsize: nat, inputs: seq<seq<Byte>>, flushes: seq<Flush>, amples: seq<bool>)
    returns (d: DeflateState)
    requires 512 <= wSize <= 32768 && HashSizes(hashBits) && chain >= 4 && litBufsize >= 2
    requires |inputs| == |flushes| == |amples| && Orderly(inputs, flushes)
    ensures d.Running(k) && fresh(d) && d.w.wSize == wSize && d.w.data + d.w.nextIn == R.Concat(inputs)
    ensures d.Lims() == Limits(d.w.MaxDist(), hashBits, good, lazy, nice, chain, filtered)
    ensures 0 <= d.CodedBy(k) && Covers(d.tokens, d.w.MaxDist(), d.w.data, d.CodedBy(k)) && (k == Runs ==> RunsOnly(d.tokens))
    ensures d.Logged(k) && Edges(d.edges, inputs, flushes, |inputs|) && (FullFlush in flushes || d.era == 0)
    ensures d.finishing ==> Legal(d.tokens, d.w.MaxDist()) && Expand(d.tokens) == R.Concat(inputs)
    ensures Finishes(flushes, amples, |inputs|) ==> d.finishing
  {
    hide Covers, Legal, Expand, DeflateState.CodedBy, DeflateState.State, DeflateState.Logged, Orderly, R.Concat, EdgeAt;
    d := new DeflateState(wSize, hashBits, good, lazy, nice, chain, filtered, litBufsize);
    d.Starts(k);
    NoParts(inputs);
    for i := 0 to |inputs|
      invariant d.Running(k) && fresh(d.w) && fresh(d.w.window) && fresh(d.w.head) && fresh(d.w.prev)
      invariant d.w.data + d.w.nextIn == R.Concat(inputs[..i])
      invariant d.finishing ==> exists j :: 0 <= j < i && flushes[j] == Finish
      invariant Finishes(flushes, amples, i) ==> d.finishing
      invariant Edges(d.edges, inputs, flushes, i) && (FullFlush in flushes || d.era == 0)
    {
      Later(inputs, flushes, i, d.finishing);
      R.ConcatNext(inputs, i);
      var ok := d.Deflate(k, inputs[i], flushes[i], amples[i]);
      NextEdge(inputs, flushes, i, d.w.data, d.w.nextIn);
    }
    assert inputs[..|inputs|] == inputs;
    d.RunningCovers(k);
    if d.finishing { CoversAll(d.tokens, d.w.MaxDist(), d.w.data, R.Concat(inputs)); }
  }

  lemma NextEdge(inputs: seq<seq<Byte>>, flushes: seq<Flush>, i: nat, data: seq<Byte>, next: seq<Byte>)
    requires i < |inputs| == |flushes| && data + next == R.Concat(inputs[..i + 1])
    ensures flushes[i] != NoFlush ==> EdgeAt(|data| + |next|, inputs, flushes, i)
  {}

  lemma NoParts(inputs: seq<seq<Byte>>)
    ensures R.Concat(inputs[..0]) == []
  {}

  lemma Later(inputs: seq<seq<Byte>>, flushes: seq<Flush>, i: nat, finishing: bool)
    requires |inputs| == |flushes| && Orderly(inputs, flushes) && i < |inputs| && (finishing ==> exists j :: 0 <= j < i && flushes[j] == Finish)
    ensures finishing ==> inputs[i] == []
  {}

  lemma CoversAll(tokens: seq<Token>, maxDist: nat, data: seq<Byte>, all: seq<Byte>)
    requires Covers(tokens, maxDist, data, |data|) && data + [] == all
    ensures Legal(tokens, maxDist) && Expand(tokens) == all
  {
    assert data[..|data|] == data;
  }

  /** Compressing and decompressing: a compressor fed any input in any portions, its tokens written as any blocks, and the
      bytes fed to a fresh decoder in any parts. */
  method DeflateInflate(k: Strategy, wSize: nat, hashBits: nat, good: nat, lazy: nat, nice: nat, chain: nat, filtered: bool,
                        litBufsize: nat, inputs: seq<seq<Byte>>, flushes: seq<Flush>, amples: seq<bool>,
                        wbits: nat, parts: seq<seq<Byte>>, rooms: seq<nat>, ghost blocks: seq<Part>, ghost rest: bits)
    returns (d: DeflateState, s: Inflate)
    requires 512 <= wSize <= 32768 && HashSizes(hashBits) && chain >= 4 && litBufsize >= 2
    requires |inputs| == |flushes| == |amples| && Orderly(inputs, flushes)
    requires wSize <= Pow2(wbits) && |rooms| == |parts| > 0
    ensures s.next <= |s.input| && s.put <= s.output.Length && (Finishes(flushes, amples, |inputs|) ==> d.finishing)
    ensures d.finishing && Encodes(blocks, d.tokens, Stream(R.Concat(parts)), rest) ==>
            && s.mode != BAD && s.Total() <= R.Concat(inputs)
            && (s.mode == CHECK ==> s.Total() == R.Concat(inputs) && FromByte(s.Rest()) == FromByte(rest))
            && (s.put < s.output.Length ==> s.mode == CHECK)
  {
    hide Pow2, Covers, Legal, Expand, Stream, R.Concat, StreamBits, Orderly, Writable, ReadBlocks, FromByte, DeflateState.CodedBy;
    d := DeflateAll(k, wSize, hashBits, good, lazy, nice, chain, filtered, litBufsize, inputs, flushes, amples);
    ghost var o;
    s, o := R.InflateAll(wbits, parts, rooms);
    if d.finishing && Encodes(blocks, d.tokens, Stream(R.Concat(parts)), rest) {
      BlocksRead(blocks, d.tokens, d.w.MaxDist(), Pow2(wbits), R.Concat(inputs), R.Concat(parts), rest);
    }
  }

  lemma BlocksRead(blocks: seq<Part>, tokens: seq<Token>, maxDist: nat, wsize: nat, data: seq<Byte>, bytes: seq<Byte>, rest: bits)
    requires Encodes(blocks, tokens, Stream(bytes), rest) && Legal(tokens, maxDist) && Expand(tokens) == data && maxDist <= wsize
    ensures ReadBlocks(wsize, false, Stream(bytes), []) == Done(data, FromByte(rest))
  {
    hide Legal, Expand, Stream, StreamBits, Writable, ReadBlocks, FromByte;
    R.EndsWhole(bytes, StreamBits(blocks, 0), rest);
    assert data[..|data|] == data;
    CoversFarther(tokens, maxDist, wsize, data, |data|);
    StreamReads(blocks, wsize, data, rest);
  }
}
