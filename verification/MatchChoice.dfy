/** Which matches the compressor takes.  A look is one search of the chain, with what was known and inserted at the time; the
    log of a run holds the looks behind every token. */
module MatchChoice {
  import opened Rotations
  import opened Lz77
  import opened HashChains
  import opened DeflateWindow

  const TOO_FAR: nat := 4096

  /** deflate_fast, deflate_slow and deflate_rle. */
  datatype Strategy = Fastest | Lazy | Runs

  /** What a level is made of. */
  datatype Limits = Limits(maxDist: int, bits: nat, good: nat, lazy: nat, nice: nat, chain: nat, filtered: bool)

  /** A search for a match of the string at pos longer than prev: the input known, the strings inserted since the history was
      last forgotten (era), where the window starts, and what was found; len == prev says that nothing longer was. */
  datatype Look = Look(pos: nat, known: nat, era: nat, base: nat, ins: set<nat>, prev: nat, len: nat, start: int)

  /** The looks behind a token: at its position and, where a match waits for the next string, at the one after. */
  datatype Pick = Pick(at: Look, after: Look)

  /** No match can be longer. */
  function Most(l: Look): int { Lesser(MAX_MATCH, l.known - l.pos) }

  /** The strings the chain leads to. */
  ghost function Candidates(l: Look, data: seq<Byte>, bits: nat): seq<nat> {
    if l.pos + 3 <= l.known <= |data| then Earlier(data, l.ins, HashAt(data, l.pos, bits), l.pos, l.base, bits) else []
  }

  /** Strings have been inserted up to this one, and those not in the window are out of reach. */
  ghost predicate Sound(l: Look, data: seq<Byte>, s: Limits) {
    l.base <= l.pos < l.known <= |data| && (forall a :: a in l.ins ==> a + 3 <= l.known) &&
    (l.pos + 3 <= l.known ==> l.pos in l.ins) && (l.pos < l.base + s.maxDist ==> NoneBelow(l.ins, l.base))
  }

  /** The search may end before candidate v: the budget is spent, no match can be longer, the match is good enough, or the rest
      is out of reach.  The first candidate may be one byte farther away than the others. */
  ghost predicate Stops(l: Look, c: seq<nat>, v: nat, s: Limits)
    requires v < |c|
  {
    v == Budget(l.prev, s.good, s.chain) || l.prev >= Most(l) || (l.len > l.prev && (l.len >= s.nice || l.len == Most(l))) ||
    l.pos - c[v] > s.maxDist || (v > 0 && l.pos - c[v] == s.maxDist)
  }

  /** The first v candidates were looked at, and the nearest of those that agree longest was found, if that is longer than prev. */
  ghost predicate Searched(l: Look, data: seq<Byte>, c: seq<nat>, v: nat, at: nat, s: Limits) {
    v <= |c| && (v < |c| ==> Stops(l, c, v, s)) && l.len >= l.prev && (l.len < Most(l) ==> NoneLonger(data, c, l.pos, v, l.len)) &&
    (l.len > l.prev ==> l.len <= Most(l) && Nearest(data, c, l.pos, v, at, l.len, l.start))
  }

  ghost predicate Best(l: Look, data: seq<Byte>, s: Limits) {
    exists v: nat, at: nat :: Searched(l, data, Candidates(l, data, s.bits), v, at, s)
  }

  /** Whoever agrees in more bytes than were found was inserted too long ago: the budget went on later strings with the same
      hash, unless what was found is good enough. */
  lemma Missed(l: Look, data: seq<Byte>, s: Limits, a: nat)
    requires Sound(l, data, s) && Best(l, data, s) && MIN_MATCH - 1 <= l.len < Most(l)
    requires a in l.ins && a < l.pos && a != l.base && l.pos - a < s.maxDist && Repeats(data, a, l.pos, l.len + 1)
    ensures (l.len > l.prev && l.len >= s.nice) ||
            |Earlier(data, l.ins, HashAt(data, l.pos, s.bits), l.pos, a, s.bits)| >= Budget(l.prev, s.good, s.chain)
  {
    hide Repeats, Earlier, HashAt;
    var h, c := HashAt(data, l.pos, s.bits), Candidates(l, data, s.bits);
    var v: nat, at: nat :| Searched(l, data, c, v, at, s);
    SameHash(data, a, l.pos, l.len + 1, s.bits);
    EarlierHas(data, l.ins, h, l.pos, l.base, s.bits, a);
    var i :| 0 <= i < |c| && c[i] == a;
    EarlierCut(data, l.ins, h, l.pos, l.base, s.bits, i);
    if v <= i { EarlierCut(data, l.ins, h, l.pos, l.base, s.bits, v); }
  }

  lemma SameHash(data: seq<Byte>, a: nat, p: nat, n: nat, bits: nat)
    requires Repeats(data, a, p, n) && n >= 3
    ensures a < p && p + 3 <= |data| && HasHash(data, a, HashAt(data, p, bits), bits)
  {
    hide Hash3;
    assert SameByte(data, a, p, 0) && SameByte(data, a, p, 1) && SameByte(data, a, p, 2);
  }

  // ----- one token -----

  function Size(t: Token): nat { match t case Lit(_) => 1 case Match(_, len) => len }

  /** There was as much input as a match can use, or all of it up to a flush. */
  ghost predicate Aware(l: Look, ahead: nat, edges: set<nat>) {
    l.known - l.pos >= ahead || l.known in edges
  }

  /** A look with enough input at hand. */
  ghost predicate Looked(l: Look, data: seq<Byte>, s: Limits, edges: set<nat>) {
    Sound(l, data, s) && Aware(l, MIN_LOOKAHEAD, edges) && Best(l, data, s)
  }

  /** deflate_fast records the best match there is, and a literal only if there is none. */
  ghost predicate Greedy(l: Look, t: Token, data: seq<Byte>, s: Limits, edges: set<nat>) {
    Looked(l, data, s, edges) && l.prev == MIN_MATCH - 1 &&
    t == if l.len >= MIN_MATCH then Match(l.pos - l.start, l.len) else Lit(data[l.pos])
  }

  /** One look of lazy evaluation: a long match ends the search for a longer one. */
  ghost predicate Tried(l: Look, data: seq<Byte>, s: Limits, edges: set<nat>) {
    Sound(l, data, s) && Aware(l, MIN_LOOKAHEAD, edges) && l.prev >= MIN_MATCH - 1 &&
    if l.prev < s.lazy then Best(l, data, s) else l.len == l.prev
  }

  /** A longer match was found, and it is worth having. */
  predicate Better(l: Look, s: Limits) {
    l.len > l.prev && !(l.len <= 5 && (s.filtered || (l.len == MIN_MATCH && l.pos - l.start > TOO_FAR)))
  }

  /** The look at the next string, while the match waits. */
  ghost predicate Next(after: Look, at: Look) {
    after.pos == at.pos + 1 && after.prev == at.len && after.era == at.era && at.ins <= after.ins
  }

  /** A match was found, and a longer one for the next string. */
  predicate Overtaken(p: Pick, s: Limits) {
    Better(p.at, s) && Better(p.after, s)
  }

  /** deflate_slow records a match exactly if there is one and the next string has no longer one. */
  ghost predicate Patient(p: Pick, t: Token, data: seq<Byte>, s: Limits, edges: set<nat>) {
    Tried(p.at, data, s, edges) && (Better(p.at, s) ==> Tried(p.after, data, s, edges) && Next(p.after, p.at)) &&
    t == if Better(p.at, s) && !Better(p.after, s) then Match(p.at.pos - p.at.start, p.at.len) else Lit(data[p.at.pos])
  }

  /** deflate_rle records a run of the previous byte as far as it goes, and a literal only if it is too short. */
  ghost predicate RunOf(l: Look, t: Token, data: seq<Byte>, edges: set<nat>) {
    l.base <= l.pos < l.known <= |data| && Aware(l, MAX_MATCH + 1, edges) &&
    (if l.len >= MIN_MATCH then l.base < l.pos && RunIs(data, l.pos, l.len, Most(l))
     else l.base == l.pos || Most(l) < MIN_MATCH || !Repeats(data, l.pos - 1, l.pos, MIN_MATCH)) &&
    t == if l.len >= MIN_MATCH then Match(1, l.len) else Lit(data[l.pos])
  }

  /** The byte before pos is repeated n times, up to most times. */
  ghost predicate RunIs(data: seq<Byte>, pos: nat, n: nat, most: int) {
    n <= most && Repeats(data, pos - 1, pos, n) && (n < most ==> !Repeats(data, pos - 1, pos, n + 1))
  }

  ghost predicate Chosen(k: Strategy, p: Pick, t: Token, data: seq<Byte>, s: Limits, edges: set<nat>) {
    match k
    case Fastest => Greedy(p.at, t, data, s, edges)
    case Lazy => Patient(p, t, data, s, edges)
    case Runs => RunOf(p.at, t, data, edges)
  }

  /** The strings within a match that are inserted with it: all of a short match, if three bytes follow it, for deflate_fast;
      those of which three bytes are known for deflate_slow. */
  ghost function Within(k: Strategy, p: Pick, t: Token, s: Limits): set<nat> {
    match t
    case Lit(_) => {}
    case Match(_, len) =>
      match k
      case Fastest => if len <= s.lazy && p.at.known - (p.at.pos + len) >= MIN_MATCH then Span(p.at.pos + 1, p.at.pos + len) else {}
      case Lazy => Span(p.at.pos + 1, Lesser(p.at.pos + len, p.after.known - 2))
      case Runs => {}
  }

  // ----- the log -----

  /** Where a run stands. */
  datatype Spot = Spot(pos: nat, era: nat, base: nat, ins: set<nat>)

  function SpotOf(l: Look): Spot { Spot(l.pos, l.era, l.base, l.ins) }

  /** From a token on: its strings stay inserted, and the window does not start over, until the history is forgotten. */
  ghost predicate Onward(l: Look, within: set<nat>, size: nat, e: Spot) {
    e.pos == l.pos + size && l.era <= e.era && (l.era == e.era ==> e.base < e.pos && l.ins + within <= e.ins)
  }

  /** The looks behind all tokens of a run, each in its place. */
  ghost predicate Log(k: Strategy, picks: seq<Pick>, tokens: seq<Token>, data: seq<Byte>, s: Limits, edges: set<nat>, e: Spot) {
    |picks| == |tokens| &&
    if picks == [] then e.pos == 0
    else
      var n := |picks| - 1;
      Chosen(k, picks[n], tokens[n], data, s, edges) && Onward(picks[n].at, Within(k, picks[n], tokens[n], s), Size(tokens[n]), e) &&
      (k == Lazy ==> Resumes(picks[..n], picks[n].at, s)) && Log(k, picks[..n], tokens[..n], data, s, edges, SpotOf(picks[n].at))
  }

  /** A longer match for the next string waits in its turn; otherwise nothing does. */
  ghost predicate Resumes(picks: seq<Pick>, l: Look, s: Limits) {
    if Free(picks, s) then l.prev == MIN_MATCH - 1 else l == picks[|picks| - 1].after
  }

  /** No longer match is waiting. */
  predicate Free(picks: seq<Pick>, s: Limits) {
    picks == [] || !Overtaken(picks[|picks| - 1], s)
  }

  lemma LogAdd(k: Strategy, picks: seq<Pick>, tokens: seq<Token>, data: seq<Byte>, s: Limits, edges: set<nat>, p: Pick, t: Token, e: Spot)
    requires Log(k, picks, tokens, data, s, edges, SpotOf(p.at)) && Chosen(k, p, t, data, s, edges)
    requires Onward(p.at, Within(k, p, t, s), Size(t), e) && (k == Lazy ==> Resumes(picks, p.at, s))
    ensures Log(k, picks + [p], tokens + [t], data, s, edges, e)
  {
    hide Chosen, Onward, Resumes, Within;
    var ps, ts := picks + [p], tokens + [t];
    assert ps[..|ps| - 1] == picks && ts[..|ts| - 1] == tokens;
  }

  /** Moving on without a token. */
  lemma LogMove(k: Strategy, picks: seq<Pick>, tokens: seq<Token>, data: seq<Byte>, s: Limits, edges: set<nat>, e: Spot, e': Spot)
    requires Log(k, picks, tokens, data, s, edges, e) && e.pos == e'.pos && e.era <= e'.era
    requires e.era == e'.era ==> e.ins <= e'.ins && (e.base < e.pos ==> e'.base < e.pos)
    ensures Log(k, picks, tokens, data, s, edges, e')
  {
    hide Chosen, Resumes, Within;
  }

  // ----- more input -----

  lemma CandidatesMore(l: Look, data: seq<Byte>, s: Limits, more: seq<Byte>)
    requires Sound(l, data, s)
    ensures Sound(l, data + more, s) && Candidates(l, data + more, s.bits) == Candidates(l, data, s.bits)
  {
    hide Hash3;
    if l.pos + 3 <= l.known { EarlierMore(data, l.ins, HashAt(data, l.pos, s.bits), l.pos, l.base, s.bits, more); }
  }

  lemma RepeatsStay(data: seq<Byte>, m: int, pos: int, n: int, more: seq<Byte>)
    requires pos + n <= |data|
    ensures Repeats(data + more, m, pos, n) == Repeats(data, m, pos, n)
  {
    if Repeats(data, m, pos, n) { RepeatsMore(data, m, pos, n, more); }
    if Repeats(data + more, m, pos, n) {
      forall k | 0 <= k < n ensures SameByte(data, m, pos, k) { assert SameByte(data + more, m, pos, k); }
    }
  }

  lemma BestMore(l: Look, data: seq<Byte>, s: Limits, more: seq<Byte>)
    requires Sound(l, data, s) && Best(l, data, s)
    ensures Best(l, data + more, s)
  {
    assert l.known <= |data|;
    hide Repeats, Stops, Sound;
    CandidatesMore(l, data, s, more);
    var c := Candidates(l, data, s.bits);
    var v: nat, at: nat :| Searched(l, data, c, v, at, s);
    forall m: nat, n: nat | l.pos + n <= |data| ensures Repeats(data + more, m, l.pos, n) == Repeats(data, m, l.pos, n) {
      RepeatsStay(data, m, l.pos, n, more);
    }
    assert Searched(l, data + more, c, v, at, s);
  }

  lemma TriedMore(l: Look, data: seq<Byte>, s: Limits, edges: set<nat>, more: seq<Byte>, edges': set<nat>)
    requires Tried(l, data, s, edges) && edges <= edges'
    ensures Tried(l, data + more, s, edges')
  {
    hide Best, Candidates, Sound;
    CandidatesMore(l, data, s, more);
    if l.prev < s.lazy { BestMore(l, data, s, more); }
  }

  lemma ChosenMore(k: Strategy, p: Pick, t: Token, data: seq<Byte>, s: Limits, edges: set<nat>, more: seq<Byte>, edges': set<nat>)
    requires Chosen(k, p, t, data, s, edges) && edges <= edges'
    ensures Chosen(k, p, t, data + more, s, edges')
  {
    hide Best, Candidates, Repeats;
    match k
    case Fastest =>
      CandidatesMore(p.at, data, s, more);
      BestMore(p.at, data, s, more);
    case Lazy =>
      TriedMore(p.at, data, s, edges, more, edges');
      if Better(p.at, s) { TriedMore(p.after, data, s, edges, more, edges'); }
    case Runs =>
      var l := p.at;
      if l.len <= Most(l) { RepeatsStay(data, l.pos - 1, l.pos, l.len, more); }
      if MIN_MATCH <= Most(l) { RepeatsStay(data, l.pos - 1, l.pos, MIN_MATCH, more); }
      if l.len < Most(l) { RepeatsStay(data, l.pos - 1, l.pos, l.len + 1, more); }
  }

  /** More input and further flushes do not change what was chosen. */
  lemma {:induction false} LogMore(k: Strategy, picks: seq<Pick>, tokens: seq<Token>, data: seq<Byte>, s: Limits, edges: set<nat>, e: Spot,
                                   more: seq<Byte>, edges': set<nat>)
    requires Log(k, picks, tokens, data, s, edges, e) && edges <= edges'
    ensures Log(k, picks, tokens, data + more, s, edges', e)
  {
    hide Chosen, Onward, Resumes, Within;
    if picks != [] {
      var n := |picks| - 1;
      ChosenMore(k, picks[n], tokens[n], data, s, edges, more, edges');
      LogMore(k, picks[..n], tokens[..n], data, s, edges, SpotOf(picks[n].at), more, edges');
    }
  }

  // ----- what a log says -----

  /** The position of a token is the length of what the tokens before it stand for. */
  lemma {:induction false} LogLength(k: Strategy, picks: seq<Pick>, tokens: seq<Token>, data: seq<Byte>, s: Limits, edges: set<nat>, e: Spot, maxDist: nat)
    requires Log(k, picks, tokens, data, s, edges, e) && Legal(tokens, maxDist)
    ensures |Expand(tokens)| == e.pos
  {
    hide Chosen, Resumes, Within;
    if picks != [] {
      var n := |picks| - 1;
      LogLength(k, picks[..n], tokens[..n], data, s, edges, SpotOf(picks[n].at), maxDist);
    }
  }

  /** Every token is the one chosen at its position. */
  lemma {:induction false} LogAt(k: Strategy, picks: seq<Pick>, tokens: seq<Token>, data: seq<Byte>, s: Limits, edges: set<nat>, e: Spot, maxDist: nat, i: nat)
    requires Log(k, picks, tokens, data, s, edges, e) && Legal(tokens, maxDist) && i < |tokens|
    ensures |picks| == |tokens| && Chosen(k, picks[i], tokens[i], data, s, edges) && picks[i].at.pos == |Expand(tokens[..i])|
    ensures picks[i].at.era <= e.era
    ensures picks[i].at.era == e.era ==> picks[i].at.ins + Within(k, picks[i], tokens[i], s) <= e.ins
  {
    hide Chosen, Resumes, Within, Expand;
    var n := |picks| - 1;
    var f := SpotOf(picks[n].at);
    if i < n {
      LogAt(k, picks[..n], tokens[..n], data, s, edges, f, maxDist, i);
      assert tokens[..n][..i] == tokens[..i];
    } else {
      LogLength(k, picks[..n], tokens[..n], data, s, edges, f, maxDist);
    }
  }

  /** What was inserted for a token is there for every later one, until the history is forgotten. */
  lemma {:induction false} LogKeeps(k: Strategy, picks: seq<Pick>, tokens: seq<Token>, data: seq<Byte>, s: Limits, edges: set<nat>, e: Spot, maxDist: nat,
                                    j: nat, i: nat)
    requires Log(k, picks, tokens, data, s, edges, e) && Legal(tokens, maxDist) && j < i < |tokens|
    ensures |picks| == |tokens| && picks[j].at.era <= picks[i].at.era
    ensures picks[j].at.era == picks[i].at.era ==> picks[j].at.ins + Within(k, picks[j], tokens[j], s) <= picks[i].at.ins
  {
    hide Chosen, Resumes, Within, Expand;
    var n := |picks| - 1;
    var f := SpotOf(picks[n].at);
    if i < n {
      LogKeeps(k, picks[..n], tokens[..n], data, s, edges, f, maxDist, j, i);
    } else {
      LogAt(k, picks[..n], tokens[..n], data, s, edges, f, maxDist, j);
    }
  }

  /** deflate_fast over a whole run: a string like the current one, longer than what is recorded, at the start of an earlier
      token or inserted within it, is passed over only if the match recorded is good enough or the budget was spent on
      later strings with the same hash. */
  lemma NothingMissed(picks: seq<Pick>, tokens: seq<Token>, data: seq<Byte>, s: Limits, edges: set<nat>, e: Spot, maxDist: nat,
                      j: nat, i: nat, a: nat)
    requires Log(Fastest, picks, tokens, data, s, edges, e) && Legal(tokens, maxDist) && |picks| == |tokens| && j < i < |tokens|
    requires picks[j].at.era == picks[i].at.era && a in picks[j].at.ins + Within(Fastest, picks[j], tokens[j], s)
    requires var n, p := Greater(Size(tokens[i]), MIN_MATCH - 1), |Expand(tokens[..i])|;
             n < Most(picks[i].at) && a < p && a != picks[i].at.base && p - a < s.maxDist && Repeats(data, a, p, n + 1)
    ensures var p := |Expand(tokens[..i])|;
            (tokens[i].Match? && tokens[i].len >= s.nice) ||
            (p + 3 <= |data| &&
             |Earlier(data, picks[i].at.ins, HashAt(data, p, s.bits), p, a, s.bits)| >= Budget(MIN_MATCH - 1, s.good, s.chain))
  {
    hide Log, Repeats, Earlier, Best, Sound, Within, Expand, HashAt;
    LogAt(Fastest, picks, tokens, data, s, edges, e, maxDist, i);
    LogKeeps(Fastest, picks, tokens, data, s, edges, e, maxDist, j, i);
    var l := picks[i].at;
    LooksLike(l, data, s);
    Missed(l, data, s, a);
  }

  lemma LooksLike(l: Look, data: seq<Byte>, s: Limits)
    requires Sound(l, data, s) && Best(l, data, s)
    ensures l.len >= l.prev && l.pos < l.known <= |data|
  {}
}
