/** Coding tokens with a literal/length and a distance code, and decoding them with inflate's tables. */
module InflateTokens {
  import opened Words
  import opened Bits
  import opened Codes
  import opened InflateBits
  import opened InflateCodes
  import opened TableLayout
  import opened Inftrees
  import opened InflateElements
  import opened Outcomes
  import opened Lz77

  /** The last of the first n bases not above v. */
  function Range(base: seq<nat>, n: nat, v: nat): (i: nat)
    requires 0 < n <= |base| && base[0] <= v
    ensures i < n && base[i] <= v && (i + 1 < n ==> v < base[i + 1])
  {
    if n == 1 || base[n - 1] <= v then n - 1 else Range(base, n - 1, v)
  }

  /** Length codes 257 to 285 and distance codes 0 to 29, each with as many extra bits as its range needs. */
  function LengthCode(len: nat): (i: nat)
    requires MIN_MATCH <= len <= MAX_MATCH
    ensures i < 29
  {
    Range(LBASE, 29, len)
  }

  function DistanceCode(dist: nat): (i: nat)
    requires 1 <= dist <= 32768
    ensures i < 30
  {
    Range(DBASE, 30, dist)
  }

  /** A token that the two codes have codes for. */
  predicate Codable(lens: seq<nat>, dlens: seq<nat>, t: Token) {
    match t
    case Lit(c) => Occurs(lens, c)
    case Match(dist, len) =>
      && MIN_MATCH <= len <= MAX_MATCH && 1 <= dist <= 32768
      && Occurs(lens, 257 + LengthCode(len)) && Occurs(dlens, DistanceCode(dist))
  }

  lemma LengthFits(len: nat)
    requires MIN_MATCH <= len <= MAX_MATCH
    ensures var i := LengthCode(len);
            16 <= LEXT[i] < 32 && LBASE[i] <= len && len - LBASE[i] < Pow2(LEXT[i] - 16)
  {
    hide Range;
    var i := LengthCode(len);
    LengthRanges(i);
  }

  lemma LengthRanges(i: nat)
    requires i < 29
    ensures 16 <= LEXT[i] < 32 && (i < 28 ==> LBASE[i + 1] <= LBASE[i] + Pow2(LEXT[i] - 16))
  {
    assert Pow2(1) == 2 && Pow2(2) == 4 && Pow2(3) == 8 && Pow2(4) == 16 && Pow2(5) == 32;
  }

  lemma DistanceFits(dist: nat)
    requires 1 <= dist <= 32768
    ensures var i := DistanceCode(dist);
            16 <= DEXT[i] < 32 && DBASE[i] <= dist && dist - DBASE[i] < Pow2(DEXT[i] - 16)
  {
    hide Range, Pow2;
    var i := DistanceCode(dist);
    DistanceRanges(i);
  }

  lemma DistanceRanges(i: nat)
    requires i < 30
    ensures 16 <= DEXT[i] < 32
    ensures (if i < 29 then DBASE[i + 1] else 32769) <= DBASE[i] + Pow2(DEXT[i] - 16)
  {
    hide Pow2;
    SmallPowers();
    LargePowers();
  }

  datatype ExtraBits = ExtraBits(v: nat, n: nat)

  /** What a length code leaves to its extra bits. */
  function LengthExtra(len: nat): (x: ExtraBits)
    requires MIN_MATCH <= len <= MAX_MATCH
    ensures var i := LengthCode(len);
            LBASE[i] + x.v == len && LEXT[i] == 16 + x.n && x.n < 16 && x.v < Pow2(x.n)
  {
    LengthFits(len);
    var i := LengthCode(len);
    ExtraBits(len - LBASE[i], LEXT[i] - 16)
  }

  function DistanceExtra(dist: nat): (x: ExtraBits)
    requires 1 <= dist <= 32768
    ensures var i := DistanceCode(dist);
            DBASE[i] + x.v == dist && DEXT[i] == 16 + x.n && x.n < 16 && x.v < Pow2(x.n)
  {
    DistanceFits(dist);
    var i := DistanceCode(dist);
    ExtraBits(dist - DBASE[i], DEXT[i] - 16)
  }

  function DistanceBits(dlens: seq<nat>, dist: nat): bits
    requires 1 <= dist <= 32768 && Occurs(dlens, DistanceCode(dist))
  {
    CodeBits(dlens, DistanceCode(dist)) + Extra(DistanceExtra(dist).v, DistanceExtra(dist).n)
  }

  function TokenBits(lens: seq<nat>, dlens: seq<nat>, t: Token): bits
    requires Codable(lens, dlens, t)
  {
    match t
    case Lit(c) => CodeBits(lens, c)
    case Match(dist, len) =>
      CodeBits(lens, 257 + LengthCode(len)) + Extra(LengthExtra(len).v, LengthExtra(len).n) + DistanceBits(dlens, dist)
  }

  /** The bits of a block's tokens and its end. */
  function BlockBits(lens: seq<nat>, dlens: seq<nat>, tokens: seq<Token>): bits
    requires Occurs(lens, 256) && forall i :: 0 <= i < |tokens| ==> Codable(lens, dlens, tokens[i])
  {
    if tokens == [] then CodeBits(lens, 256)
    else TokenBits(lens, dlens, tokens[0]) + BlockBits(lens, dlens, tokens[1..])
  }

  /** A table in which every symbol is found. */
  ghost predicate Reads(t: seq<Entry>, root: nat, kind: Kind, lens: seq<nat>) {
    |lens| <= Symbols(kind) && Lengths(lens) && Finds(t, root, kind, lens)
  }

  /** A symbol's code is read as the symbol. */
  lemma ReadSymbol(t: seq<Entry>, root: nat, kind: Kind, lens: seq<nat>, s: nat, rest: bits)
    requires Reads(t, root, kind, lens) && Occurs(lens, s)
    ensures ReadCode(t, root, CodeBits(lens, s) + rest) == Found(Here(kind, s, 0).op, Here(kind, s, 0).val, rest)
  {
    hide Lookup, Here, Codes.Code, LowBits, Taken, Finds, RestInvalid, Hold, Longest, Shr;
    LongestBounds(lens, s);
    FindsCode(t, root, kind, lens, s, rest);
    assert (CodeBits(lens, s) + rest)[lens[s]..] == rest;
  }

  lemma ReadExtra(v: nat, n: nat, rest: bits)
    requires v < Pow2(n)
    ensures (Extra(v, n) + rest)[n..] == rest && Hold((Extra(v, n) + rest)[..n]) == v
  {
    HoldExtra(v, n);
    assert (Extra(v, n) + rest)[..n] == Extra(v, n);
  }

  /** A distance code with its extra bits is read as the distance. */
  lemma ReadDistance(tb: Tables, dlens: seq<nat>, dist: nat, len: nat, rest: bits)
    requires Reads(tb.distcode, tb.distbits, DISTS, dlens) && 1 <= dist <= 32768 && Occurs(dlens, DistanceCode(dist))
    ensures AtDist(tb, len, DistanceBits(dlens, dist) + rest) == Copy(dist, len, rest)
  {
    hide Reads, DistanceCode, Extra, CodeBits, Hold, ReadCode, Pow2, Here, DistanceExtra;
    var j, x := DistanceCode(dist), DistanceExtra(dist);
    ReadSymbol(tb.distcode, tb.distbits, DISTS, dlens, j, Extra(x.v, x.n) + rest);
    ReadExtra(x.v, x.n, rest);
    DistanceHere(j, x.n);
    assert DistanceBits(dlens, dist) + rest == CodeBits(dlens, j) + (Extra(x.v, x.n) + rest);
  }

  lemma DistanceHere(j: nat, n: nat)
    requires j < 30 && DEXT[j] == 16 + n && n < 16
    ensures Here(DISTS, j, 0) == Entry(16 + n, 0, DBASE[j]) && !Has(16 + n, 64)
  {}

  lemma LengthHere(i: nat, n: nat)
    requires i < 29 && LEXT[i] == 16 + n && n < 16
    ensures Here(LENS, 257 + i, 0) == Entry(16 + n, 0, LBASE[i]) && !Has(16 + n, 32) && !Has(16 + n, 64)
  {}

  lemma ReadMatch(tb: Tables, lens: seq<nat>, dlens: seq<nat>, dist: nat, len: nat, rest: bits)
    requires Reads(tb.lencode, tb.lenbits, LENS, lens) && Reads(tb.distcode, tb.distbits, DISTS, dlens)
    requires Codable(lens, dlens, Match(dist, len))
    ensures AtLen(tb, TokenBits(lens, dlens, Match(dist, len)) + rest) == Copy(dist, len, rest)
  {
    hide Reads, DistanceCode, LengthCode, Extra, CodeBits, Hold, ReadCode, Pow2, AtDist, Here, LengthExtra, DistanceBits, TokenBits;
    var i, x := LengthCode(len), LengthExtra(len);
    var distance := DistanceBits(dlens, dist) + rest;
    ReadDistance(tb, dlens, dist, len, rest);
    ReadExtra(x.v, x.n, distance);
    ReadSymbol(tb.lencode, tb.lenbits, LENS, lens, 257 + i, Extra(x.v, x.n) + distance);
    LengthHere(i, x.n);
    MatchBits(lens, dlens, dist, len, rest);
  }

  /** The parts of a coded match. */
  lemma MatchBits(lens: seq<nat>, dlens: seq<nat>, dist: nat, len: nat, rest: bits)
    requires Codable(lens, dlens, Match(dist, len))
    ensures var i, x := LengthCode(len), LengthExtra(len);
            TokenBits(lens, dlens, Match(dist, len)) + rest ==
            CodeBits(lens, 257 + i) + (Extra(x.v, x.n) + (DistanceBits(dlens, dist) + rest))
  {
    hide CodeBits, Extra, DistanceBits, LengthExtra, LengthCode, DistanceCode;
  }

  /** A coded token is read as the token, whatever follows. */
  lemma ReadToken(tb: Tables, lens: seq<nat>, dlens: seq<nat>, t: Token, rest: bits)
    requires Reads(tb.lencode, tb.lenbits, LENS, lens) && Reads(tb.distcode, tb.distbits, DISTS, dlens)
    requires Codable(lens, dlens, t)
    ensures AtLen(tb, TokenBits(lens, dlens, t) + rest) ==
            match t case Lit(c) => Literal(c, rest) case Match(dist, len) => Copy(dist, len, rest)
  {
    hide Reads, CodeBits, ReadCode, LengthCode, DistanceCode;
    match t
    case Lit(c) => ReadSymbol(tb.lencode, tb.lenbits, LENS, lens, c, rest);
    case Match(dist, len) => ReadMatch(tb, lens, dlens, dist, len, rest);
  }

  lemma ExpandNext(tokens: seq<Token>, i: nat, maxDist: nat)
    requires i < |tokens| && Legal(tokens, maxDist)
    ensures var out := Expand(tokens[..i]);
            match tokens[i]
            case Lit(c) => Expand(tokens[..i + 1]) == out + [c]
            case Match(dist, len) => 1 <= dist <= |out| && dist <= maxDist && Expand(tokens[..i + 1]) == CopyBack(out, dist, len)
  {
    LegalFront(tokens, i + 1, maxDist);
    assert tokens[..i + 1][..i] == tokens[..i];
  }

  lemma {:induction false} LegalFront(tokens: seq<Token>, i: nat, maxDist: nat)
    requires i <= |tokens| && Legal(tokens, maxDist)
    ensures Legal(tokens[..i], maxDist)
  {
    if i < |tokens| {
      LegalFront(tokens[..|tokens| - 1], i, maxDist);
      assert tokens[..|tokens| - 1][..i] == tokens[..i];
    } else {
      assert tokens[..i] == tokens;
    }
  }

  lemma {:induction false} BlockFrom(tb: Tables, lens: seq<nat>, dlens: seq<nat>, wsize: nat, tokens: seq<Token>, i: nat, rest: bits)
    requires Reads(tb.lencode, tb.lenbits, LENS, lens) && Reads(tb.distcode, tb.distbits, DISTS, dlens)
    requires i <= |tokens| && Legal(tokens, wsize) && Occurs(lens, 256)
    requires forall k :: i <= k < |tokens| ==> Codable(lens, dlens, tokens[k])
    ensures Finish(tb, wsize, AtLen(tb, BlockBits(lens, dlens, tokens[i..]) + rest), Expand(tokens[..i])) == Done(Expand(tokens), rest)
    decreases |tokens| - i
  {
    hide Reads, TokenBits, AtLen, Codable, CodeBits, ReadCode, CopyBack, Expand, Legal;
    if i == |tokens| {
      assert tokens[..i] == tokens && tokens[i..] == [];
      ReadEnd(tb, lens, rest);
    } else {
      var later := BlockBits(lens, dlens, tokens[i + 1..]) + rest;
      assert tokens[i..][0] == tokens[i] && tokens[i..][1..] == tokens[i + 1..];
      assert BlockBits(lens, dlens, tokens[i..]) + rest == TokenBits(lens, dlens, tokens[i]) + later;
      ReadToken(tb, lens, dlens, tokens[i], later);
      ExpandNext(tokens, i, wsize);
      BlockFrom(tb, lens, dlens, wsize, tokens, i + 1, rest);
    }
  }

  lemma ReadEnd(tb: Tables, lens: seq<nat>, rest: bits)
    requires Reads(tb.lencode, tb.lenbits, LENS, lens) && Occurs(lens, 256)
    ensures AtLen(tb, CodeBits(lens, 256) + rest) == Stop(rest)
  {
    hide Reads, CodeBits, ReadCode;
    ReadSymbol(tb.lencode, tb.lenbits, LENS, lens, 256, rest);
  }

  /** A coded block goes on with the output of the tokens before it, and the bits after it are left. */
  lemma BlockDecodes(tb: Tables, lens: seq<nat>, dlens: seq<nat>, wsize: nat, before: seq<Token>, tokens: seq<Token>, rest: bits)
    requires Reads(tb.lencode, tb.lenbits, LENS, lens) && Reads(tb.distcode, tb.distbits, DISTS, dlens)
    requires Legal(before + tokens, wsize) && Occurs(lens, 256)
    requires forall k :: 0 <= k < |tokens| ==> Codable(lens, dlens, tokens[k])
    ensures Finish(tb, wsize, AtLen(tb, BlockBits(lens, dlens, tokens) + rest), Expand(before)) == Done(Expand(before + tokens), rest)
  {
    hide Reads, AtLen, Codable, BlockBits, Legal, Finish, Expand;
    var all := before + tokens;
    assert all[|before|..] == tokens && all[..|before|] == before;
    BlockFrom(tb, lens, dlens, wsize, all, |before|, rest);
  }
}
