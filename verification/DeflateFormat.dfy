/** Deflate streams as section 3.2 of RFC 1951 lays them out, and that reading them gives back what they were made from. */
module DeflateFormat {
  import opened Rotations
  import opened Words
  import opened Bits
  import opened Codes
  import opened InflateBits
  import opened InflateCodes
  import opened TableLayout
  import opened InflateElements
  import opened Outcomes
  import opened InflateTokens
  import opened InflateBlocks
  import opened FixedCodes
  import opened Lz77

  // ----- tables that read every code -----

  /** A code set that asks for no more than there is. */
  predicate Fits(kind: Kind, lens: seq<nat>) {
    |lens| <= Symbols(kind) && Lengths(lens) && Taken(lens) <= Pow2(MAXBITS)
  }

  lemma IdealReads(kind: Kind, lens: seq<nat>)
    requires Fits(kind, lens)
    ensures Reads(Ideal(kind, lens), MAXBITS, kind, lens)
  {
    hide Lookup, Here, Ideal, Taken, Pow2, Starts, Lengths;
    forall s: nat, hold: nat | Occurs(lens, s) && Starts(lens, s, hold)
      ensures Lookup(Ideal(kind, lens), MAXBITS, hold) == Hit(Here(kind, s, 0).op, Here(kind, s, 0).val, lens[s])
    {
      IdealFinds(kind, lens, s, hold);
    }
  }

  lemma IdealFinds(kind: Kind, lens: seq<nat>, s: nat, hold: nat)
    requires Fits(kind, lens) && Occurs(lens, s) && Starts(lens, s, hold)
    ensures Lookup(Ideal(kind, lens), MAXBITS, hold) == Hit(Here(kind, s, 0).op, Here(kind, s, 0).val, lens[s])
  {
    hide Lookup, Ideal, Taken, Pow2, Starts, LowBits, IdealEntry;
    IdealLookup(kind, lens, hold);
    var low := LowBits(hold, MAXBITS);
    BeginsLow(lens, s, hold);
    assert Begins(lens, s, low);
    var x := Picked(kind, lens, low);
    BeginsLow(lens, x, hold);
    if lens[x] <= lens[s] { OneCode(lens, x, s, hold); } else { OneCode(lens, s, x, hold); }
  }

  // ----- runs of code lengths -----

  /** The symbols of the code-length code: a length, the last one again, or zeros. */
  datatype Item = Len(n: nat) | Again(count: nat) | Zeros(count: nat) | ManyZeros(count: nat)

  function Symbol(i: Item): nat {
    match i case Len(n) => n case Again(_) => 16 case Zeros(_) => 17 case ManyZeros(_) => 18
  }

  predicate InRange(i: Item) {
    match i
    case Len(n) => n < 16
    case Again(count) => 3 <= count <= 6
    case Zeros(count) => 3 <= count <= 10
    case ManyZeros(count) => 11 <= count <= 138
  }

  /** The lengths that items stand for, after those in have. */
  function Expanded(have: seq<nat>, items: seq<Item>): seq<nat>
    decreases |items|
  {
    if items == [] then have
    else match items[0]
      case Len(n) => Expanded(have + [n], items[1..])
      case Again(count) => Expanded(have + Repeated(if have == [] then 0 else have[|have| - 1], count), items[1..])
      case Zeros(count) => Expanded(have + Repeated(0, count), items[1..])
      case ManyZeros(count) => Expanded(have + Repeated(0, count), items[1..])
  }

  /** Only something received can be repeated. */
  predicate Itemized(have: seq<nat>, items: seq<Item>) {
    (forall k :: 0 <= k < |items| ==> InRange(items[k])) && (items != [] && items[0].Again? ==> have != [])
  }

  function ItemBits(cl: seq<nat>, i: Item): bits
    requires Occurs(cl, Symbol(i)) && InRange(i)
  {
    CodeBits(cl, Symbol(i)) +
    if i.Len? then [] else Extra(i.count - RepeatBase(Symbol(i)), RepeatBits(Symbol(i)))
  }

  function ItemsBits(cl: seq<nat>, items: seq<Item>): bits
    requires forall k :: 0 <= k < |items| ==> Occurs(cl, Symbol(items[k])) && InRange(items[k])
  {
    if items == [] then [] else ItemBits(cl, items[0]) + ItemsBits(cl, items[1..])
  }

  lemma {:induction false} ExpandedGrows(have: seq<nat>, items: seq<Item>)
    ensures |have| <= |Expanded(have, items)|
    ensures items != [] && Itemized(have, items) ==> |have| < |Expanded(have, items)|
    decreases |items|
  {
    if items != [] {
      match items[0]
      case Len(n) => ExpandedGrows(have + [n], items[1..]);
      case Again(count) => ExpandedGrows(have + Repeated(if have == [] then 0 else have[|have| - 1], count), items[1..]);
      case Zeros(count) => ExpandedGrows(have + Repeated(0, count), items[1..]);
      case ManyZeros(count) => ExpandedGrows(have + Repeated(0, count), items[1..]);
    }
  }

  /** What one item adds. */
  function ItemLens(have: seq<nat>, i: Item): (s: seq<nat>) {
    match i
    case Len(n) => [n]
    case Again(count) => Repeated(if have == [] then 0 else have[|have| - 1], count)
    case Zeros(count) => Repeated(0, count)
    case ManyZeros(count) => Repeated(0, count)
  }

  lemma ExpandedNext(have: seq<nat>, items: seq<Item>)
    requires items != []
    ensures Expanded(have, items) == Expanded(have + ItemLens(have, items[0]), items[1..])
  {}

  /** One item is read as what it adds. */
  lemma ReadItem(t: seq<Entry>, root: nat, cl: seq<nat>, nlen: nat, ndist: nat, have: seq<nat>, i: Item, rest: bits)
    requires Reads(t, root, CODES, cl) && Sizes(nlen, ndist) && InRange(i) && Occurs(cl, Symbol(i)) && (i.Again? ==> have != [])
    requires |have| + |ItemLens(have, i)| <= nlen + ndist && |have| < nlen + ndist
    ensures ReadLens(t, root, nlen, ndist, have, ItemBits(cl, i) + rest) ==
            ReadLens(t, root, nlen, ndist, have + ItemLens(have, i), rest)
  {
    hide Reads, ReadCode, Hold, CodeBits, Extra, Pow2, EndLens;
    var x := Symbol(i);
    var after := (if i.Len? then [] else Extra(i.count - RepeatBase(x), RepeatBits(x))) + rest;
    assert x < |cl| <= 19 by { CodeSymbols(t, root, cl); }
    ReadSymbol(t, root, CODES, cl, x, after);
    assert ItemBits(cl, i) + rest == CodeBits(cl, x) + after;
    if i.Len? {
      assert after == rest;
    } else {
      assert i.count - RepeatBase(x) < Pow2(RepeatBits(x)) by { CountFits(i); }
      ReadExtra(i.count - RepeatBase(x), RepeatBits(x), rest);
    }
  }

  lemma CodeSymbols(t: seq<Entry>, root: nat, cl: seq<nat>)
    requires Reads(t, root, CODES, cl)
    ensures |cl| <= 19 <= Symbols(CODES)
  {}

  lemma CountFits(i: Item)
    requires InRange(i) && !i.Len?
    ensures i.count >= RepeatBase(Symbol(i)) && i.count - RepeatBase(Symbol(i)) < Pow2(RepeatBits(Symbol(i)))
  {
    assert Pow2(2) == 4 && Pow2(3) == 8 && Pow2(4) == 16 && Pow2(5) == 32 && Pow2(6) == 64 && Pow2(7) == 128;
  }

  lemma ItemSome(have: seq<nat>, i: Item)
    requires InRange(i)
    ensures |ItemLens(have, i)| > 0
  {}

  lemma {:induction false} ReadItems(t: seq<Entry>, root: nat, cl: seq<nat>, nlen: nat, ndist: nat, have: seq<nat>, items: seq<Item>, rest: bits)
    requires Reads(t, root, CODES, cl) && Sizes(nlen, ndist) && Itemized(have, items)
    requires forall k :: 0 <= k < |items| ==> Occurs(cl, Symbol(items[k]))
    requires |Expanded(have, items)| == nlen + ndist
    requires EndLens(Expanded(have, items)[..nlen], Expanded(have, items)[nlen..])
    ensures |have| <= nlen + ndist
    ensures ReadLens(t, root, nlen, ndist, have, ItemsBits(cl, items) + rest) ==
            Coded(Expanded(have, items)[..nlen], Expanded(have, items)[nlen..], rest)
    decreases |items|
  {
    hide Reads, ReadCode, EndLens, ItemBits, ItemLens, Occurs, Repeated;
    ExpandedGrows(have, items);
    if items == [] {
      assert ItemsBits(cl, items) + rest == rest;
    } else {
      var more := have + ItemLens(have, items[0]);
      ExpandedNext(have, items);
      ExpandedGrows(more, items[1..]);
      ItemSome(have, items[0]);
      ReadItem(t, root, cl, nlen, ndist, have, items[0], ItemsBits(cl, items[1..]) + rest);
      assert ItemsBits(cl, items) + rest == ItemBits(cl, items[0]) + (ItemsBits(cl, items[1..]) + rest);
      ReadItems(t, root, cl, nlen, ndist, more, items[1..], rest);
    }
  }

  // ----- the heading of a dynamic block -----

  function ThreeBits(values: seq<nat>): bits {
    if values == [] then [] else Extra(values[0], 3) + ThreeBits(values[1..])
  }

  /** How a dynamic block describes its codes. */
  datatype Plan = Plan(nlen: nat, ndist: nat, values: seq<nat>, items: seq<Item>)

  predicate Sane(p: Plan) {
    && Sizes(p.nlen, p.ndist) && 4 <= |p.values| <= 19 && (forall k :: 0 <= k < |p.values| ==> p.values[k] < 8)
    && Fits(CODES, Arranged(p.values)) && !Refused(CODES, Arranged(p.values), 7)
    && Itemized([], p.items) && (forall k :: 0 <= k < |p.items| ==> Occurs(Arranged(p.values), Symbol(p.items[k])))
    && |Expanded([], p.items)| == p.nlen + p.ndist && EndLens(PlanLens(p), PlanDists(p))
  }

  function PlanLens(p: Plan): seq<nat>
    requires p.nlen <= |Expanded([], p.items)|
  {
    Expanded([], p.items)[..p.nlen]
  }

  function PlanDists(p: Plan): seq<nat>
    requires p.nlen <= |Expanded([], p.items)|
  {
    Expanded([], p.items)[p.nlen..]
  }

  function PlanBits(p: Plan): bits
    requires Sane(p)
  {
    Extra(p.nlen - 257, 5) + Extra(p.ndist - 1, 5) + Extra(|p.values| - 4, 4) +
    ThreeBits(p.values) + ItemsBits(Arranged(p.values), p.items)
  }

  lemma {:induction false} ReadThreeBits(nlen: nat, ndist: nat, values: seq<nat>, i: nat, rest: bits)
    requires Sizes(nlen, ndist) && i <= |values| && forall k :: 0 <= k < |values| ==> values[k] < 8
    ensures ReadLenLens(nlen, ndist, |values|, values[..i], ThreeBits(values[i..]) + rest) == StartLens(nlen, ndist, values, rest)
    decreases |values| - i
  {
    hide StartLens, Extra, Hold;
    if i == |values| {
      assert values[..i] == values && values[i..] == [] && [] + rest == rest;
    } else {
      var later := ThreeBits(values[i + 1..]) + rest;
      assert values[i..][0] == values[i] && values[i..][1..] == values[i + 1..];
      assert ThreeBits(values[i..]) + rest == Extra(values[i], 3) + later;
      assert Pow2(3) == 8 by { ThreePow(); }
      ReadExtra(values[i], 3, later);
      assert values[..i] + [values[i]] == values[..i + 1];
      ReadThreeBits(nlen, ndist, values, i + 1, rest);
    }
  }

  lemma ThreePow()
    ensures Pow2(3) == 8 && Pow2(4) == 16 && Pow2(5) == 32
  {}

  lemma PlanCounts(p: Plan, later: bits)
    requires Sizes(p.nlen, p.ndist) && 4 <= |p.values| <= 19
    ensures var r := Extra(p.nlen - 257, 5) + Extra(p.ndist - 1, 5) + Extra(|p.values| - 4, 4) + later;
            && |r| >= 14 && Hold(r[..5]) == p.nlen - 257 && Hold(r[5..10]) == p.ndist - 1 && Hold(r[10..14]) == |p.values| - 4
            && r[14..] == later
  {
    hide Extra, Hold;
    ThreePow();
    var a, b, c := Extra(p.nlen - 257, 5), Extra(p.ndist - 1, 5), Extra(|p.values| - 4, 4);
    var r := a + b + c + later;
    assert r[..5] == a && r[5..10] == b && r[10..14] == c;
    HoldExtra(p.nlen - 257, 5);
    HoldExtra(p.ndist - 1, 5);
    HoldExtra(|p.values| - 4, 4);
  }

  lemma InRanges(have: seq<nat>, items: seq<Item>)
    requires Itemized(have, items)
    ensures forall k :: 0 <= k < |items| ==> InRange(items[k])
  {}

  /** A heading is read as the codes it describes. */
  lemma ReadPlan(p: Plan, rest: bits)
    requires Sane(p)
    ensures ReadTable(PlanBits(p) + rest) == Coded(PlanLens(p), PlanDists(p), rest)
  {
    hide Extra, Hold, ReadLens, ReadLenLens, Refused, EndLens, Expanded, Itemized, Arranged, Ideal, Fits, ThreeBits, ItemsBits;
    var cl := Arranged(p.values);
    InRanges([], p.items);
    var items := ItemsBits(cl, p.items) + rest;
    PlanCounts(p, ThreeBits(p.values) + items);
    assert PlanBits(p) + rest ==
      Extra(p.nlen - 257, 5) + Extra(p.ndist - 1, 5) + Extra(|p.values| - 4, 4) + (ThreeBits(p.values) + items);
    ReadThreeBits(p.nlen, p.ndist, p.values, 0, items);
    assert p.values[..0] == [] && p.values[0..] == p.values;
    IdealReads(CODES, cl);
    ReadItems(Ideal(CODES, cl), MAXBITS, cl, p.nlen, p.ndist, [], p.items, rest);
  }

  // ----- blocks -----

  /** A block: bytes as they are, or tokens in the fixed codes or in codes of its own. */
  datatype Part = Raw(data: seq<Byte>) | Fixed(tokens: seq<Token>) | Dynamic(plan: Plan, tokens: seq<Token>)

  function Literals(data: seq<Byte>): (t: seq<Token>)
    ensures |t| == |data|
  {
    seq(|data|, k requires 0 <= k < |data| => Lit(data[k]))
  }

  /** The tokens a block stands for. */
  function PartTokens(p: Part): seq<Token> {
    if p.Raw? then Literals(p.data) else p.tokens
  }

  ghost predicate Writable(p: Part) {
    match p
    case Raw(data) => |data| < 0x1_0000
    case Fixed(tokens) => forall k :: 0 <= k < |tokens| ==> Codable(FixedLens(), FixedDists(), tokens[k])
    case Dynamic(plan, tokens) =>
      Sane(plan) && Fits(LENS, PlanLens(plan)) && Fits(DISTS, PlanDists(plan)) &&
      forall k :: 0 <= k < |tokens| ==> Codable(PlanLens(plan), PlanDists(plan), tokens[k])
  }

  /** Zero bits up to the next byte boundary after n bits. */
  function Pad(n: nat): (r: bits)
    ensures |r| == (8 - n % 8) % 8
  {
    Extra(0, (8 - n % 8) % 8)
  }

  /** The length, its complement, and the bytes. */
  function RawData(data: seq<Byte>): (r: bits)
    requires |data| < 0x1_0000
    ensures |r| == 32 + 8 * |data|
  {
    Extra(|data|, 16) + Extra(0xffff - |data|, 16) + Stream(data)
  }

  /** A block's data when n bits come before it. */
  ghost function DataBits(p: Part, n: nat): bits
    requires Writable(p)
  {
    match p
    case Raw(data) => Pad(n) + RawData(data)
    case Fixed(tokens) =>
      FixedOccurs();
      BlockBits(FixedLens(), FixedDists(), tokens)
    case Dynamic(plan, tokens) =>
      EndOccurs(plan);
      PlanBits(plan) + BlockBits(PlanLens(plan), PlanDists(plan), tokens)
  }

  function TypeOf(p: Part): nat {
    match p case Raw(_) => 0 case Fixed(_) => 1 case Dynamic(_, _) => 2
  }

  lemma FixedOccurs()
    ensures Occurs(FixedLens(), 256) && Fits(LENS, FixedLens()) && Fits(DISTS, FixedDists())
  {
    hide Repeated, Taken;
    FixedTaken();
    FixedFit();
    assert FixedLens()[256] == 7 by { FixedEnd(); }
  }

  lemma FixedEnd()
    ensures FixedLens()[256] == 7
  {}

  lemma EndOccurs(p: Plan)
    requires Sane(p)
    ensures Occurs(PlanLens(p), 256) && |PlanLens(p)| == p.nlen && |PlanDists(p)| == p.ndist
  {
    hide Expanded, Refused, Arranged, Itemized, Fits;
  }

  /** The fixed codes have a code for every token. */
  lemma FixedCodable(t: Token)
    requires t.Match? ==> MIN_MATCH <= t.len <= MAX_MATCH && 1 <= t.dist <= 32768
    ensures Codable(FixedLens(), FixedDists(), t)
  {
    hide FixedLens, FixedDists, LengthCode, DistanceCode;
    match t
    case Lit(c) => FixedAt(c);
    case Match(dist, len) =>
      FixedAt(257 + LengthCode(len));
      FixedDistAt(DistanceCode(dist));
  }

  lemma FixedAt(s: nat)
    requires s < 288
    ensures Occurs(FixedLens(), s)
  {}

  lemma FixedDistAt(s: nat)
    requires s < 32
    ensures Occurs(FixedDists(), s)
  {}

  /** Any legal tokens can be written, for instance as one block with the fixed codes. */
  lemma {:induction false} FixedWritable(tokens: seq<Token>, maxDist: nat)
    requires Legal(tokens, maxDist) && maxDist <= 32768
    ensures Writable(Fixed(tokens))
  {
    hide FixedLens, FixedDists, Codable, Expand;
    if tokens != [] {
      var front, t := tokens[..|tokens| - 1], tokens[|tokens| - 1];
      FixedWritable(front, maxDist);
      FixedCodable(t);
      forall k | 0 <= k < |tokens| ensures Codable(FixedLens(), FixedDists(), tokens[k]) {
        if k < |front| { assert tokens[k] == front[k]; }
      }
    }
  }

  // ----- reading a block -----

  lemma {:induction false} CopiedAll(data: seq<Byte>, rest: bits, out: seq<Byte>)
    ensures Copied(|data|, Stream(data) + rest, out) == Done(out + data, rest)
    decreases |data|
  {
    hide Extra, Hold;
    if data == [] {
      assert [] + rest == rest && out + [] == out;
    } else {
      var later := Stream(data[1..]) + rest;
      assert Pow2(8) == 256 by { Pow2Byte(); }
      assert Stream(data) + rest == Extra(data[0], 8) + later;
      ReadExtra(data[0], 8, later);
      CopiedAll(data[1..], rest, out + [data[0]]);
      assert out + [data[0]] + data[1..] == out + data;
    }
  }

  lemma WordPow()
    ensures Pow2(16) == 0x1_0000
  {
    assert Pow2(8) == 256;
    assert Pow2(9) == 512 && Pow2(10) == 1024 && Pow2(11) == 2048 && Pow2(12) == 4096;
  }

  /** The stream ends on a byte boundary. */
  predicate Ends(n: nat, r: bits, rest: bits) {
    (n + |r| + |rest|) % 8 == 0
  }

  lemma PadDropped(n: nat, q: bits)
    requires (n + |Pad(n)|) % 8 == 0 && |q| % 8 == 0
    ensures |Pad(n) + q| % 8 == |Pad(n)| && (Pad(n) + q)[|Pad(n) + q| % 8..] == q
  {
    hide Pad;
    assert |Pad(n)| < 8;
    assert |Pad(n) + q| % 8 == |Pad(n)|;
  }

  lemma StoredHead(a: bits, b: bits, later: bits, out: seq<Byte>)
    requires |a| == |b| == 16 && Hold(a) + Hold(b) == 0xffff && |later| % 8 == 0
    ensures Stored(a + b + later, out) == Copied(Hold(a), later, out)
  {
    hide Hold, Copied;
    var q := a + b + later;
    assert |q| % 8 == 0 && q[0..] == q && q[..16] == a && q[16..32] == b && q[32..] == later;
  }

  lemma StoredPadded(n: nat, q: bits, out: seq<Byte>)
    requires (n + |Pad(n)|) % 8 == 0 && |q| % 8 == 0
    ensures Stored(Pad(n) + q, out) == Stored(q, out)
  {
    hide Hold, Pad;
    PadDropped(n, q);
    assert q[0..] == q;
  }

  lemma PadEnds(n: nat, rest: bits)
    requires Ends(n, Pad(n), rest)
    ensures |rest| % 8 == 0 && (n + |Pad(n)|) % 8 == 0
  {
    PadEights(n, |rest|);
  }

  lemma PadEights(n: nat, m: nat)
    ensures (n + (8 - n % 8) % 8) % 8 == 0
    ensures (n + (8 - n % 8) % 8 + m) % 8 == 0 ==> m % 8 == 0
  {
    var q, k := n / 8, n % 8;
    assert n == 8 * q + k;
    if k > 0 { assert n + (8 - k) == 8 * (q + 1); }
  }

  lemma ReadRawData(data: seq<Byte>, rest: bits, out: seq<Byte>)
    requires |data| < 0x1_0000 && |rest| % 8 == 0
    ensures Stored(RawData(data) + rest, out) == Done(out + data, rest)
  {
    hide Extra, Hold, Stream, Copied, Pow2, Stored;
    WordPow();
    var a, b := Extra(|data|, 16), Extra(0xffff - |data|, 16);
    var later := Stream(data) + rest;
    assert RawData(data) + rest == a + b + later;
    HoldExtra(|data|, 16);
    HoldExtra(0xffff - |data|, 16);
    EightsMore(|rest|, |data|);
    StoredHead(a, b, later, out);
    CopiedAll(data, rest, out);
  }

  lemma EightsMore(m: nat, k: nat)
    ensures (m + 8 * k) % 8 == (8 * k + m) % 8 == m % 8
  {}

  /** Stored bytes are read as they are. */
  lemma ReadRaw(data: seq<Byte>, n: nat, rest: bits, out: seq<Byte>)
    requires |data| < 0x1_0000 && Ends(n, Pad(n), rest)
    ensures Stored(Pad(n) + RawData(data) + rest, out) == Done(out + data, rest)
  {
    hide Pad, Stored, RawData;
    PadEnds(n, rest);
    var q := RawData(data) + rest;
    assert Pad(n) + RawData(data) + rest == Pad(n) + q;
    EightsMore(|rest| + 32, |data|);
    StoredPadded(n, q, out);
    ReadRawData(data, rest, out);
  }

  lemma {:induction false} ExpandLiterals(before: seq<Token>, data: seq<Byte>)
    ensures Expand(before + Literals(data)) == Expand(before) + data
    decreases |data|
  {
    hide Expand;
    if data == [] {
      assert before + Literals(data) == before && Expand(before) + data == Expand(before);
    } else {
      var m := |data| - 1;
      var most := before + Literals(data[..m]);
      ExpandLiterals(before, data[..m]);
      assert before + Literals(data) == most + [Lit(data[m])];
      ExpandOne(most, data[m]);
      assert Expand(before) + data[..m] + [data[m]] == Expand(before) + data;
    }
  }

  lemma ExpandOne(t: seq<Token>, c: Byte)
    ensures Expand(t + [Lit(c)]) == Expand(t) + [c]
  {
    assert (t + [Lit(c)])[..|t|] == t;
  }

  lemma ReadCoded(lens: seq<nat>, dlens: seq<nat>, wsize: nat, before: seq<Token>, tokens: seq<Token>, rest: bits)
    requires Fits(LENS, lens) && Fits(DISTS, dlens) && Occurs(lens, 256) && Legal(before + tokens, wsize)
    requires |lens| <= Symbols(LENS) && |dlens| <= Symbols(DISTS)
    requires forall k :: 0 <= k < |tokens| ==> Codable(lens, dlens, tokens[k])
    ensures Headed(wsize, Coded(lens, dlens, BlockBits(lens, dlens, tokens) + rest), Expand(before)) ==
            Done(Expand(before + tokens), rest)
  {
    hide Fits, Reads, AtLen, Codable, BlockBits, Legal, Finish, Expand, Ideal, Occurs;
    IdealReads(LENS, lens);
    IdealReads(DISTS, dlens);
    BlockDecodes(IdealTables(lens, dlens), lens, dlens, wsize, before, tokens, rest);
  }

  /** A block is read as the tokens it stands for, after those before it. */
  lemma ReadPart(p: Part, n: nat, wsize: nat, before: seq<Token>, rest: bits)
    requires Writable(p) && Legal(before + PartTokens(p), wsize) && Ends(n, DataBits(p, n), rest)
    ensures Block(wsize, TypeOf(p), DataBits(p, n) + rest, Expand(before)) == Done(Expand(before + PartTokens(p)), rest)
  {
    hide Expand, Legal, Stored, Headed, Codable, BlockBits, Fits, Sane, PlanBits, PlanLens, PlanDists, FixedLens, FixedDists;
    hide Extra, Literals, Stream, Pad, Symbols, RawData;
    match p
    case Raw(data) =>
      RawAligned(data, n, rest);
      ReadRaw(data, n, rest, Expand(before));
      ExpandLiterals(before, data);
    case Fixed(tokens) =>
      FixedOccurs();
      SizesKnown();
      ReadCoded(FixedLens(), FixedDists(), wsize, before, tokens, rest);
    case Dynamic(plan, tokens) =>
      SaneSizes(plan);
      EndOccurs(plan);
      SizesKnown();
      var data := BlockBits(PlanLens(plan), PlanDists(plan), tokens) + rest;
      ReadPlan(plan, data);
      assert DataBits(p, n) + rest == PlanBits(plan) + data;
      ReadCoded(PlanLens(plan), PlanDists(plan), wsize, before, tokens, rest);
  }

  lemma SaneSizes(p: Plan)
    requires Sane(p)
    ensures p.nlen <= 286 && p.ndist <= 30 && p.nlen <= |Expanded([], p.items)|
  {}

  lemma SizesKnown()
    ensures Symbols(LENS) == 288 && Symbols(DISTS) == 32
  {}

  lemma RawAligned(data: seq<Byte>, n: nat, rest: bits)
    requires |data| < 0x1_0000 && Ends(n, Pad(n) + RawData(data), rest)
    ensures Ends(n, Pad(n), rest)
  {
    hide Pad, RawData;
    EightsMore(n + |Pad(n)| + |rest|, |data| + 4);
  }

  // ----- streams -----

  /** What is left from the next byte boundary on. */
  function FromByte(r: bits): (q: bits)
    ensures |q| % 8 == 0
  {
    r[|r| % 8..]
  }

  /** The tokens of all blocks. */
  function AllTokens(parts: seq<Part>): seq<Token> {
    if parts == [] then [] else PartTokens(parts[0]) + AllTokens(parts[1..])
  }

  /** All blocks, the last one marked, when n bits come before them. */
  ghost function StreamBits(parts: seq<Part>, n: nat): bits
    requires forall k :: 0 <= k < |parts| ==> Writable(parts[k])
    decreases |parts|
  {
    if parts == [] then []
    else
      var b := [|parts| == 1] + Extra(TypeOf(parts[0]), 2) + DataBits(parts[0], n + 3);
      b + StreamBits(parts[1..], n + |b|)
  }

  lemma TypeRead(last: bool, kind: nat, later: bits)
    requires kind < 4
    ensures var r := [last] + Extra(kind, 2) + later;
            |r| >= 3 && r[0] == last && Hold(r[1..3]) == kind && r[3..] == later
  {
    hide Extra, Hold;
    assert Pow2(2) == 4 by { TwoPow(); }
    var r := [last] + Extra(kind, 2) + later;
    assert r[1..3] == Extra(kind, 2);
    HoldExtra(kind, 2);
  }

  lemma TwoPow()
    ensures Pow2(2) == 4
  {}

  /** One block at the front of a stream. */
  lemma PartNext(p: Part, last: bool, n: nat, wsize: nat, before: seq<Token>, later: bits, r: bits)
    requires Writable(p) && Legal(before + PartTokens(p), wsize) && Ends(n + 3, DataBits(p, n + 3), later)
    requires r == [last] + Extra(TypeOf(p), 2) + (DataBits(p, n + 3) + later)
    ensures ReadBlocks(wsize, false, r, Expand(before)) == ReadBlocks(wsize, last, later, Expand(before + PartTokens(p)))
  {
    hide Expand, Block, Writable, Legal, DataBits, Extra, PartTokens, ReadBlocks, TypeOf, Ends, Hold;
    KindBound(p);
    TypeRead(last, TypeOf(p), DataBits(p, n + 3) + later);
    ReadPart(p, n + 3, wsize, before, later);
    BlocksNext(wsize, r, Expand(before));
  }

  /** The first block and the rest. */
  lemma StreamNext(parts: seq<Part>, n: nat, before: seq<Token>, rest: bits, head: bits, data: bits, later: bits)
    requires parts != [] && forall k :: 0 <= k < |parts| ==> Writable(parts[k])
    requires head == [|parts| == 1] + Extra(TypeOf(parts[0]), 2) && data == DataBits(parts[0], n + 3)
    requires later == StreamBits(parts[1..], n + 3 + |data|)
    ensures |head| == 3 && StreamBits(parts, n) == head + data + later
    ensures StreamBits(parts, n) + rest == head + (data + (later + rest))
    ensures before + AllTokens(parts) == before + PartTokens(parts[0]) + AllTokens(parts[1..])
  {
    hide Writable, DataBits, Extra, PartTokens, TypeOf;
    assert |head + data| == 3 + |data|;
  }

  lemma {:induction false} ReadParts(parts: seq<Part>, n: nat, wsize: nat, before: seq<Token>, rest: bits)
    requires parts != [] && (forall k :: 0 <= k < |parts| ==> Writable(parts[k])) && Legal(before + AllTokens(parts), wsize)
    requires Ends(n, StreamBits(parts, n), rest)
    ensures ReadBlocks(wsize, false, StreamBits(parts, n) + rest, Expand(before)) ==
            Done(Expand(before + AllTokens(parts)), FromByte(rest))
    decreases |parts|
  {
    hide Expand, Block, Writable, Legal, DataBits, Extra, PartTokens, ReadBlocks, TypeOf, FromByte, Ends, Hold, Onward, StreamBits, AllTokens;
    var p, last := parts[0], |parts| == 1;
    var head, data := [last] + Extra(TypeOf(p), 2), DataBits(p, n + 3);
    var later := StreamBits(parts[1..], n + 3 + |data|);
    var tokens := before + PartTokens(p);
    StreamNext(parts, n, before, rest, head, data, later);
    LegalFirst(tokens, AllTokens(parts[1..]), wsize);
    EndsLater(n, StreamBits(parts, n), head + data, later, rest);
    EndsPart(n, head, data, later + rest, StreamBits(parts, n) + rest);
    PartNext(p, last, n, wsize, before, later + rest, StreamBits(parts, n) + rest);
    if last {
      NoMoreParts(n + 3 + |data|);
      assert parts[1..] == [] && tokens + [] == tokens && [] + rest == rest;
      LastRead(wsize, rest, Expand(tokens));
    } else {
      ReadParts(parts[1..], n + 3 + |data|, wsize, tokens, rest);
    }
  }

  lemma NoMoreParts(n: nat)
    ensures StreamBits([], n) == [] && AllTokens([]) == []
  {}

  lemma EndsLater(n: nat, all: bits, b: bits, later: bits, rest: bits)
    requires Ends(n, all, rest) && all == b + later
    ensures Ends(n + |b|, later, rest) && (n + |all + rest|) % 8 == 0
  {}

  lemma EndsPart(n: nat, head: bits, data: bits, later: bits, r: bits)
    requires |head| == 3 && r == head + (data + later) && (n + |r|) % 8 == 0
    ensures Ends(n + 3, data, later)
  {}

  lemma KindBound(p: Part)
    ensures TypeOf(p) < 3
  {}

  lemma LastRead(wsize: nat, r: bits, out: seq<Byte>)
    ensures ReadBlocks(wsize, true, r, out) == Done(out, FromByte(r))
  {}

  lemma LegalFirst(a: seq<Token>, b: seq<Token>, wsize: nat)
    requires Legal(a + b, wsize)
    ensures Legal(a, wsize)
  {
    LegalFront(a + b, |a|, wsize);
    assert (a + b)[..|a|] == a;
  }

  /** The tokens a compressor recorded for its input, divided into blocks of any types, are read back as the input. */
  lemma StreamReads(parts: seq<Part>, wsize: nat, data: seq<Byte>, rest: bits)
    requires parts != [] && (forall k :: 0 <= k < |parts| ==> Writable(parts[k]))
    requires Covers(AllTokens(parts), wsize, data, |data|) && Ends(0, StreamBits(parts, 0), rest)
    ensures ReadBlocks(wsize, false, StreamBits(parts, 0) + rest, []) == Done(data, FromByte(rest))
  {
    hide ReadBlocks, StreamBits, Legal, Writable;
    assert [] + AllTokens(parts) == AllTokens(parts) && data[..|data|] == data;
    assert Expand([]) == [];
    ReadParts(parts, 0, wsize, [], rest);
  }
}
