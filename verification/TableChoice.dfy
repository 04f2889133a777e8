/** How the encoder settles on coding tables: start from a split of the alphabet, then alternate between
    giving every group of fifty symbols its cheapest table and rebuilding each table from the symbols it got. */
module TableChoice {
  import opened Words
  import opened Codes
  import opened HuffmanForest
  import opened HuffmanLengths
  import M = MtfEncode
  import O = HuffmanOptimal

  const LESSER_ICOST: nat := 0
  const GREATER_ICOST: nat := 15
  const GROUP: nat := 50
  const N_ITERS: nat := 4
  const MAX_SYMBOLS: nat := 900001

  function Sum(s: seq<nat>): nat {
    if s == [] then 0 else Sum(s[..|s| - 1]) + s[|s| - 1]
  }

  lemma {:induction false} SumConcat(a: seq<nat>, b: seq<nat>)
    ensures Sum(a + b) == Sum(a) + Sum(b)
  {
    if b == [] {
      assert a + b == a;
    } else {
      SumConcat(a, b[..|b| - 1]);
      assert (a + b)[..|a + b| - 1] == a + b[..|b| - 1];
    }
  }

  lemma {:induction false} SumUpdate(s: seq<nat>, k: nat, v: nat)
    requires k < |s|
    ensures Sum(s[k := v]) == Sum(s) + v - s[k]
  {
    if k == |s| - 1 {
      assert s[k := v][..k] == s[..k];
    } else {
      SumUpdate(s[..|s| - 1], k, v);
      assert s[k := v][..|s| - 1] == s[..|s| - 1][k := v];
    }
  }

  lemma {:induction false} SumZeros(n: nat)
    ensures Sum(seq(n, _ => 0)) == 0
  {
    if n > 0 {
      SumZeros(n - 1);
      assert seq(n, _ => 0)[..n - 1] == seq(n - 1, _ => 0);
    }
  }

  lemma {:induction false} SumCut(s: seq<nat>, i: nat, j: nat)
    requires i <= j <= |s|
    ensures Sum(s[i..]) == Sum(s[i..j]) + Sum(s[j..])
  {
    SumConcat(s[i..j], s[j..]);
    assert s[i..] == s[i..j] + s[j..];
  }

  lemma EmptySum(s: seq<nat>, i: nat)
    requires i <= |s|
    ensures Sum(s[i..i]) == 0
  {}

  lemma SumOne(s: seq<nat>, i: nat, j: nat)
    requires i <= j < |s|
    ensures Sum(s[i..j + 1]) == Sum(s[i..j]) + s[j]
  {
    assert s[i..j + 1][..j - i] == s[i..j];
  }

  // ----- the initial tables -----

  /** One part of the alphabet gets the lesser cost. */
  function Part(gs: nat, ge: int, n: nat): (r: seq<nat>)
    ensures |r| == n && LengthsIn(r, LESSER_ICOST, GREATER_ICOST)
  {
    seq(n, v => if gs <= v <= ge then LESSER_ICOST else GREATER_ICOST)
  }

  /** From symbol gs on, the fewest symbols that make up the share t end before g. */
  ghost predicate Share(freq: seq<nat>, gs: nat, g: nat, t: nat) {
    gs <= g <= |freq| && (Sum(freq[gs..g]) >= t || g == |freq|) && (g > gs ==> Sum(freq[gs..g - 1]) < t)
  }

  /** An equal share of what remains from symbol gs on, for the k-th of n. */
  function Quota(freq: seq<nat>, gs: nat, n: nat, k: nat): nat
    requires k < n && gs <= |freq|
  {
    Sum(freq[gs..]) / (n - k)
  }

  /** Stretch k of n begins at gs: it is an equal share of what remains, less its last symbol in every other stretch, unless
      that is all it has. */
  ghost predicate Stretch(freq: seq<nat>, n: nat, k: nat, gs: nat, next: nat) {
    k < n && gs <= |freq| &&
    exists g: nat :: Share(freq, gs, g, Quota(freq, gs, n, k)) && next == (if g > gs + 1 && k != 0 && k + 1 != n && k % 2 == 1 then g - 1 else g)
  }

  /** The next stretch, from symbol gs on: its last symbol, and how often its symbols occur. */
  method NextStretch(mtfFreq: seq<nat>, nGroups: nat, nPart: nat, gs: nat, remF: nat) returns (ge: int, aFreq: nat)
    requires 1 <= nPart <= nGroups && gs <= |mtfFreq| && remF == Sum(mtfFreq[gs..])
    ensures gs - 1 <= ge < |mtfFreq| && aFreq == Sum(mtfFreq[gs..ge + 1])
    ensures Stretch(mtfFreq, nGroups, nGroups - nPart, gs, ge + 1)
  {
    hide Sum;
    var tFreq := remF / nPart;
    ge, aFreq := gs - 1, 0;
    EmptySum(mtfFreq, gs);
    while aFreq < tFreq && ge < |mtfFreq| - 1
      invariant gs - 1 <= ge <= |mtfFreq| - 1 && aFreq == Sum(mtfFreq[gs..ge + 1]) && (ge >= gs ==> Sum(mtfFreq[gs..ge]) < tFreq)
    {
      ge := ge + 1;
      aFreq := aFreq + mtfFreq[ge];
      SumOne(mtfFreq, gs, ge);
    }
    assert Share(mtfFreq, gs, ge + 1, Quota(mtfFreq, gs, nGroups, nGroups - nPart));
    if ge > gs && nPart != nGroups && nPart != 1 && (nGroups - nPart) % 2 == 1 {
      SumOne(mtfFreq, gs, ge);
      aFreq := aFreq - mtfFreq[ge];
      ge := ge - 1;
    }
  }

  /** Table nPart - 1 favours a stretch of the alphabet that holds about 1 / nPart of what remains. */
  method InitialTables(mtfFreq: seq<nat>, nMTF: nat, nGroups: nat) returns (len: seq<seq<nat>>, ghost cuts: seq<nat>)
    requires nGroups >= 1 && Sum(mtfFreq) == nMTF
    ensures |len| == nGroups && Costs(len, |mtfFreq|, GREATER_ICOST)
    ensures |cuts| == nGroups + 1 && cuts[0] == 0 && cuts[nGroups] <= |mtfFreq|
    ensures forall k :: 0 <= k < nGroups ==> Stretch(mtfFreq, nGroups, k, cuts[k], cuts[k + 1])
    ensures forall k :: 0 <= k < nGroups ==> cuts[k] <= cuts[k + 1] && len[nGroups - 1 - k] == Part(cuts[k], cuts[k + 1] as int - 1, |mtfFreq|)
  {
    hide Sum, Part, Stretch;
    var alphaSize := |mtfFreq|;
    len := seq(nGroups, _ => seq(alphaSize, _ => GREATER_ICOST));
    var nPart, remF, gs := nGroups, nMTF, 0;
    cuts := [0];
    assert mtfFreq[0..] == mtfFreq;
    while nPart > 0
      invariant 0 <= nPart <= nGroups && 0 <= gs <= alphaSize && remF == Sum(mtfFreq[gs..])
      invariant |len| == nGroups && Costs(len, alphaSize, GREATER_ICOST)
      invariant |cuts| == nGroups - nPart + 1 && cuts[0] == 0 && cuts[nGroups - nPart] == gs
      invariant forall k :: 0 <= k < nGroups - nPart ==> Stretch(mtfFreq, nGroups, k, cuts[k], cuts[k + 1])
      invariant forall k :: 0 <= k < nGroups - nPart ==>
        cuts[k] <= cuts[k + 1] && len[nGroups - 1 - k] == Part(cuts[k], cuts[k + 1] as int - 1, alphaSize)
    {
      var ge, aFreq := NextStretch(mtfFreq, nGroups, nPart, gs, remF);
      SumCut(mtfFreq, gs, ge + 1);
      len := len[nPart - 1 := Part(gs, ge, alphaSize)];
      nPart := nPart - 1;
      gs := ge + 1;
      cuts := cuts + [gs];
      remF := remF - aFreq;
    }
  }

  /** Tables of costs no larger than max. */
  predicate Costs(len: seq<seq<nat>>, alphaSize: nat, max: nat) {
    forall t :: 0 <= t < |len| ==> |len[t]| == alphaSize && LengthsIn(len[t], 0, max)
  }

  function GroupCount(nMTF: nat): (r: nat)
    ensures 2 <= r <= 6
  {
    if nMTF < 200 then 2 else if nMTF < 600 then 3 else if nMTF < 1200 then 4 else if nMTF < 2400 then 5 else 6
  }

  // ----- the cost of a group under each table -----

  /** Bits a run of symbols takes under a table. */
  function Cost(syms: seq<nat>, len: seq<nat>): nat
    requires forall i :: 0 <= i < |syms| ==> syms[i] < |len|
  {
    if syms == [] then 0 else Cost(syms[..|syms| - 1], len) + len[syms[|syms| - 1]]
  }

  lemma CostOne(syms: seq<nat>, i: nat, j: nat, len: seq<nat>)
    requires i <= j < |syms| && forall k :: 0 <= k < |syms| ==> syms[k] < |len|
    ensures Cost(syms[i..j + 1], len) == Cost(syms[i..j], len) + len[syms[j]]
  {
    assert syms[i..j + 1][..j - i] == syms[i..j];
  }

  /** Two 16-bit costs side by side in a word. */
  function Pack(hi: nat, lo: nat): nat { Or(hi * 65536, lo) }

  lemma PackIs(hi: nat, lo: nat)
    requires lo < 65536
    ensures Pack(hi, lo) == hi * 65536 + lo
  {
    assert Pow2(8) == 256;
    Pow2Sum(8, 8);
    ShlFour(hi, 0);
    ShlFour(hi, 4);
    ShlFour(hi, 8);
    ShlFour(hi, 12);
    OrDisjoint(lo, hi, 16);
  }

  /** Adding packed words adds the halves as long as no sum overflows its half. */
  method PackedCosts(mtfv: seq<nat>, gs: nat, ge: nat, pack: seq<nat>, ghost hi: seq<nat>, ghost lo: seq<nat>) returns (c: nat, d: nat)
    requires gs <= ge < |mtfv| && ge - gs + 1 == GROUP && |pack| == |hi| == |lo|
    requires forall i :: 0 <= i < |mtfv| ==> mtfv[i] < |pack|
    requires forall v :: 0 <= v < |pack| ==> pack[v] == Pack(hi[v], lo[v]) && hi[v] <= LONGEST && lo[v] <= LONGEST
    ensures c == Cost(mtfv[gs..ge + 1], lo) && d == Cost(mtfv[gs..ge + 1], hi)
  {
    hide Cost, Pack;
    var cost := 0;
    EmptyCost(lo);
    EmptyCost(hi);
    assert mtfv[gs..gs] == [];
    for nn := 0 to GROUP
      invariant cost == Cost(mtfv[gs..gs + nn], lo) + 65536 * Cost(mtfv[gs..gs + nn], hi)
      invariant Cost(mtfv[gs..gs + nn], lo) <= LONGEST * nn && Cost(mtfv[gs..gs + nn], hi) <= LONGEST * nn
    {
      var icv := mtfv[gs + nn];
      CostOne(mtfv, gs, gs + nn, lo);
      CostOne(mtfv, gs, gs + nn, hi);
      PackIs(hi[icv], lo[icv]);
      cost := cost + pack[icv];
    }
    c, d := cost % 65536, cost / 65536;
  }

  lemma EmptyCost(len: seq<nat>)
    ensures Cost([], len) == 0
  {}

  /** Every table's cost for symbols gs to ge. */
  method GroupCosts(mtfv: seq<nat>, gs: nat, ge: nat, len: seq<seq<nat>>, pack: seq<seq<nat>>, alphaSize: nat) returns (cost: seq<nat>)
    requires gs <= ge < |mtfv| && ge - gs < GROUP && Costs(len, alphaSize, LONGEST)
    requires forall i :: 0 <= i < |mtfv| ==> mtfv[i] < alphaSize
    requires |len| == 6 ==> Packs(pack, len, alphaSize)
    ensures |cost| == |len| && forall t :: 0 <= t < |len| ==> cost[t] == Cost(mtfv[gs..ge + 1], len[t])
  {
    hide Cost, Pack;
    if |len| == 6 && ge - gs + 1 == GROUP {
      var c0, c1 := PackedCosts(mtfv, gs, ge, pack[0], len[1], len[0]);
      var c2, c3 := PackedCosts(mtfv, gs, ge, pack[1], len[3], len[2]);
      var c4, c5 := PackedCosts(mtfv, gs, ge, pack[2], len[5], len[4]);
      cost := [c0, c1, c2, c3, c4, c5];
    } else {
      cost := seq(|len|, _ => 0);
      forall t | 0 <= t < |len| ensures Cost(mtfv[gs..gs], len[t]) == 0 {
        EmptyCost(len[t]);
        assert mtfv[gs..gs] == [];
      }
      for i := gs to ge + 1
        invariant |cost| == |len| && forall t :: 0 <= t < |len| ==> cost[t] == Cost(mtfv[gs..i], len[t])
      {
        var icv := mtfv[i];
        forall t | 0 <= t < |len| ensures Cost(mtfv[gs..i + 1], len[t]) == cost[t] + len[t][icv] {
          CostOne(mtfv, gs, i, len[t]);
        }
        ghost var was := cost;
        for t := 0 to |len|
          invariant |cost| == |len|
          invariant forall u :: 0 <= u < t ==> cost[u] == was[u] + len[u][icv]
          invariant forall u :: t <= u < |len| ==> cost[u] == was[u]
        {
          cost := cost[t := cost[t] + len[t][icv]];
        }
      }
    }
  }

  predicate Packs(pack: seq<seq<nat>>, len: seq<seq<nat>>, alphaSize: nat) {
    |pack| == 3 && |len| == 6 && Costs(len, alphaSize, LONGEST) &&
    forall k :: 0 <= k < 3 ==> PackRow(pack[k], len[2 * k + 1], len[2 * k], alphaSize)
  }

  predicate PackRow(row: seq<nat>, hi: seq<nat>, lo: seq<nat>, alphaSize: nat) {
    |row| == |hi| == |lo| == alphaSize && forall v :: 0 <= v < alphaSize ==> row[v] == Pack(hi[v], lo[v])
  }

  function PackPair(hi: seq<nat>, lo: seq<nat>): (r: seq<nat>)
    requires |hi| == |lo|
    ensures PackRow(r, hi, lo, |hi|)
  {
    seq(|hi|, v requires 0 <= v < |hi| => Pack(hi[v], lo[v]))
  }

  /** The first table of least cost. */
  method Cheapest(cost: seq<nat>) returns (bt: nat)
    requires cost != [] && forall t :: 0 <= t < |cost| ==> cost[t] < 999999999
    ensures bt < |cost| && (forall t :: 0 <= t < |cost| ==> cost[bt] <= cost[t])
    ensures forall t :: 0 <= t < bt ==> cost[bt] < cost[t]
  {
    var bc, best := 999999999, -1;
    for t := 0 to |cost|
      invariant best == -1 ==> bc == 999999999 && t == 0
      invariant best != -1 ==> 0 <= best < t && bc == cost[best]
      invariant forall u :: 0 <= u < t ==> bc <= cost[u]
      invariant forall u :: 0 <= u < best ==> bc < cost[u]
    {
      if cost[t] < bc { bc, best := cost[t], t; }
    }
    bt := best;
  }

  // ----- one improvement pass -----

  /** End of the group that starts at gs. */
  function GroupEnd(gs: nat, nMTF: nat): nat
    requires gs < nMTF
  {
    if gs + GROUP - 1 >= nMTF then nMTF - 1 else gs + GROUP - 1
  }

  /** Group k is coded by the first table that no other beats. */
  ghost predicate BestFor(syms: seq<nat>, len: seq<seq<nat>>, k: nat, bt: nat) {
    GROUP * k < |syms| && bt < |len| &&
    (forall t, i :: 0 <= t < |len| && 0 <= i < |syms| ==> syms[i] < |len[t]|) &&
    var group := syms[GROUP * k..GroupEnd(GROUP * k, |syms|) + 1];
    forall t :: 0 <= t < |len| ==> Cost(group, len[bt]) <= Cost(group, len[t]) && (t < bt ==> Cost(group, len[bt]) < Cost(group, len[t]))
  }

  lemma BestIs(syms: seq<nat>, len: seq<seq<nat>>, k: nat, bt: nat, cost: seq<nat>)
    requires GROUP * k < |syms| && bt < |len| == |cost|
    requires forall t, i :: 0 <= t < |len| && 0 <= i < |syms| ==> syms[i] < |len[t]|
    requires forall t :: 0 <= t < |len| ==> cost[t] == Cost(syms[GROUP * k..GroupEnd(GROUP * k, |syms|) + 1], len[t])
    requires forall t :: 0 <= t < |len| ==> cost[bt] <= cost[t] && (t < bt ==> cost[bt] < cost[t])
    ensures BestFor(syms, len, k, bt)
  {}

  /** Frequencies of at most total symbols. */
  predicate Frequencies(rfreq: seq<seq<nat>>, alphaSize: nat, total: nat) {
    forall t :: 0 <= t < |rfreq| ==> |rfreq[t]| == alphaSize && Sum(rfreq[t]) <= total
  }

  lemma CostBound(syms: seq<nat>, len: seq<nat>)
    requires (forall i :: 0 <= i < |syms| ==> syms[i] < |len|) && LengthsIn(len, 0, LONGEST)
    ensures Cost(syms, len) <= LONGEST * |syms|
  {}

  /** Counts the symbols of a group into one row. */
  method CountGroup(mtfv: seq<nat>, gs: nat, ge: nat, row: seq<nat>, ghost before: seq<nat>) returns (r: seq<nat>)
    requires gs <= ge < |mtfv| && forall i :: 0 <= i < |mtfv| ==> mtfv[i] < |row|
    requires M.Tallied(row, before, |row|)
    ensures |r| == |row| && M.Tallied(r, before + mtfv[gs..ge + 1], |r|)
  {
    hide M.Tallied;
    r := row;
    assert before + mtfv[gs..gs] == before;
    for i := gs to ge + 1
      invariant |r| == |row| && M.Tallied(r, before + mtfv[gs..i], |r|)
    {
      M.TalliedOne(r, before + mtfv[gs..i], |r|, mtfv[i]);
      assert before + mtfv[gs..i] + [mtfv[i]] == before + mtfv[gs..i + 1];
      r := r[mtfv[i] := r[mtfv[i]] + 1];
    }
  }

  /** The symbols of the groups that are coded by table t. */
  function Given(syms: seq<nat>, sel: seq<nat>, t: nat): (r: seq<nat>)
    requires |syms| <= GROUP * |sel|
    ensures |r| <= |syms|
  {
    if syms == [] then []
    else
      var n := |syms| - 1;
      Given(syms[..n], sel, t) + if sel[n / GROUP] == t then [syms[n]] else []
  }

  lemma {:induction false} GivenMore(syms: seq<nat>, sel: seq<nat>, bt: nat, t: nat)
    requires |syms| <= GROUP * |sel|
    ensures Given(syms, sel + [bt], t) == Given(syms, sel, t)
  {
    if syms != [] { GivenMore(syms[..|syms| - 1], sel, bt, t); }
  }

  /** One more group. */
  lemma {:induction false} GivenGroup(syms: seq<nat>, sel: seq<nat>, t: nat, gs: nat, i: nat)
    requires gs <= i <= |syms| && gs == GROUP * (|sel| - 1) && i <= GROUP * |sel|
    ensures Given(syms[..i], sel, t) == Given(syms[..gs], sel, t) + if sel[|sel| - 1] == t then syms[gs..i] else []
    decreases i
  {
    if gs < i {
      hide Given;
      GivenGroup(syms, sel, t, gs, i - 1);
      GivenOne(syms, sel, t, i - 1);
      InGroup(gs, i - 1, |sel| - 1);
      Longer(Given(syms[..gs], sel, t), syms, gs, i - 1, sel[|sel| - 1] == t);
    } else {
      assert syms[gs..i] == [];
    }
  }

  lemma Longer(a: seq<nat>, syms: seq<nat>, gs: nat, i: nat, mine: bool)
    requires gs <= i < |syms|
    ensures a + (if mine then syms[gs..i] else []) + (if mine then [syms[i]] else []) == a + if mine then syms[gs..i + 1] else []
  {
    if mine { assert syms[gs..i + 1] == syms[gs..i] + [syms[i]]; }
  }

  lemma InGroup(gs: nat, i: nat, k: nat)
    requires gs == GROUP * k <= i < gs + GROUP
    ensures i / GROUP == k
  {}

  lemma GivenOne(syms: seq<nat>, sel: seq<nat>, t: nat, i: nat)
    requires i < |syms| && i < GROUP * |sel|
    ensures Given(syms[..i + 1], sel, t) == Given(syms[..i], sel, t) + if sel[i / GROUP] == t then [syms[i]] else []
  {
    assert syms[..i + 1][..i] == syms[..i];
  }

  /** How often each symbol occurs. */
  function Frequency(syms: seq<nat>, n: nat): (freq: seq<nat>)
    ensures |freq| == n
  {
    seq(n, v requires 0 <= v < n => M.Tally(syms, v))
  }

  /** The counts of all tables, up to symbol gs. */
  ghost predicate Counting(rfreq: seq<seq<nat>>, mtfv: seq<nat>, sel: seq<nat>, gs: nat, alphaSize: nat) {
    gs <= |mtfv| && gs <= GROUP * |sel| && forall t :: 0 <= t < |rfreq| ==> RowCounts(rfreq[t], mtfv, sel, gs, alphaSize, t)
  }

  ghost predicate RowCounts(row: seq<nat>, mtfv: seq<nat>, sel: seq<nat>, gs: nat, alphaSize: nat, t: nat)
    requires gs <= |mtfv| && gs <= GROUP * |sel|
  {
    |row| == alphaSize && M.Tallied(row, Given(mtfv[..gs], sel, t), alphaSize)
  }

  lemma CountedNone(rfreq: seq<seq<nat>>, mtfv: seq<nat>, alphaSize: nat)
    requires forall t :: 0 <= t < |rfreq| ==> rfreq[t] == seq(alphaSize, _ => 0)
    ensures Counting(rfreq, mtfv, [], 0, alphaSize)
  {
    assert mtfv[..0] == [];
  }

  lemma CountedGroup(rfreq: seq<seq<nat>>, mtfv: seq<nat>, sel: seq<nat>, gs: nat, ge: nat, bt: nat, row: seq<nat>, alphaSize: nat)
    requires Counting(rfreq, mtfv, sel, gs, alphaSize) && gs == GROUP * |sel| <= ge < |mtfv| && ge < gs + GROUP && bt < |rfreq|
    requires |row| == alphaSize && M.Tallied(row, Given(mtfv[..gs], sel, bt) + mtfv[gs..ge + 1], alphaSize)
    ensures Counting(rfreq[bt := row], mtfv, sel + [bt], ge + 1, alphaSize)
  {
    hide M.Tallied, Given;
    var sel', rfreq' := sel + [bt], rfreq[bt := row];
    forall t | 0 <= t < |rfreq| ensures RowCounts(rfreq'[t], mtfv, sel', ge + 1, alphaSize, t) {
      assert RowCounts(rfreq[t], mtfv, sel, gs, alphaSize, t);
      GivenGroup(mtfv, sel', t, gs, ge + 1);
      GivenMore(mtfv[..gs], sel, bt, t);
      if t != bt { assert Given(mtfv[..gs], sel, t) + [] == Given(mtfv[..gs], sel, t); }
    }
  }

  lemma CountedAll(rfreq: seq<seq<nat>>, mtfv: seq<nat>, sel: seq<nat>, alphaSize: nat)
    requires Counting(rfreq, mtfv, sel, |mtfv|, alphaSize) && forall i :: 0 <= i < |mtfv| ==> mtfv[i] < alphaSize
    ensures forall t :: 0 <= t < |rfreq| ==> rfreq[t] == Frequency(Given(mtfv, sel, t), alphaSize)
    ensures Frequencies(rfreq, alphaSize, |mtfv|)
  {
    hide Given, Sum;
    assert mtfv[..|mtfv|] == mtfv;
    forall t: nat | t < |rfreq| ensures RowIs(rfreq[t], mtfv, sel, alphaSize, t) {
      assert RowCounts(rfreq[t], mtfv, sel, |mtfv|, alphaSize, t);
      GivenBelow(mtfv, sel, t, alphaSize);
      TallySum(Given(mtfv, sel, t), rfreq[t], alphaSize);
    }
    forall t | 0 <= t < |rfreq| ensures |rfreq[t]| == alphaSize && Sum(rfreq[t]) <= |mtfv| { assert RowIs(rfreq[t], mtfv, sel, alphaSize, t); }
    forall t | 0 <= t < |rfreq| ensures rfreq[t] == Frequency(Given(mtfv, sel, t), alphaSize) { assert RowIs(rfreq[t], mtfv, sel, alphaSize, t); }
  }

  ghost predicate RowIs(row: seq<nat>, mtfv: seq<nat>, sel: seq<nat>, alphaSize: nat, t: nat)
    requires |mtfv| <= GROUP * |sel|
  {
    row == Frequency(Given(mtfv, sel, t), alphaSize) && Sum(row) <= |mtfv|
  }

  lemma {:induction false} GivenBelow(syms: seq<nat>, sel: seq<nat>, t: nat, n: nat)
    requires |syms| <= GROUP * |sel| && forall i :: 0 <= i < |syms| ==> syms[i] < n
    ensures forall i :: 0 <= i < |Given(syms, sel, t)| ==> Given(syms, sel, t)[i] < n
  {
    if syms != [] { GivenBelow(syms[..|syms| - 1], sel, t, n); }
  }

  /** Gives every group its cheapest table and counts the symbols each table got. */
  method ChooseSelectors(mtfv: seq<nat>, len: seq<seq<nat>>, alphaSize: nat) returns (sel: seq<nat>, rfreq: seq<seq<nat>>)
    requires 2 <= |len| <= 6 && Costs(len, alphaSize, LONGEST) && 1 <= |mtfv|
    requires forall i :: 0 <= i < |mtfv| ==> mtfv[i] < alphaSize
    ensures GROUP * (|sel| - 1) < |mtfv| <= GROUP * |sel|
    ensures forall k :: 0 <= k < |sel| ==> BestFor(mtfv, len, k, sel[k])
    ensures |rfreq| == |len| && forall t :: 0 <= t < |len| ==> rfreq[t] == Frequency(Given(mtfv, sel, t), alphaSize)
    ensures Frequencies(rfreq, alphaSize, |mtfv|)
  {
    hide Cost, Sum, Pack, BestFor, Counting, M.Tallied, Given, Frequency, Frequencies;
    var nMTF := |mtfv|;
    sel, rfreq := [], seq(|len|, _ => seq(alphaSize, _ => 0));
    CountedNone(rfreq, mtfv, alphaSize);
    var pack := [];
    if |len| == 6 { pack := [PackPair(len[1], len[0]), PackPair(len[3], len[2]), PackPair(len[5], len[4])]; }
    var gs := 0;
    while true
      invariant 0 <= gs <= nMTF && gs <= GROUP * |sel| && (|sel| > 0 ==> GROUP * (|sel| - 1) < nMTF)
      invariant gs < nMTF ==> gs == GROUP * |sel|
      invariant forall k :: 0 <= k < |sel| ==> BestFor(mtfv, len, k, sel[k])
      invariant |rfreq| == |len| && Counting(rfreq, mtfv, sel, gs, alphaSize)
      decreases nMTF - gs
    {
      if gs >= nMTF { break; }
      var ge := gs + GROUP - 1;
      if ge >= nMTF { ge := nMTF - 1; }
      var cost := GroupCosts(mtfv, gs, ge, len, pack, alphaSize);
      forall t | 0 <= t < |len| ensures cost[t] < 999999999 { CostBound(mtfv[gs..ge + 1], len[t]); }
      var bt := Cheapest(cost);
      BestIs(mtfv, len, |sel|, bt, cost);
      CountedRow(rfreq, mtfv, sel, gs, bt, alphaSize);
      var row := CountGroup(mtfv, gs, ge, rfreq[bt], Given(mtfv[..gs], sel, bt));
      CountedGroup(rfreq, mtfv, sel, gs, ge, bt, row, alphaSize);
      sel := sel + [bt];
      rfreq := rfreq[bt := row];
      gs := ge + 1;
    }
    CountedAll(rfreq, mtfv, sel, alphaSize);
  }

  lemma CountedRow(rfreq: seq<seq<nat>>, mtfv: seq<nat>, sel: seq<nat>, gs: nat, t: nat, alphaSize: nat)
    requires Counting(rfreq, mtfv, sel, gs, alphaSize) && t < |rfreq|
    ensures gs <= |mtfv| && gs <= GROUP * |sel|
    ensures |rfreq[t]| == alphaSize && M.Tallied(rfreq[t], Given(mtfv[..gs], sel, t), alphaSize)
  {}

  lemma {:induction false} CountedBound(freq: seq<nat>)
    ensures CountedSum(freq) <= Sum(freq) + |freq|
  {
    if freq != [] { CountedBound(freq[..|freq| - 1]); }
  }

  /** Rebuilt tables: lengths 1 to 17 of a complete code. */
  predicate Complete(len: seq<seq<nat>>, alphaSize: nat) {
    forall t :: 0 <= t < |len| ==>
      |len[t]| == alphaSize && LengthsIn(len[t], 1, 17) && KraftSum(len[t], LONGEST) == Pow2(LONGEST)
  }

  /** The best code for these counts, halved as long as a code comes out longer than 17 bits. */
  ghost predicate BestCode(freq: seq<nat>, row: seq<nat>) {
    exists rounds: nat :: O.Optimal(Flattened(Counts(freq), rounds), row) &&
      forall k: nat :: k < rounds ==> OutOfBounds(Flattened(Counts(freq), k), 17)
  }

  lemma BestIt(freq: seq<nat>, row: seq<nat>, rounds: nat)
    requires O.Optimal(Flattened(Counts(freq), rounds), row)
    requires forall k: nat :: k < rounds ==> OutOfBounds(Flattened(Counts(freq), k), 17)
    ensures BestCode(freq, row)
  {}

  /** Every table is the best code for the symbols it is given. */
  ghost predicate Tuned(len: seq<seq<nat>>, syms: seq<nat>, sel: seq<nat>, alphaSize: nat) {
    |syms| <= GROUP * |sel| && forall t :: 0 <= t < |len| ==> BestCode(Frequency(Given(syms, sel, t), alphaSize), len[t])
  }

  /** Rebuilds every table from its symbols. */
  method Rebuild(rfreq: seq<seq<nat>>, alphaSize: nat, ghost total: nat) returns (len: seq<seq<nat>>)
    requires 2 <= alphaSize <= MAX_ALPHA_SIZE && total <= MAX_SYMBOLS && Frequencies(rfreq, alphaSize, total)
    ensures |len| == |rfreq| && Complete(len, alphaSize)
    ensures forall t :: 0 <= t < |len| ==> BestCode(rfreq[t], len[t])
  {
    hide Sum, CountedSum, KraftSum, Pow2, Fib, BestCode, O.Optimal, OutOfBounds, Flattened;
    len := [];
    for t := 0 to |rfreq|
      invariant |len| == t && Complete(len, alphaSize)
      invariant forall u :: 0 <= u < t ==> BestCode(rfreq[u], len[u])
    {
      CountedBound(rfreq[t]);
      LimitEnough(17, |rfreq[t]|);
      var row;
      ghost var rounds;
      row, rounds := MakeCodeLengths(rfreq[t], 17);
      BestIt(rfreq[t], row, rounds);
      len := len + [row];
    }
  }

  /** The tables a pass starts from, and the selectors it settles on. */
  datatype Pass = Pass(tables: seq<seq<nat>>, sel: seq<nat>)

  /** Every group is given its cheapest table. */
  ghost predicate Passed(p: Pass, syms: seq<nat>) {
    GROUP * (|p.sel| - 1) < |syms| <= GROUP * |p.sel| && forall k :: 0 <= k < |p.sel| ==> BestFor(syms, p.tables, k, p.sel[k])
  }

  /** The tables of the first pass favour consecutive stretches of the alphabet. */
  ghost predicate Stretches(len: seq<seq<nat>>, cuts: seq<nat>, freq: seq<nat>, alphaSize: nat) {
    |cuts| == |len| + 1 && cuts[0] == 0 && cuts[|len|] <= alphaSize && |freq| == alphaSize &&
    (forall k :: 0 <= k < |len| ==> Stretch(freq, |len|, k, cuts[k], cuts[k + 1])) &&
    forall k :: 0 <= k < |len| ==> cuts[k] <= cuts[k + 1] && len[|len| - 1 - k] == Part(cuts[k], cuts[k + 1] as int - 1, alphaSize)
  }

  /** Passes in a row: each starts from the tables tuned to the selectors of the one before. */
  ghost predicate InRow(passes: seq<Pass>, syms: seq<nat>, freq: seq<nat>, alphaSize: nat) {
    (forall i :: 0 <= i < |passes| ==> Passed(passes[i], syms)) &&
    (forall i :: 1 <= i < |passes| ==> Tuned(passes[i].tables, syms, passes[i - 1].sel, alphaSize)) &&
    (|passes| > 0 ==> exists cuts :: Stretches(passes[0].tables, cuts, freq, alphaSize))
  }

  lemma OneMorePass(passes: seq<Pass>, syms: seq<nat>, freq: seq<nat>, alphaSize: nat, p: Pass)
    requires InRow(passes, syms, freq, alphaSize) && Passed(p, syms)
    requires if passes == [] then exists cuts :: Stretches(p.tables, cuts, freq, alphaSize) else Tuned(p.tables, syms, passes[|passes| - 1].sel, alphaSize)
    ensures InRow(passes + [p], syms, freq, alphaSize)
  {
    hide Passed, Tuned, Stretches;
    var all := passes + [p];
    if passes == [] {
      var cuts :| Stretches(p.tables, cuts, freq, alphaSize);
      assert Stretches(all[0].tables, cuts, freq, alphaSize);
    } else {
      var cuts :| Stretches(passes[0].tables, cuts, freq, alphaSize);
      assert all[0] == passes[0] && Stretches(all[0].tables, cuts, freq, alphaSize);
    }
  }

  /** Four passes, and the tables tuned to the last: complete codes, each the best for the symbols of its groups, and for
      every group the table that was cheapest before the last tuning. */
  method ChooseTables(mtfv: seq<nat>, mtfFreq: seq<nat>) returns (len: seq<seq<nat>>, sel: seq<nat>, ghost passes: seq<Pass>)
    requires 1 <= |mtfv| <= MAX_SYMBOLS && 2 <= |mtfFreq| <= MAX_ALPHA_SIZE && Sum(mtfFreq) == |mtfv|
    requires forall i :: 0 <= i < |mtfv| ==> mtfv[i] < |mtfFreq|
    ensures |len| == GroupCount(|mtfv|) && Complete(len, |mtfFreq|) && |sel| <= 18002
    ensures |passes| == N_ITERS && InRow(passes, mtfv, mtfFreq, |mtfFreq|)
    ensures |passes[N_ITERS - 1].tables| == |len| && passes[N_ITERS - 1].sel == sel && Tuned(len, mtfv, sel, |mtfFreq|)
  {
    hide Sum, KraftSum, Pow2, Stretch, BestFor, Frequencies, Tuned, Passed, InRow, Stretches, BestCode, Given, Frequency;
    var alphaSize := |mtfFreq|;
    ghost var cuts;
    len, cuts := InitialTables(mtfFreq, |mtfv|, GroupCount(|mtfv|));
    StartsWith(len, cuts, mtfFreq, alphaSize);
    NoPasses(mtfv, mtfFreq, alphaSize);
    sel, passes := [], [];
    for iter := 0 to N_ITERS
      invariant |len| == GroupCount(|mtfv|) && Costs(len, alphaSize, LONGEST)
      invariant |passes| == iter && InRow(passes, mtfv, mtfFreq, alphaSize)
      invariant if iter == 0 then exists cuts :: Stretches(len, cuts, mtfFreq, alphaSize) else
        Complete(len, alphaSize) && passes[iter - 1].sel == sel && |passes[iter - 1].tables| == |len| && Tuned(len, mtfv, sel, alphaSize)
      invariant iter > 0 ==> |sel| <= 18002
    {
      var rfreq;
      ghost var was := len;
      sel, rfreq := ChooseSelectors(mtfv, len, alphaSize);
      PassIs(was, sel, mtfv);
      OneMorePass(passes, mtfv, mtfFreq, alphaSize, Pass(was, sel));
      passes := passes + [Pass(was, sel)];
      len := Rebuild(rfreq, alphaSize, |mtfv|);
      TunedIs(len, mtfv, sel, alphaSize, rfreq);
    }
  }

  lemma StartsWith(len: seq<seq<nat>>, cuts: seq<nat>, freq: seq<nat>, alphaSize: nat)
    requires |freq| == alphaSize && forall k :: 0 <= k < |len| && k + 1 < |cuts| ==> Stretch(freq, |len|, k, cuts[k], cuts[k + 1])
    requires |cuts| == |len| + 1 && cuts[0] == 0 && cuts[|len|] <= alphaSize
    requires forall k :: 0 <= k < |len| ==> cuts[k] <= cuts[k + 1] && len[|len| - 1 - k] == Part(cuts[k], cuts[k + 1] as int - 1, alphaSize)
    ensures Stretches(len, cuts, freq, alphaSize)
  {}

  lemma NoPasses(syms: seq<nat>, freq: seq<nat>, alphaSize: nat)
    ensures InRow([], syms, freq, alphaSize)
  {}

  lemma PassIs(tables: seq<seq<nat>>, sel: seq<nat>, syms: seq<nat>)
    requires GROUP * (|sel| - 1) < |syms| <= GROUP * |sel| && forall k :: 0 <= k < |sel| ==> BestFor(syms, tables, k, sel[k])
    ensures Passed(Pass(tables, sel), syms)
  {}

  lemma TunedIs(len: seq<seq<nat>>, syms: seq<nat>, sel: seq<nat>, alphaSize: nat, rfreq: seq<seq<nat>>)
    requires |syms| <= GROUP * |sel| && |len| == |rfreq| && forall t :: 0 <= t < |len| ==> BestCode(rfreq[t], len[t])
    requires forall t :: 0 <= t < |len| ==> rfreq[t] == Frequency(Given(syms, sel, t), alphaSize)
    ensures Tuned(len, syms, sel, alphaSize)
  {}

  /** Symbol counts add up to the number of symbols. */
  lemma {:induction false} TallySum(syms: seq<nat>, freq: seq<nat>, n: nat)
    requires n == |freq| && M.Tallied(freq, syms, n) && forall i :: 0 <= i < |syms| ==> syms[i] < n
    ensures Sum(freq) == |syms|
    decreases |syms|
  {
    if syms == [] {
      assert freq == seq(n, _ => 0);
      SumZeros(n);
    } else {
      var front, x := syms[..|syms| - 1], syms[|syms| - 1];
      var freq' := freq[x := freq[x] - 1];
      assert M.Tallied(freq', front, n) by {
        forall v | 0 <= v < n ensures freq'[v] == M.Tally(front, v) { assert freq[v] == M.Tally(syms, v); }
      }
      TallySum(front, freq', n);
      SumUpdate(freq', x, freq[x]);
      assert freq'[x := freq[x]] == freq;
    }
  }
}
