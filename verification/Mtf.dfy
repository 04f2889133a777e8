/** Move-to-front and zero-run coding as functions on sequences. */
module Mtf {

  const RUNA: nat := 0
  const RUNB: nat := 1

  // ----- move to front -----

  function MoveToFront(list: seq<nat>, j: nat): (r: seq<nat>)
    requires j < |list|
    ensures |r| == |list|
  {
    [list[j]] + list[..j] + list[j + 1..]
  }

  function IndexOf(list: seq<nat>, v: nat): (r: nat)
    requires v in list
    ensures r < |list| && list[r] == v && forall k :: 0 <= k < r ==> list[k] != v
  {
    if list[0] == v then 0 else 1 + IndexOf(list[1..], v)
  }

  /** Every datum is on the list. */
  predicate Drawn(data: seq<nat>, list: seq<nat>) {
    forall k :: 0 <= k < |data| ==> data[k] in list
  }

  /** The list after coding data. */
  function ListAfter(list: seq<nat>, data: seq<nat>): (r: seq<nat>)
    requires Drawn(data, list)
    ensures |r| == |list| && multiset(r) == multiset(list)
    ensures forall x :: x in r <==> x in list
  {
    if data == [] then list
    else
      var before := ListAfter(list, data[..|data| - 1]);
      var v := data[|data| - 1];
      MoveKeeps(before, IndexOf(before, v));
      MoveToFront(before, IndexOf(before, v))
  }

  lemma MoveKeeps(list: seq<nat>, j: nat)
    requires j < |list|
    ensures multiset(MoveToFront(list, j)) == multiset(list)
    ensures forall x :: x in MoveToFront(list, j) <==> x in list
  {
    assert list == list[..j] + [list[j]] + list[j + 1..];
    assert forall x :: x in list <==> x in multiset(list);
    assert forall x :: x in MoveToFront(list, j) <==> x in multiset(MoveToFront(list, j));
  }

  /** The list positions at which the data are found. */
  function Positions(list: seq<nat>, data: seq<nat>): (r: seq<nat>)
    requires Drawn(data, list)
    ensures |r| == |data| && forall k :: 0 <= k < |r| ==> r[k] < |list|
  {
    if data == [] then []
    else
      var front := data[..|data| - 1];
      Positions(list, front) + [IndexOf(ListAfter(list, front), data[|data| - 1])]
  }

  lemma PositionsOne(list: seq<nat>, data: seq<nat>, v: nat)
    requires Drawn(data, list) && v in list
    ensures Drawn(data + [v], list)
    ensures var j := IndexOf(ListAfter(list, data), v);
            Positions(list, data + [v]) == Positions(list, data) + [j] &&
            ListAfter(list, data + [v]) == MoveToFront(ListAfter(list, data), j)
  {
    hide MoveToFront, IndexOf;
    assert (data + [v])[..|data|] == data;
  }

  /** Decoding: look up, then move to front. */
  function Lookups(list: seq<nat>, pos: seq<nat>): (r: (seq<nat>, seq<nat>))
    requires forall k :: 0 <= k < |pos| ==> pos[k] < |list|
    ensures |r.0| == |pos| && |r.1| == |list|
  {
    if pos == [] then ([], list)
    else
      var (out, l) := Lookups(list, pos[..|pos| - 1]);
      var j := pos[|pos| - 1];
      (out + [l[j]], MoveToFront(l, j))
  }

  /** Decoding the positions restores the data and leaves the same list. */
  lemma {:induction false} LookupsInvert(list: seq<nat>, data: seq<nat>)
    requires Drawn(data, list)
    ensures Lookups(list, Positions(list, data)) == (data, ListAfter(list, data))
  {
    if data != [] {
      hide Lookups, MoveToFront, IndexOf;
      var front, v := data[..|data| - 1], data[|data| - 1];
      LookupsInvert(list, front);
      var j := IndexOf(ListAfter(list, front), v);
      LookupsOne(list, Positions(list, front), j);
      assert data == front + [v];
    }
  }

  lemma LookupsOne(list: seq<nat>, pos: seq<nat>, j: nat)
    requires forall k :: 0 <= k < |pos| ==> pos[k] < |list|
    requires j < |list|
    ensures var (out, l) := Lookups(list, pos);
            Lookups(list, pos + [j]) == (out + [l[j]], MoveToFront(l, j))
  {
    assert (pos + [j])[..|pos|] == pos;
  }

  // ----- zero runs -----

  /** The bijective base-2 digits of a run length, lowest first. */
  function RunDigits(z: nat): (r: seq<nat>)
    ensures |r| <= z && forall k :: 0 <= k < |r| ==> r[k] == RUNA || r[k] == RUNB
    ensures z > 0 ==> |r| > 0
  {
    if z == 0 then [] else [(z - 1) % 2] + RunDigits((z - 1) / 2)
  }

  function TrailingZeros(pos: seq<nat>): (z: nat)
    ensures z <= |pos|
  {
    if pos == [] || pos[|pos| - 1] != 0 then 0 else TrailingZeros(pos[..|pos| - 1]) + 1
  }

  /** Symbols written before the pending run of zeros. */
  function Written(pos: seq<nat>): (r: seq<nat>)
    ensures |r| + TrailingZeros(pos) <= |pos|
  {
    if pos == [] then []
    else
      var front, j := pos[..|pos| - 1], pos[|pos| - 1];
      if j == 0 then Written(front)
      else Written(front) + RunDigits(TrailingZeros(front)) + [j + 1]
  }

  lemma WrittenOne(pos: seq<nat>, j: nat)
    ensures j == 0 ==> Written(pos + [j]) == Written(pos) && TrailingZeros(pos + [j]) == TrailingZeros(pos) + 1
    ensures j > 0 ==> TrailingZeros(pos + [j]) == 0 &&
                      Written(pos + [j]) == Written(pos) + RunDigits(TrailingZeros(pos)) + [j + 1]
  {
    assert (pos + [j])[..|pos|] == pos;
  }

  /** The whole symbol stream of a block, end-of-block symbol included. */
  function Symbols(pos: seq<nat>, eob: nat): (r: seq<nat>)
    ensures 1 <= |r| <= |pos| + 1
  {
    Written(pos) + RunDigits(TrailingZeros(pos)) + [eob]
  }

  /** What the decoder has made of the symbols so far: the positions, and a run being added up. */
  datatype Runs = Runs(pos: seq<nat>, es: nat, n: nat) | Bad

  const START: Runs := Runs([], 0, 1)

  function Zeros(z: nat): (r: seq<nat>)
    ensures |r| == z && forall k :: 0 <= k < z ==> r[k] == 0
  {
    seq(z, _ => 0)
  }

  const RUN_CAP: nat := 0x20_0000

  /** One symbol other than end-of-block.  A run digit of weight two million or more is refused. */
  function Absorb(st: Runs, sym: nat): Runs {
    if st.Bad? then Bad
    else if sym == RUNA || sym == RUNB then
      if st.n >= RUN_CAP then Bad else Runs(st.pos, st.es + (sym + 1) * st.n, 2 * st.n)
    else Runs(st.pos + Zeros(st.es) + [sym - 1], 0, 1)
  }

  function AbsorbAll(st: Runs, syms: seq<nat>): Runs {
    if syms == [] then st else Absorb(AbsorbAll(st, syms[..|syms| - 1]), syms[|syms| - 1])
  }

  lemma AbsorbOne(st: Runs, syms: seq<nat>, x: nat)
    ensures AbsorbAll(st, syms + [x]) == Absorb(AbsorbAll(st, syms), x)
  {
    assert (syms + [x])[..|syms|] == syms;
  }

  lemma {:induction false} AbsorbConcat(st: Runs, a: seq<nat>, b: seq<nat>)
    ensures AbsorbAll(st, a + b) == AbsorbAll(AbsorbAll(st, a), b)
  {
    if b == [] {
      assert a + b == a;
    } else {
      var front := b[..|b| - 1];
      AbsorbConcat(st, a, front);
      assert (a + b)[..|a + b| - 1] == a + front;
    }
  }

  /** A run's digits add up to its length, below the cap for every legal block size. */
  lemma {:induction false} RunAbsorbed(st: Runs, z: nat)
    requires st.Runs? && st.n * (z + 1) <= RUN_CAP && st.n >= 1
    ensures AbsorbAll(st, RunDigits(z)).Runs?
    ensures AbsorbAll(st, RunDigits(z)).pos == st.pos && AbsorbAll(st, RunDigits(z)).es == st.es + st.n * z
    decreases z
  {
    if z > 0 {
      var d, z' := (z - 1) % 2, (z - 1) / 2;
      var digits := RunDigits(z);
      assert digits == [d] + RunDigits(z');
      assert z == d + 1 + 2 * z';
      AbsorbConcat(st, [d], RunDigits(z'));
      CapHolds(st.n, z, d, z');
      var st' := Absorb(st, d);
      assert AbsorbAll(st, [d]) == st' by { assert [d][..0] == []; }
      RunAbsorbed(st', z');
    }
  }

  lemma CapHolds(n: nat, z: nat, d: nat, z': nat)
    requires z == d + 1 + 2 * z' && n >= 1 && n * (z + 1) <= RUN_CAP
    ensures n < RUN_CAP && 2 * n * (z' + 1) <= RUN_CAP
    ensures (d + 1) * n + 2 * n * z' == n * z
  {
    assert n * (z + 1) == n * (d + 2) + 2 * n * z';
    assert n * (d + 2) >= 2 * n by { assert n * (d + 2) == 2 * n + n * d; }
  }

  const MAX_BLOCK: nat := 900000

  /** A run after a position. */
  lemma FirstRun(pos: seq<nat>, z: nat)
    requires z <= MAX_BLOCK
    ensures var st := AbsorbAll(Runs(pos, 0, 1), RunDigits(z));
            st.Runs? && st.pos == pos && st.es == z
  {
    hide AbsorbAll, RunDigits;
    RunAbsorbed(Runs(pos, 0, 1), z);
  }

  /** The symbols written so far decode to the positions before the pending run. */
  lemma {:induction false} WrittenAbsorbed(pos: seq<nat>)
    requires |pos| <= MAX_BLOCK
    ensures AbsorbAll(START, Written(pos)) == Runs(pos[..|pos| - TrailingZeros(pos)], 0, 1)
  {
    hide AbsorbAll, Absorb, RunDigits, Zeros, Written, TrailingZeros;
    if pos == [] {
      NoneWritten();
    } else {
      var front, j := pos[..|pos| - 1], pos[|pos| - 1];
      assert pos == front + [j];
      WrittenAbsorbed(front);
      WrittenOne(front, j);
      if j == 0 {
        assert pos[..|pos| - TrailingZeros(pos)] == front[..|front| - TrailingZeros(front)];
      } else {
        assert pos[..|pos| - 0] == pos;
        var z := TrailingZeros(front);
        WrittenStep(Written(front), front[..|front| - z], z, j);
        TrailingSplit(front);
      }
    }
  }

  lemma NoneWritten()
    ensures AbsorbAll(START, Written([])) == START && TrailingZeros([]) == 0
  {}

  /** A position after a run of z zeros. */
  lemma WrittenStep(w: seq<nat>, pos: seq<nat>, z: nat, j: nat)
    requires j > 0 && z <= MAX_BLOCK && AbsorbAll(START, w) == Runs(pos, 0, 1)
    ensures AbsorbAll(START, w + RunDigits(z) + [j + 1]) == Runs(pos + Zeros(z) + [j], 0, 1)
  {
    hide RunDigits, AbsorbAll, Zeros;
    FirstRun(pos, z);
    AbsorbConcat(START, w, RunDigits(z));
    AbsorbOne(START, w + RunDigits(z), j + 1);
  }

  lemma {:induction false} TrailingAreZeros(pos: seq<nat>)
    ensures forall k :: |pos| - TrailingZeros(pos) <= k < |pos| ==> pos[k] == 0
  {
    if pos != [] && pos[|pos| - 1] == 0 { TrailingAreZeros(pos[..|pos| - 1]); }
  }

  lemma TrailingSplit(pos: seq<nat>)
    ensures pos[..|pos| - TrailingZeros(pos)] + Zeros(TrailingZeros(pos)) == pos
  {
    hide TrailingZeros;
    TrailingAreZeros(pos);
  }

  /** Positions decoded when the end-of-block symbol arrives. */
  function Finish(st: Runs): seq<nat>
    requires st.Runs?
  {
    st.pos + Zeros(st.es)
  }

  /** Zero-run coding loses nothing and never meets the decoder's cap. */
  lemma SymbolsDecode(pos: seq<nat>, eob: nat)
    requires |pos| <= MAX_BLOCK
    ensures var syms := Symbols(pos, eob);
            var st := AbsorbAll(START, syms[..|syms| - 1]);
            st.Runs? && Finish(st) == pos
  {
    var z := TrailingZeros(pos);
    var w := Written(pos);
    var syms := Symbols(pos, eob);
    assert syms[..|syms| - 1] == w + RunDigits(z);
    WrittenAbsorbed(pos);
    AbsorbConcat(START, w, RunDigits(z));
    FirstRun(pos[..|pos| - z], z);
    TrailingSplit(pos);
  }

  /** Symbols before end-of-block are run digits or positions raised by one. */
  lemma {:induction false} WrittenBelow(pos: seq<nat>, m: nat)
    requires m >= 1 && forall k :: 0 <= k < |pos| ==> pos[k] < m
    ensures forall k :: 0 <= k < |Written(pos)| ==> Written(pos)[k] <= m
  {
    if pos != [] { WrittenBelow(pos[..|pos| - 1], m); }
  }

  lemma SymbolsBelow(pos: seq<nat>, m: nat)
    requires m >= 1 && forall k :: 0 <= k < |pos| ==> pos[k] < m
    ensures var syms := Symbols(pos, m + 1);
            forall k :: 0 <= k < |syms| - 1 ==> syms[k] <= m
  {
    WrittenBelow(pos, m);
  }
}
