/** The decoder's move-to-front list: sixteen segments of sixteen entries that slide down a 4096-byte
    area, so that moving an entry to the front shifts one segment instead of the whole list. */
module SlidingMtf {
  import opened Mtf

  const MTFA_SIZE := 4096
  const MTFL_SIZE := 16

  /** Segments are ordered, disjoint and inside the area. */
  ghost predicate Segments(base: seq<int>) {
    |base| == 16 && base[0] >= 0 && base[15] + 16 <= 4096 &&
    forall l :: 0 <= l < 15 ==> base[l] + 16 <= base[l + 1]
  }

  lemma {:induction false} SegmentsApart(base: seq<int>, l: int, m: int)
    requires Segments(base) && 0 <= l <= m < 16
    ensures 0 <= base[l] <= 3840 + 16 * l && 0 <= base[m] <= 3840 + 16 * m
    ensures base[l] + 16 * (m - l) <= base[m]
    decreases m - l
  {
    LowEnd(base, l);
    HighEnd(base, l);
    HighEnd(base, m);
    if l < m { SegmentsApart(base, l + 1, m); }
  }

  lemma {:induction false} LowEnd(base: seq<int>, l: int)
    requires Segments(base) && 0 <= l < 16
    ensures 0 <= base[l]
  {
    if l > 0 { LowEnd(base, l - 1); }
  }

  lemma {:induction false} HighEnd(base: seq<int>, m: int)
    requires Segments(base) && 0 <= m < 16
    ensures base[m] <= 3840 + 16 * m
    decreases 16 - m
  {
    if m < 15 { HighEnd(base, m + 1); }
  }

  /** Entry j of segment l. */
  ghost function Cell(a: seq<nat>, base: seq<int>, l: int, j: int): nat
    requires Segments(base) && |a| == 4096 && 0 <= l < 16 && 0 <= j < 16
  {
    SegmentsApart(base, l, l);
    a[base[l] + j]
  }

  /** The list the segments hold. */
  ghost function List(a: seq<nat>, base: seq<int>): (list: seq<nat>)
    requires Segments(base) && |a| == 4096
    ensures |list| == 256
  {
    seq(256, q requires 0 <= q < 256 => Cell(a, base, q / 16, q % 16))
  }

  /** Entry j of segment l after moving entry (lno, off) to the front. */
  ghost function Moved(a: seq<nat>, base: seq<int>, lno: int, off: int, l: int, j: int): nat
    requires Segments(base) && |a| == 4096
    requires 0 <= lno < 16 && 0 <= off < 16 && 0 <= l < 16 && 0 <= j < 16
  {
    if l > lno || (l == lno && j > off) then Cell(a, base, l, j)
    else if l == 0 && j == 0 then Cell(a, base, lno, off)
    else if j == 0 then Cell(a, base, l - 1, 15)
    else Cell(a, base, l, j - 1)
  }

  /** Cell by cell, that is moving list entry 16 * lno + off to the front. */
  lemma MovedList(a: seq<nat>, base: seq<int>, a': seq<nat>, base': seq<int>, lno: int, off: int)
    requires Segments(base) && Segments(base') && |a| == |a'| == 4096 && 0 <= lno < 16 && 0 <= off < 16
    requires forall l, j :: 0 <= l < 16 && 0 <= j < 16 ==> Cell(a', base', l, j) == Moved(a, base, lno, off, l, j)
    ensures List(a', base') == MoveToFront(List(a, base), 16 * lno + off)
  {
    var list, nn := List(a, base), 16 * lno + off;
    forall q | 0 <= q < 256 ensures List(a', base')[q] == MoveToFront(list, nn)[q] {
      hide Cell;
      var l, j := q / 16, q % 16;
      assert q == 16 * l + j;
      assert Cell(a', base', l, j) == Moved(a, base, lno, off, l, j);
      if q > 0 { assert j == 0 ==> (q - 1) / 16 == l - 1 && (q - 1) % 16 == 15; }
      if q > 0 { assert j > 0 ==> (q - 1) / 16 == l && (q - 1) % 16 == j - 1; }
    }
  }

  /** Cell x after the cells above lo up to hi have each taken their predecessor's value. */
  ghost function Shifted(a: seq<nat>, lo: int, hi: int, x: int): nat
    requires 0 <= lo && hi < |a| && 0 <= x < |a|
  {
    if lo < x <= hi then a[x - 1] else a[x]
  }

  /** Shifts entries up to off of one segment by one place. */
  method ShiftSegment(mtfa: array<nat>, lo: int, hi: int)
    requires mtfa.Length == 4096 && 0 <= lo <= hi < 4096
    modifies mtfa
    ensures forall x :: 0 <= x < 4096 ==> mtfa[x] == Shifted(old(mtfa[..]), lo, hi, x)
  {
    var pp := hi;
    while pp > lo
      invariant lo <= pp <= hi
      invariant forall x :: 0 <= x < 4096 ==> mtfa[x] == Shifted(old(mtfa[..]), pp, hi, x)
    {
      mtfa[pp] := mtfa[pp - 1];
      pp := pp - 1;
    }
  }

  /** The first segment holds the entry: shift within it, four entries at a time while possible. */
  method MoveWithinFirst(mtfa: array<nat>, mtfbase: array<int>, nn: nat) returns (uc: nat)
    requires mtfa.Length == 4096 && mtfbase.Length == 16 && Segments(mtfbase[..]) && nn < 16
    modifies mtfa
    ensures uc == old(List(mtfa[..], mtfbase[..]))[nn]
    ensures List(mtfa[..], mtfbase[..]) == MoveToFront(old(List(mtfa[..], mtfbase[..])), nn)
  {
    hide List, MoveToFront, Cell;
    ghost var a0, base := mtfa[..], mtfbase[..];
    SegmentsApart(base, 0, 0);
    CellAt(a0, base, nn);
    var pp := mtfbase[0];
    uc := mtfa[pp + nn];
    var n := nn;
    while n > 3
      invariant 0 <= n <= nn
      invariant forall x :: 0 <= x < 4096 ==> mtfa[x] == Shifted(a0, pp + n, pp + nn, x)
    {
      var z := pp + n;
      mtfa[z] := mtfa[z - 1];
      mtfa[z - 1] := mtfa[z - 2];
      mtfa[z - 2] := mtfa[z - 3];
      mtfa[z - 3] := mtfa[z - 4];
      n := n - 4;
    }
    while n > 0
      invariant 0 <= n <= nn
      invariant forall x :: 0 <= x < 4096 ==> mtfa[x] == Shifted(a0, pp + n, pp + nn, x)
    {
      mtfa[pp + n] := mtfa[pp + n - 1];
      n := n - 1;
    }
    mtfa[pp] := uc;
    WithinMoved(a0, mtfa[..], base, nn);
  }

  lemma WithinMoved(a0: seq<nat>, a: seq<nat>, base: seq<int>, nn: nat)
    requires Segments(base) && |a| == |a0| == 4096 && nn < 16 && 0 <= base[0] <= 4080
    requires forall x :: 0 <= x < 4096 ==>
      a[x] == if x == base[0] then a0[base[0] + nn] else Shifted(a0, base[0], base[0] + nn, x)
    ensures List(a, base) == MoveToFront(List(a0, base), nn)
  {
    forall l, j | 0 <= l < 16 && 0 <= j < 16
      ensures Cell(a, base, l, j) == Moved(a0, base, 0, nn, l, j)
    {
      SegmentsApart(base, 0, l);
    }
    MovedList(a0, base, a, base, 0, nn);
  }

  /** Segment l has been copied to its place at the top. */
  ghost predicate Copied(a: seq<nat>, a0: seq<nat>, base: seq<int>, l: int) {
    |a| == |a0| == 4096 && |base| == 16 && 0 <= l < 16 && 0 <= base[l] <= 4080 &&
    a[3840 + 16 * l..3840 + 16 * l + 16] == a0[base[l]..base[l] + 16]
  }

  /** Copies one segment upwards, last entry first, so that overlapping areas do no harm. */
  method CopyUp(mtfa: array<nat>, src: int, dst: int)
    requires mtfa.Length == 4096 && 0 <= src <= dst <= 4080
    modifies mtfa
    ensures mtfa[..dst] == old(mtfa[..dst])
    ensures mtfa[dst..dst + 16] == old(mtfa[src..src + 16])
    ensures mtfa[dst + 16..] == old(mtfa[dst + 16..])
  {
    var jj := 15;
    ghost var a0 := mtfa[..];
    while jj >= 0
      invariant -1 <= jj <= 15
      invariant forall x :: 0 <= x < 4096 ==> mtfa[x] == Raised(a0, src, dst, jj, x)
    {
      mtfa[dst + jj] := mtfa[src + jj];
      jj := jj - 1;
    }
  }

  /** Entry x while the entries above jj of a segment have been copied. */
  ghost function Raised(a: seq<nat>, src: int, dst: int, jj: int, x: int): nat
    requires |a| == 4096 && 0 <= src <= dst <= 4080 && 0 <= x < 4096
  {
    if dst <= x && dst + jj < x < dst + 16 then a[src + (x - dst)] else a[x]
  }

  /** Copies every segment to the top of the area, in place. */
  method Compact(mtfa: array<nat>, mtfbase: array<int>)
    requires mtfa.Length == 4096 && mtfbase.Length == 16 && Segments(mtfbase[..])
    modifies mtfa, mtfbase
    ensures mtfbase[0] > 0 && Segments(mtfbase[..])
    ensures List(mtfa[..], mtfbase[..]) == old(List(mtfa[..], mtfbase[..]))
  {
    hide Copied;
    ghost var a0, base := mtfa[..], mtfbase[..];
    var kk := MTFA_SIZE - 1;
    var ii := 15;
    while ii >= 0
      invariant -1 <= ii <= 15 && kk == 3840 + 16 * ii + 15
      invariant forall l :: 0 <= l <= ii ==> mtfbase[l] == base[l]
      invariant forall l :: ii < l < 16 ==> mtfbase[l] == 3840 + 16 * l
      invariant mtfa[..kk + 1] == a0[..kk + 1]
      invariant forall l :: ii < l < 16 ==> Copied(mtfa[..], a0, base, l)
    {
      SegmentsApart(base, ii, ii);
      ghost var a1 := mtfa[..];
      CopyUp(mtfa, mtfbase[ii], kk - 15);
      kk := kk - 16;
      CopiedNow(mtfa[..], a1, a0, base, ii);
      forall l | ii < l < 16 ensures Copied(mtfa[..], a0, base, l) {
        CopiedKept(mtfa[..], a1, a0, base, l, 3840 + 16 * ii + 16);
      }
      mtfbase[ii] := kk + 1;
      ii := ii - 1;
    }
    CopiedList(mtfa[..], mtfbase[..], a0, base);
  }

  lemma CopiedList(a: seq<nat>, b: seq<int>, a0: seq<nat>, base: seq<int>)
    requires |a| == |a0| == 4096 && |b| == 16 && Segments(base)
    requires forall l :: 0 <= l < 16 ==> b[l] == 3840 + 16 * l && Copied(a, a0, base, l)
    ensures Segments(b) && List(a, b) == List(a0, base)
  {
    forall q | 0 <= q < 256 ensures List(a, b)[q] == List(a0, base)[q] {
      var l, j := q / 16, q % 16;
      assert Copied(a, a0, base, l);
      assert a[3840 + 16 * l..3840 + 16 * l + 16][j] == a0[base[l]..base[l] + 16][j];
    }
  }

  lemma CopiedNow(a: seq<nat>, a1: seq<nat>, a0: seq<nat>, base: seq<int>, l: int)
    requires |a| == |a1| == |a0| == 4096 && |base| == 16 && 0 <= l < 16 && 0 <= base[l] <= 3840 + 16 * l
    requires a1[..3840 + 16 * l + 16] == a0[..3840 + 16 * l + 16]
    requires a[3840 + 16 * l..3840 + 16 * l + 16] == a1[base[l]..base[l] + 16]
    ensures Copied(a, a0, base, l)
  {
    var p := 3840 + 16 * l + 16;
    assert a1[base[l]..base[l] + 16] == a1[..p][base[l]..base[l] + 16];
    assert a0[base[l]..base[l] + 16] == a0[..p][base[l]..base[l] + 16];
  }

  lemma CopiedKept(a: seq<nat>, a1: seq<nat>, a0: seq<nat>, base: seq<int>, l: int, from: int)
    requires Copied(a1, a0, base, l) && |a| == |a1| && 0 <= from <= 3840 + 16 * l
    requires a[from..] == a1[from..]
    ensures Copied(a, a0, base, l)
  {
    var p := 3840 + 16 * l;
    assert a[p..p + 16] == a[from..][p - from..p + 16 - from];
    assert a1[p..p + 16] == a1[from..][p - from..p + 16 - from];
  }

  // ----- moving an entry out of a later segment -----

  /** Where segment l ends up when an entry leaves segment lno: earlier segments slide down by one. */
  function FinalBase(base: seq<int>, lno: int, l: int): int
    requires |base| == 16 && 0 <= l < 16
  {
    if l < lno then base[l] - 1 else base[l]
  }

  /** Where segment l is while the cascade is at segment m. */
  function CascadeBase(base: seq<int>, lno: int, m: int, l: int): int
    requires |base| == 16 && 0 <= l < 16
  {
    if m == lno && l == lno then base[l] + 1 else if l <= m then base[l] else FinalBase(base, lno, l)
  }

  /** Row l has its final contents at its final place. */
  ghost predicate RowDone(a: seq<nat>, a0: seq<nat>, base: seq<int>, lno: int, off: int, l: int)
    requires Segments(base) && base[0] >= 1 && |a| == |a0| == 4096 && 0 <= l < 16 && 0 <= lno < 16 && 0 <= off < 16
  {
    SegmentsApart(base, 0, l);
    forall j :: 0 <= j < 16 ==> a[FinalBase(base, lno, l) + j] == Moved(a0, base, lno, off, l, j)
  }

  /** Row l is untouched. */
  ghost predicate RowRaw(a: seq<nat>, a0: seq<nat>, base: seq<int>, l: int)
    requires Segments(base) && |a| == |a0| == 4096 && 0 <= l < 16
  {
    SegmentsApart(base, l, l);
    forall j :: 0 <= j < 16 ==> a[base[l] + j] == Cell(a0, base, l, j)
  }

  /** The cascade has filled the rows above m; row lno lacks only its first entry until then. */
  ghost predicate Cascade(a: seq<nat>, a0: seq<nat>, base: seq<int>, lno: int, off: int, m: int)
    requires Segments(base) && base[0] >= 1 && |a| == |a0| == 4096
    requires 0 <= m <= lno < 16 && 0 <= off < 16
  {
    SegmentsApart(base, 0, lno);
    (forall l :: m < l < 16 ==> RowDone(a, a0, base, lno, off, l)) &&
    (forall l :: 0 <= l <= m && l < lno ==> RowRaw(a, a0, base, l)) &&
    (m == lno ==> forall j :: 1 <= j < 16 ==> a[base[lno] + j] == Moved(a0, base, lno, off, lno, j))
  }

  lemma RowDoneKept(a: seq<nat>, a0: seq<nat>, base: seq<int>, lno: int, off: int, l: int, m: int, v: nat)
    requires Segments(base) && base[0] >= 1 && |a| == |a0| == 4096
    requires 0 <= m < l < 16 && m <= lno < 16 && 0 <= off < 16 && RowDone(a, a0, base, lno, off, l)
    ensures 0 <= FinalBase(base, lno, m) < 4096
    ensures RowDone(a[FinalBase(base, lno, m) := v], a0, base, lno, off, l)
  {
    hide Moved;
    SegmentsApart(base, 0, m);
    SegmentsApart(base, m, l);
  }

  lemma RowRawKept(a: seq<nat>, a0: seq<nat>, base: seq<int>, lno: int, l: int, m: int)
    requires Segments(base) && base[0] >= 1 && |a| == |a0| == 4096
    requires 0 <= l < m <= lno < 16 && RowRaw(a, a0, base, l) && RowRaw(a, a0, base, m - 1)
    ensures 0 <= FinalBase(base, lno, m) < 4096 && 0 <= base[m - 1] + 15 < 4096
    ensures RowRaw(a[FinalBase(base, lno, m) := a[base[m - 1] + 15]], a0, base, l)
  {
    SegmentsApart(base, 0, m);
    SegmentsApart(base, l, m - 1);
    SegmentsApart(base, m - 1, m);
  }

  /** One step: row m takes the last entry of row m - 1 in front. */
  lemma CascadeStep(a: seq<nat>, a0: seq<nat>, base: seq<int>, lno: int, off: int, m: int)
    requires Segments(base) && base[0] >= 1 && |a| == |a0| == 4096
    requires 0 < m <= lno < 16 && 0 <= off < 16 && Cascade(a, a0, base, lno, off, m)
    ensures 0 <= FinalBase(base, lno, m) < 4096 && 0 <= base[m - 1] + 15 < 4096
    ensures Cascade(a[FinalBase(base, lno, m) := a[base[m - 1] + 15]], a0, base, lno, off, m - 1)
  {
    hide RowDone, RowRaw, Cell, Moved;
    assert RowRaw(a, a0, base, m - 1);
    RowRawKept(a, a0, base, lno, m - 1, m);
    var a' := a[FinalBase(base, lno, m) := a[base[m - 1] + 15]];
    forall l | m < l < 16 ensures RowDone(a', a0, base, lno, off, l) {
      RowDoneKept(a, a0, base, lno, off, l, m, a[base[m - 1] + 15]);
    }
    forall l | 0 <= l < m ensures RowRaw(a', a0, base, l) {
      RowRawKept(a, a0, base, lno, l, m);
    }
    SegmentsApart(base, 0, m);
    RowFilled(a, a0, base, lno, off, m);
  }

  lemma RowFilled(a: seq<nat>, a0: seq<nat>, base: seq<int>, lno: int, off: int, m: int)
    requires Segments(base) && base[0] >= 1 && |a| == |a0| == 4096
    requires 0 < m <= lno < 16 && 0 <= off < 16 && RowRaw(a, a0, base, m - 1)
    requires 0 <= FinalBase(base, lno, m) < 4096 && 0 <= base[m - 1] + 15 < 4096
    requires 0 <= base[m] <= 4080
    requires m < lno ==> RowRaw(a, a0, base, m)
    requires m == lno ==> forall j :: 1 <= j < 16 ==> a[base[lno] + j] == Moved(a0, base, lno, off, lno, j)
    ensures RowDone(a[FinalBase(base, lno, m) := a[base[m - 1] + 15]], a0, base, lno, off, m)
  {
    SegmentsApart(base, 0, m);
    var t := FinalBase(base, lno, m);
    var a' := a[t := a[base[m - 1] + 15]];
    forall j | 0 <= j < 16 ensures a'[t + j] == Moved(a0, base, lno, off, m, j) {
      if j == 0 {
        assert a[base[m - 1] + 15] == Cell(a0, base, m - 1, 15);
      } else if m < lno {
        assert a[base[m] + (j - 1)] == Cell(a0, base, m, j - 1);
      }
    }
  }

  lemma CascadeStart(a: seq<nat>, a0: seq<nat>, base: seq<int>, lno: int, off: int)
    requires Segments(base) && base[0] >= 1 && |a| == |a0| == 4096 && 0 < lno < 16 && 0 <= off < 16
    requires 0 <= base[lno] <= 4080
    requires forall x :: 0 <= x < 4096 ==> a[x] == Shifted(a0, base[lno], base[lno] + off, x)
    ensures Cascade(a, a0, base, lno, off, lno)
  {
    forall l | lno < l < 16 ensures RowDone(a, a0, base, lno, off, l) { SegmentsApart(base, lno, l); }
    forall l | 0 <= l < lno ensures RowRaw(a, a0, base, l) { SegmentsApart(base, l, lno); }
  }

  /** The moved entry goes in front of everything. */
  lemma CascadeEnd(a: seq<nat>, a0: seq<nat>, base: seq<int>, base': seq<int>, lno: int, off: int)
    requires Segments(base) && base[0] >= 1 && |a| == |a0| == 4096 && 0 < lno < 16 && 0 <= off < 16
    requires Cascade(a, a0, base, lno, off, 0)
    requires |base'| == 16 && forall l :: 0 <= l < 16 ==> base'[l] == FinalBase(base, lno, l)
    ensures Segments(base') && base[0] <= 4080
    ensures List(a[base[0] - 1 := Cell(a0, base, lno, off)], base') == MoveToFront(List(a0, base), 16 * lno + off)
  {
    SegmentsApart(base, 0, 0);
    var v := Cell(a0, base, lno, off);
    var a' := a[base[0] - 1 := v];
    assert RowRaw(a, a0, base, 0);
    forall l, j | 0 <= l < 16 && 0 <= j < 16
      ensures Cell(a', base', l, j) == Moved(a0, base, lno, off, l, j)
    {
      if l == 0 {
        if j > 0 { assert a[base[0] + (j - 1)] == Cell(a0, base, 0, j - 1); }
      } else {
        SegmentsApart(base, 0, l);
        RowDoneKept(a, a0, base, lno, off, l, 0, v);
        assert RowDone(a', a0, base, lno, off, l);
        assert a'[FinalBase(base, lno, l) + j] == Moved(a0, base, lno, off, l, j);
      }
    }
    MovedList(a0, base, a', base', lno, off);
  }

  /** The general case: one entry crosses each segment boundary, and the area is compacted when the
      first segment reaches its bottom. */
  method MoveAcross(mtfa: array<nat>, mtfbase: array<int>, nn: nat) returns (uc: nat)
    requires mtfa.Length == 4096 && mtfbase.Length == 16 && Segments(mtfbase[..]) && mtfbase[0] >= 1
    requires MTFL_SIZE <= nn < 256
    modifies mtfa, mtfbase
    ensures Segments(mtfbase[..]) && mtfbase[0] >= 1
    ensures uc == old(List(mtfa[..], mtfbase[..]))[nn]
    ensures List(mtfa[..], mtfbase[..]) == MoveToFront(old(List(mtfa[..], mtfbase[..])), nn)
  {
    hide Cascade, Cell, List, Shifted, Segments;
    ghost var a0, base := mtfa[..], mtfbase[..];
    var lno := nn / MTFL_SIZE;
    var off := nn % MTFL_SIZE;
    ghost var lno0 := lno;
    SegmentsApart(base, 0, lno);
    var pp := mtfbase[lno] + off;
    uc := mtfa[pp];
    CellAt(a0, base, nn);
    ShiftSegment(mtfa, mtfbase[lno], pp);
    CascadeStart(mtfa[..], a0, base, lno, off);
    mtfbase[lno] := mtfbase[lno] + 1;
    while lno > 0
      invariant 0 <= lno <= lno0
      invariant Cascade(mtfa[..], a0, base, lno0, off, lno)
      invariant forall l :: 0 <= l < 16 ==> mtfbase[l] == CascadeBase(base, lno0, lno, l)
    {
      CascadeStep(mtfa[..], a0, base, lno0, off, lno);
      mtfbase[lno] := mtfbase[lno] - 1;
      mtfa[mtfbase[lno]] := mtfa[mtfbase[lno - 1] + MTFL_SIZE - 1];
      lno := lno - 1;
    }
    mtfbase[0] := mtfbase[0] - 1;
    CascadeEnd(mtfa[..], a0, base, mtfbase[..], lno0, off);
    mtfa[mtfbase[0]] := uc;
    if mtfbase[0] == 0 {
      Compact(mtfa, mtfbase);
    }
  }

  lemma CellAt(a: seq<nat>, base: seq<int>, nn: nat)
    requires Segments(base) && |a| == 4096 && nn < 256
    ensures 0 <= base[nn / 16] <= 4080
    ensures Cell(a, base, nn / 16, nn % 16) == List(a, base)[nn] == a[base[nn / 16] + nn % 16]
  {
    SegmentsApart(base, nn / 16, nn / 16);
  }

  /** Initially the segments sit at the top of the area and list all byte values in order. */
  method InitMtf(mtfa: array<nat>, mtfbase: array<int>)
    requires mtfa.Length == 4096 && mtfbase.Length == 16
    modifies mtfa, mtfbase
    ensures Segments(mtfbase[..]) && mtfbase[0] >= 1
    ensures forall q :: 0 <= q < 256 ==> List(mtfa[..], mtfbase[..])[q] == q
  {
    var kk := MTFA_SIZE - 1;
    var ii := 15;
    while ii >= 0
      invariant -1 <= ii <= 15 && kk == 3840 + 16 * ii + 15
      invariant forall l :: ii < l < 16 ==> mtfbase[l] == 3840 + 16 * l
      invariant forall x :: kk < x < 4096 ==> mtfa[x] == x - 3840
    {
      var jj := 15;
      while jj >= 0
        invariant -1 <= jj <= 15 && kk == 3840 + 16 * ii + jj
        invariant forall l :: ii < l < 16 ==> mtfbase[l] == 3840 + 16 * l
        invariant forall x :: kk < x < 4096 ==> mtfa[x] == x - 3840
      {
        mtfa[kk] := ii * MTFL_SIZE + jj;
        kk := kk - 1;
        jj := jj - 1;
      }
      mtfbase[ii] := kk + 1;
      ii := ii - 1;
    }
    forall q | 0 <= q < 256 ensures List(mtfa[..], mtfbase[..])[q] == q {
      CellAt(mtfa[..], mtfbase[..], q);
    }
  }

  /** One decoded position: look the entry up and move it to the front. */
  method UseMtf(mtfa: array<nat>, mtfbase: array<int>, nn: nat) returns (uc: nat)
    requires mtfa.Length == 4096 && mtfbase.Length == 16 && Segments(mtfbase[..]) && mtfbase[0] >= 1 && nn < 256
    modifies mtfa, mtfbase
    ensures Segments(mtfbase[..]) && mtfbase[0] >= 1
    ensures uc == old(List(mtfa[..], mtfbase[..]))[nn]
    ensures List(mtfa[..], mtfbase[..]) == MoveToFront(old(List(mtfa[..], mtfbase[..])), nn)
  {
    if nn < MTFL_SIZE {
      uc := MoveWithinFirst(mtfa, mtfbase, nn);
    } else {
      uc := MoveAcross(mtfa, mtfbase, nn);
    }
  }
}
