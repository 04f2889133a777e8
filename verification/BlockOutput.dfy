/** Output of a decoded block in pieces of any size: the inverse transform is walked one character at a time
    while stored runs are expanded, and the state kept between calls stands for exactly what is still to come. */
module BlockOutput {
  import opened Rotations
  import opened Bwt
  import opened Rle
  import opened BlockCrc
  import U = Unsort

  class DState {
    const smallDecompress: bool
    const tt: array<nat>
    const ll16: array<nat>
    const ll4: array<nat>
    const cftab: array<nat>
    const blockSize100k: nat
    const nblock: nat
    ghost const col: seq<Byte>
    ghost const origPtr: nat
    ghost const path: seq<nat>
    var tPos: nat
    var nblockUsed: nat
    var k0: Byte
    var stateOutLen: nat
    var stateOutCh: Byte
    var calculatedBlockCRC: nat

    /** The inverse transform is in place for the chosen mode. */
    ghost predicate Ready()
      reads tt, ll16, ll4, cftab
    {
      nblock == |col| && origPtr < nblock <= 100000 * blockSize100k &&
      if smallDecompress then
        nblock <= ll16.Length <= 2 * ll4.Length && U.FirstRows(cftab[..], col) &&
        U.Trail(col, path) && path[0] == origPtr && Rank(col, path[|path| - 1]) == origPtr &&
        forall k :: 0 <= k < |path| ==> U.GetLL(ll16[..], ll4[..], path[k]) == Back(path, k)
      else
        nblock <= tt.Length && forall r :: 0 <= r < nblock ==> tt[r] == U.FastWord(col, r)
    }

    /** tPos is where the next character is fetched from. */
    ghost predicate Located()
      reads this`tPos, this`nblockUsed, tt, ll16, ll4, cftab
    {
      Ready() && tPos == Walk(col, origPtr, if smallDecompress then nblockUsed else nblockUsed + 1)
    }

    ghost predicate Valid()
      reads this`tPos, this`nblockUsed, this`k0, tt, ll16, ll4, cftab
    {
      Located() && nblockUsed >= 1 && (nblockUsed <= nblock ==> k0 == CharAt(col, origPtr, nblockUsed - 1))
    }

    /** What a fresh run from the character in k0 on expands to. */
    ghost function Ahead(used: nat): Expansion
      requires origPtr < |col| && used >= 1
    {
      Unrle(Invert(col, origPtr), CharAt(col, origPtr, |col|), used - 1)
    }

    /** Everything still to be put out. */
    ghost function Pending(): Expansion
      reads this
      requires origPtr < |col| && nblockUsed >= 1
    {
      Prepend(Copies(stateOutCh, stateOutLen), Ahead(nblockUsed))
    }

    /** FAST: the first character is fetched from the row the origin decodes to. */
    constructor Fast(tt: array<nat>, blockSize100k: nat, nblock: nat, origPtr: nat, ghost col: seq<Byte>)
      requires nblock == |col| && origPtr < nblock <= 100000 * blockSize100k && nblock <= tt.Length
      requires forall r :: 0 <= r < nblock ==> tt[r] == U.FastWord(col, r)
      ensures Valid() && !smallDecompress && this.tt == tt && this.nblock == nblock && this.col == col && this.origPtr == origPtr
      ensures Pending() == Unrle(Invert(col, origPtr), CharAt(col, origPtr, |col|), 0)
      ensures calculatedBlockCRC == INITIAL && nblockUsed == 1
    {
      this.smallDecompress := false;
      this.tt := tt;
      this.ll16, this.ll4, this.cftab := new nat[0], new nat[0], new nat[0];
      this.blockSize100k, this.nblock := blockSize100k, nblock;
      this.col, this.origPtr, this.path := col, origPtr, [];
      nblockUsed, stateOutLen, stateOutCh, calculatedBlockCRC, k0 := 0, 0, 0, INITIAL, 0;
      FastStep(col, origPtr);
      tPos := tt[origPtr] / 256;
      new;
      WalkTwo(col, origPtr, 0);
      var ok, c := GetFast();
      k0 := c;
      PrependCopies(stateOutCh, Ahead(1));
    }

    /** SMALL: the links of the origin's cycle have been reversed. */
    constructor Small(ll16: array<nat>, ll4: array<nat>, cftab: array<nat>, blockSize100k: nat, nblock: nat, origPtr: nat,
                      ghost col: seq<Byte>, ghost path: seq<nat>)
      requires nblock == |col| && origPtr < nblock <= 100000 * blockSize100k && nblock <= ll16.Length <= 2 * ll4.Length
      requires U.FirstRows(cftab[..], col)
      requires U.Trail(col, path) && path[0] == origPtr && Rank(col, path[|path| - 1]) == origPtr
      requires forall k :: 0 <= k < |path| ==> U.GetLL(ll16[..], ll4[..], path[k]) == Back(path, k)
      ensures Valid() && smallDecompress && this.ll16 == ll16 && this.ll4 == ll4 && this.cftab == cftab && this.nblock == nblock && this.col == col && this.origPtr == origPtr
      ensures Pending() == Unrle(Invert(col, origPtr), CharAt(col, origPtr, |col|), 0)
      ensures calculatedBlockCRC == INITIAL && nblockUsed == 1
    {
      hide CharAt, Walk, U.GetLL, CountBelow, Unranks, Unrle, Invert, U.FirstRows, Back, U.Trail, Copies;
      this.smallDecompress := true;
      this.tt := new nat[0];
      this.ll16, this.ll4, this.cftab := ll16, ll4, cftab;
      this.blockSize100k, this.nblock := blockSize100k, nblock;
      this.col, this.origPtr, this.path := col, origPtr, path;
      nblockUsed, stateOutLen, stateOutCh, calculatedBlockCRC, k0 := 0, 0, 0, INITIAL, 0;
      tPos := origPtr;
      new;
      WalkTwo(col, origPtr, 0);
      var ok, c := GetSmall();
      k0 := c;
      PrependCopies(stateOutCh, Ahead(1));
    }

    /** Fetches the next character and counts it; the range check on tPos never fires. */
    method GetFast() returns (ok: bool, c: Byte)
      requires Located() && !smallDecompress
      modifies this`tPos, this`nblockUsed
      ensures ok && Located() && nblockUsed == old(nblockUsed) + 1 && c == CharAt(col, origPtr, old(nblockUsed))
    {
      c := 0;
      if tPos >= 100000 * blockSize100k { return false, c; }
      FastStep(col, tPos);
      WalkTwo(col, origPtr, nblockUsed);
      var word := tt[tPos];
      c := word % 256;
      tPos := word / 256;
      nblockUsed := nblockUsed + 1;
      ok := true;
    }

    method GetSmall() returns (ok: bool, c: Byte)
      requires Located() && smallDecompress
      modifies this`tPos, this`nblockUsed
      ensures ok && Located() && nblockUsed == old(nblockUsed) + 1 && c == CharAt(col, origPtr, old(nblockUsed))
    {
      hide CharAt, Walk, U.GetLL, CountBelow, U.Trail, Unranks;
      c := 0;
      if tPos >= 100000 * blockSize100k { return false, c; }
      ghost var x := U.TrailWalk(col, path, nblockUsed);
      WalkTwo(col, origPtr, nblockUsed);
      var nb := U.IndexIntoF(tPos, cftab, col);
      U.FirstColumn(col, tPos, nb);
      c := nb;
      tPos := U.GetLL(ll16[..], ll4[..], tPos);
      nblockUsed := nblockUsed + 1;
      ok := true;
    }

    /** The next character after m equal ones. */
    method MoreFast(ghost i: nat, ghost m: nat, ghost c: Byte) returns (ok: bool, k1: Byte)
      requires Located() && !smallDecompress && origPtr < |col| && 1 <= m <= 3 && nblockUsed == i + m && Seen(Invert(col, origPtr), i, m, c)
      modifies this`tPos, this`nblockUsed
      ensures ok && Located() && nblockUsed == old(nblockUsed) + 1 && k1 == CharAt(col, origPtr, i + m)
      ensures var s, next := Invert(col, origPtr), CharAt(col, origPtr, |col|);
        if i + m == |col| || k1 != c then Unrle(s, next, i) == Prepend(Copies(c, m), Unrle(s, next, i + m))
        else i + m < |col| && Seen(s, i, m + 1, c)
    {
      hide Located, Seen, Invert, Unrle, CharAt, Prepend, Copies;
      ok, k1 := GetFast();
      NextChar(col, origPtr, i, m, c, k1);
    }

    /** Starts the next run, FAST.  A run of one is reported instead of being recorded. */
    method FetchFast() returns (single: bool, corrupt: bool)
      requires Valid() && !smallDecompress && nblockUsed <= nblock
      modifies this`tPos, this`k0, this`nblockUsed, this`stateOutLen, this`stateOutCh
      ensures Valid() && nblockUsed > old(nblockUsed) && !corrupt && (single || stateOutLen > 0)
      ensures old(Ahead(nblockUsed)) == Prepend(Copies(stateOutCh, if single then 1 else stateOutLen), Ahead(nblockUsed))
    {
      hide CharAt, Walk, Ready, Unrle, Copies, Invert, Seen, Located;
      LocatedFacts();
      ghost var s, next, i, c := Invert(col, origPtr), CharAt(col, origPtr, |col|), nblockUsed - 1, k0;
      FirstChar(col, origPtr, i, k0);
      single, corrupt := false, false;
      stateOutCh := k0;
      var ok, k1 := MoreFast(i, 1, c);
      if !ok { return false, true; }
      if k1 != k0 { k0 := k1; return true, false; }
      if nblockUsed == nblock + 1 { return true, false; }
      stateOutLen := 2;
      ok, k1 := MoreFast(i, 2, c);
      if !ok { return false, true; }
      if nblockUsed == nblock + 1 { return; }
      if k1 != k0 { k0 := k1; return; }
      stateOutLen := 3;
      ok, k1 := MoreFast(i, 3, c);
      if !ok { return false, true; }
      if nblockUsed == nblock + 1 { return; }
      if k1 != k0 { k0 := k1; return; }
      ok, k1 := GetFast();
      if !ok { return false, true; }
      CountChar(col, origPtr, i, c, k1);
      stateOutLen := k1 as int + 4;
      ok, k1 := GetFast();
      if !ok { return false, true; }
      k0 := k1;
    }

    /** The next character after m equal ones. */
    method MoreSmall(ghost i: nat, ghost m: nat, ghost c: Byte) returns (ok: bool, k1: Byte)
      requires Located() && smallDecompress && origPtr < |col| && 1 <= m <= 3 && nblockUsed == i + m && Seen(Invert(col, origPtr), i, m, c)
      modifies this`tPos, this`nblockUsed
      ensures ok && Located() && nblockUsed == old(nblockUsed) + 1 && k1 == CharAt(col, origPtr, i + m)
      ensures var s, next := Invert(col, origPtr), CharAt(col, origPtr, |col|);
        if i + m == |col| || k1 != c then Unrle(s, next, i) == Prepend(Copies(c, m), Unrle(s, next, i + m))
        else i + m < |col| && Seen(s, i, m + 1, c)
    {
      hide Located, Seen, Invert, Unrle, CharAt, Prepend, Copies;
      ok, k1 := GetSmall();
      NextChar(col, origPtr, i, m, c, k1);
    }

    /** Starts the next run, SMALL. */
    method FetchSmall() returns (corrupt: bool)
      requires Valid() && smallDecompress && nblockUsed <= nblock
      modifies this`tPos, this`k0, this`nblockUsed, this`stateOutLen, this`stateOutCh
      ensures Valid() && nblockUsed > old(nblockUsed) && !corrupt
      ensures old(Ahead(nblockUsed)) == Pending()
    {
      hide CharAt, Walk, Ready, Unrle, Copies, Invert, Seen, Located;
      LocatedFacts();
      ghost var s, next, i, c := Invert(col, origPtr), CharAt(col, origPtr, |col|), nblockUsed - 1, k0;
      FirstChar(col, origPtr, i, k0);
      corrupt := false;
      stateOutLen := 1;
      stateOutCh := k0;
      var ok, k1 := MoreSmall(i, 1, c);
      if !ok { return true; }
      if nblockUsed == nblock + 1 { return; }
      if k1 != k0 { k0 := k1; return; }
      stateOutLen := 2;
      ok, k1 := MoreSmall(i, 2, c);
      if !ok { return true; }
      if nblockUsed == nblock + 1 { return; }
      if k1 != k0 { k0 := k1; return; }
      stateOutLen := 3;
      ok, k1 := MoreSmall(i, 3, c);
      if !ok { return true; }
      if nblockUsed == nblock + 1 { return; }
      if k1 != k0 { k0 := k1; return; }
      ok, k1 := GetSmall();
      if !ok { return true; }
      CountChar(col, origPtr, i, c, k1);
      stateOutLen := k1 as int + 4;
      ok, k1 := GetSmall();
      if !ok { return true; }
      k0 := k1;
    }

    method UnrleToOutputFast(room: nat) returns (out: seq<Byte>, corrupt: bool)
      requires Valid() && !smallDecompress
      modifies this
      ensures !corrupt ==> Valid()
      ensures origPtr < |col| && nblockUsed >= 1 && Moves(old(Pending()), Pending(), out, room, corrupt)
      ensures calculatedBlockCRC == UpdateAll(old(calculatedBlockCRC), out)
    {
      hide CharAt, Walk, Unrle, Copies, Invert, Update, Prepend, UpdateAll, Ready;
      ReadyFacts();
      NoUpdate(calculatedBlockCRC);
      PrependNone(Pending());
      ghost var total := Pending();
      out := [];
      var single := false;
      while true
        invariant Valid() && |out| <= room && (single ==> stateOutLen >= 0)
        invariant total == Prepend(out, Prepend(Copies(stateOutCh, if single then 1 else stateOutLen), Ahead(nblockUsed)))
        invariant calculatedBlockCRC == UpdateAll(old(calculatedBlockCRC), out)
        decreases if nblockUsed > nblock then 0 else nblock + 1 - nblockUsed
      {
        if single || stateOutLen > 0 {
          if !single {
            while true
              modifies this`stateOutLen, this`calculatedBlockCRC
              invariant Valid() && |out| <= room && stateOutLen > 0
              invariant total == Prepend(out, Prepend(Copies(stateOutCh, stateOutLen), Ahead(nblockUsed)))
              invariant calculatedBlockCRC == UpdateAll(old(calculatedBlockCRC), out)
              decreases stateOutLen
            {
              if |out| == room { return out, false; }
              if stateOutLen == 1 { break; }
              EmitOne(out, stateOutCh, stateOutLen, Ahead(nblockUsed));
              UpdateOne(old(calculatedBlockCRC), out, stateOutCh);
              out := out + [stateOutCh];
              calculatedBlockCRC := Update(calculatedBlockCRC, stateOutCh);
              stateOutLen := stateOutLen - 1;
            }
          }
          single := false;
          if |out| == room {
            stateOutLen := 1;
            return out, false;
          }
          EmitOne(out, stateOutCh, 1, Ahead(nblockUsed));
          UpdateOne(old(calculatedBlockCRC), out, stateOutCh);
          out := out + [stateOutCh];
          calculatedBlockCRC := Update(calculatedBlockCRC, stateOutCh);
        }
        PrependCopies(stateOutCh, Ahead(nblockUsed));
        if nblockUsed > nblock { BlockEnds(nblockUsed); }
        if nblockUsed > nblock + 1 { PrependEnd(out, false); return out, true; }
        if nblockUsed == nblock + 1 {
          stateOutLen := 0;
          PrependCopies(stateOutCh, Ahead(nblockUsed));
          return out, false;
        }
        single, corrupt := FetchFast();
        if corrupt { return; }
      }
    }

    method UnrleToOutputSmall(room: nat) returns (out: seq<Byte>, corrupt: bool)
      requires Valid() && smallDecompress
      modifies this
      ensures !corrupt ==> Valid()
      ensures origPtr < |col| && nblockUsed >= 1 && Moves(old(Pending()), Pending(), out, room, corrupt)
      ensures calculatedBlockCRC == UpdateAll(old(calculatedBlockCRC), out)
    {
      hide CharAt, Walk, Unrle, Copies, Invert, Update, Prepend, UpdateAll, Ready;
      ReadyFacts();
      NoUpdate(calculatedBlockCRC);
      PrependNone(Pending());
      ghost var total := Pending();
      out := [];
      while true
        invariant Valid() && |out| <= room && total == Prepend(out, Pending())
        invariant calculatedBlockCRC == UpdateAll(old(calculatedBlockCRC), out)
        decreases if nblockUsed > nblock then 0 else nblock + 1 - nblockUsed
      {
        while true
          modifies this`stateOutLen, this`calculatedBlockCRC
          invariant Valid() && |out| <= room && total == Prepend(out, Pending())
          invariant calculatedBlockCRC == UpdateAll(old(calculatedBlockCRC), out)
          decreases stateOutLen
        {
          if |out| == room { return out, false; }
          if stateOutLen == 0 { break; }
          EmitOne(out, stateOutCh, stateOutLen, Ahead(nblockUsed));
          UpdateOne(old(calculatedBlockCRC), out, stateOutCh);
          out := out + [stateOutCh];
          calculatedBlockCRC := Update(calculatedBlockCRC, stateOutCh);
          stateOutLen := stateOutLen - 1;
        }
        PrependCopies(stateOutCh, Ahead(nblockUsed));
        if nblockUsed > nblock { BlockEnds(nblockUsed); }
        if nblockUsed == nblock + 1 { return out, false; }
        if nblockUsed > nblock + 1 { PrependEnd(out, false); return out, true; }
        corrupt := FetchSmall();
        if corrupt { return; }
      }
    }

    lemma LocatedFacts()
      requires Located()
      ensures origPtr < nblock == |col|
    {}

    lemma ReadyFacts()
      requires Ready()
      ensures origPtr < nblock == |col|
    {}

    lemma BlockEnds(used: nat)
      requires origPtr < nblock == |col| && used > nblock
      ensures Ahead(used) == Expansion([], used == nblock + 1)
    {}
  }

  lemma NoUpdate(crc: nat)
    ensures UpdateAll(crc, []) == crc
  {}

  lemma PrependNone(e: Expansion)
    ensures Prepend([], e) == e
  {
    assert [] + e.bytes == e.bytes;
  }

  lemma PrependEnd(a: seq<Byte>, sound: bool)
    ensures Prepend(a, Expansion([], sound)) == Expansion(a, sound)
  {
    assert a + [] == a;
  }

  /** What one call does to the output still to come: it puts out the front of it, as much as there is room for,
      and stops early only at a sound end of the block or on finding it corrupt. */
  ghost predicate Moves(before: Expansion, after: Expansion, out: seq<Byte>, room: nat, corrupt: bool) {
    |out| <= room &&
    if corrupt then before == Expansion(out, false)
    else before == Prepend(out, after) && (|out| < room ==> after == Expansion([], true))
  }

  lemma PrependCopies(ch: Byte, e: Expansion)
    ensures Prepend(Copies(ch, 0), e) == e
  {
    assert Copies(ch, 0) + e.bytes == e.bytes;
  }

  lemma EmitOne(out: seq<Byte>, ch: Byte, n: nat, e: Expansion)
    requires n > 0
    ensures Prepend(out, Prepend(Copies(ch, n), e)) == Prepend(out + [ch], Prepend(Copies(ch, n - 1), e))
    ensures n == 1 ==> Prepend(out, Prepend(Copies(ch, n), e)) == Prepend(out + [ch], e)
  {
    assert Copies(ch, n) == [ch] + Copies(ch, n - 1);
    assert out + ([ch] + Copies(ch, n - 1) + e.bytes) == (out + [ch]) + (Copies(ch, n - 1) + e.bytes);
    if n == 1 { assert Copies(ch, 0) + e.bytes == e.bytes; }
  }

  /** The m characters from i on are all c. */
  ghost predicate Seen(s: seq<Byte>, i: nat, m: nat, c: Byte) {
    i + m <= |s| && forall j :: i <= j < i + m ==> s[j] == c
  }

  lemma FirstChar(col: seq<Byte>, origPtr: nat, i: nat, c: Byte)
    requires origPtr < |col| && i < |col| && c == CharAt(col, origPtr, i)
    ensures Seen(Invert(col, origPtr), i, 1, c)
  {}

  /** The character after m equal ones: the run ends there, or is one longer. */
  lemma NextChar(col: seq<Byte>, origPtr: nat, i: nat, m: nat, c: Byte, k1: Byte)
    requires origPtr < |col| && 1 <= m <= 3 && Seen(Invert(col, origPtr), i, m, c) && k1 == CharAt(col, origPtr, i + m)
    ensures var s, next := Invert(col, origPtr), CharAt(col, origPtr, |col|);
      if i + m == |col| || k1 != c then Unrle(s, next, i) == Prepend(Copies(c, m), Unrle(s, next, i + m))
      else i + m < |col| && Seen(s, i, m + 1, c)
  {
    hide CharAt, Unrle, Walk;
    var s, next := Invert(col, origPtr), CharAt(col, origPtr, |col|);
    assert s[i] == c;
    if i + m == |col| || k1 != c { ShortRun(s, next, i, m); }
  }

  /** The character after four equal ones is their count. */
  lemma CountChar(col: seq<Byte>, origPtr: nat, i: nat, c: Byte, k1: Byte)
    requires origPtr < |col| && Seen(Invert(col, origPtr), i, 4, c) && k1 == CharAt(col, origPtr, i + 4)
    ensures var s, next := Invert(col, origPtr), CharAt(col, origPtr, |col|);
      Unrle(s, next, i) == Prepend(Copies(c, k1 as int + 4), Unrle(s, next, i + 5))
  {
    hide CharAt, Unrle, Walk;
    var s, next := Invert(col, origPtr), CharAt(col, origPtr, |col|);
    assert s[i] == c && s[i + 1] == c && s[i + 2] == c && s[i + 3] == c;
    LongRun(s, next, i);
  }

  /** A run that ends before a fourth equal byte. */
  lemma ShortRun(s: seq<Byte>, next: Byte, i: nat, m: nat)
    requires 1 <= m <= 3 && i + m <= |s| && forall j :: i <= j < i + m ==> s[j] == s[i]
    requires i + m == |s| || s[i + m] != s[i]
    ensures Unrle(s, next, i) == Prepend(Copies(s[i], m), Unrle(s, next, i + m))
  {
    EqualIs(s, i, 3, m - 1);
  }

  lemma LongRun(s: seq<Byte>, next: Byte, i: nat)
    requires i + 4 <= |s| && s[i] == s[i + 1] == s[i + 2] == s[i + 3]
    ensures Unrle(s, next, i) == Prepend(Copies(s[i], 4 + (if i + 4 < |s| then s[i + 4] as int else next as int)), Unrle(s, next, i + 5))
  {
    EqualIs(s, i, 3, 3);
  }

  /** Where reversed link k of the trail points. */
  function Back(path: seq<nat>, k: nat): nat
    requires k < |path|
  {
    if k == 0 then path[|path| - 1] else path[k - 1]
  }

  lemma FastStep(col: seq<Byte>, r: nat)
    requires r < |col|
    ensures U.FastWord(col, r) % 256 == col[r] && U.FastWord(col, r) / 256 == Unranks(col)[r] < |col|
  {
    UnrankInverts(col, r);
  }

  lemma WalkTwo(col: seq<Byte>, r: nat, k: nat)
    requires r < |col|
    ensures Walk(col, r, k + 1) == Unranks(col)[Walk(col, r, k)]
    ensures Walk(col, r, k + 2) == Unranks(col)[Walk(col, r, k + 1)]
    ensures CharAt(col, r, k) == col[Walk(col, r, k + 1)]
    ensures k == 0 ==> Walk(col, r, 0) == r
  {}
}
