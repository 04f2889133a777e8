/** Filling the code array and the decoder's limit, base and perm tables, and decoding with them. */
module CodeTables {
  import opened Words
  import opened Bits
  import opened BitIO
  import opened Codes

  /** Codes are handed out in order of length, then symbol. */
  method AssignCodes(code: array<nat>, length: seq<nat>, minLen: nat, maxLen: nat)
    requires |length| <= code.Length && minLen == MinLen(length) && maxLen == MaxLen(length)
    requires length != [] && LengthsIn(length, 1, LONGEST)
    modifies code
    ensures forall s :: 0 <= s < |length| ==> code[s] == Code(length, s)
  {
    hide First, Count, MinLen, MaxLen;
    MinMaxLen(length);
    var vec, n := 0, minLen;
    while n <= maxLen
      invariant minLen <= n <= maxLen + 1 && vec == First(length, n)
      invariant forall s :: 0 <= s < |length| && length[s] < n ==> code[s] == Code(length, s)
    {
      NoCount(length, n);
      for i := 0 to |length|
        invariant vec == First(length, n) + Count(length[..i], n)
        invariant forall s :: 0 <= s < |length| && length[s] < n ==> code[s] == Code(length, s)
        invariant forall s :: 0 <= s < i && length[s] == n ==> code[s] == Code(length, s)
      {
        CountOne(length, n, i);
        if length[i] == n {
          code[i] := vec;
          vec := vec + 1;
        }
      }
      FirstNext(length, n);
      assert length[..|length|] == length;
      vec := 2 * vec;
      n := n + 1;
    }
  }

  lemma NoCount(len: seq<nat>, n: int)
    ensures Count(len[..0], n) == 0 && Shorter(len[..0], n) == 0
  {}

  lemma CountOne(len: seq<nat>, n: int, i: nat)
    requires i < |len|
    ensures Count(len[..i + 1], n) == Count(len[..i], n) + if len[i] == n then 1 else 0
    ensures Shorter(len[..i + 1], n) == Shorter(len[..i], n) + if len[i] < n then 1 else 0
  {
    assert len[..i + 1][..i] == len[..i];
  }

  lemma FirstNext(len: seq<nat>, n: nat)
    requires n >= 1
    ensures First(len, n + 1) == 2 * End(len, n)
  {}

  /** Symbols listed by length, then number. */
  method FillPerm(perm: array<nat>, length: seq<nat>, minLen: nat, maxLen: nat)
    requires |length| <= perm.Length && length != [] && LengthsIn(length, 1, LONGEST)
    requires minLen == MinLen(length) && maxLen == MaxLen(length)
    modifies perm
    ensures forall s :: 0 <= s < |length| ==> Place(length, s) < |length| && perm[Place(length, s)] == s
  {
    hide First, Count, Shorter, MinLen, MaxLen, Place;
    MinMaxLen(length);
    var pp, i := 0, minLen;
    while i <= maxLen
      invariant minLen <= i <= maxLen + 1 && pp == Shorter(length, i)
      invariant forall s :: 0 <= s < |length| && length[s] < i ==> Place(length, s) < pp && perm[Place(length, s)] == s
    {
      NoCount(length, i);
      ShorterNext(length, i);
      ShorterTotal(length, i + 1);
      for j := 0 to |length|
        invariant pp == Shorter(length, i) + Count(length[..j], i) <= |length|
        invariant forall s :: 0 <= s < |length| && length[s] < i ==> Place(length, s) < pp && perm[Place(length, s)] == s
        invariant forall s :: 0 <= s < j && length[s] == i ==> Place(length, s) < pp && perm[Place(length, s)] == s
      {
        CountOne(length, i, j);
        CountMono(length, i, j + 1, |length|);
        assert length[..|length|] == length;
        if length[j] == i {
          PlaceIs(length, j);
          CodeBelowEnd(length, j);
          perm[pp] := j;
          pp := pp + 1;
        }
      }
      assert length[..|length|] == length;
      i := i + 1;
    }
    ShorterTotal(length, i);
    assert forall s :: 0 <= s < |length| ==> length[s] < i;
  }

  lemma PlaceIs(len: seq<nat>, s: nat)
    requires s < |len|
    ensures Place(len, s) == Shorter(len, len[s]) + Count(len[..s], len[s])
  {}

  lemma {:induction false} ShorterTotal(len: seq<nat>, n: int)
    ensures Shorter(len, n) <= |len|
    ensures (forall i :: 0 <= i < |len| ==> len[i] < n) ==> Shorter(len, n) == |len|
  {
    if len != [] { ShorterTotal(len[..|len| - 1], n); }
  }

  /** The tables the bit-serial decoder needs. */
  ghost predicate Tables(limit: seq<int>, base: seq<int>, perm: seq<nat>, len: seq<nat>) {
    |limit| >= MAX_CODE_LEN && |base| >= MAX_CODE_LEN && |perm| == MAX_ALPHA_SIZE && |len| <= |perm| &&
    (forall n :: MinLen(len) <= n <= LONGEST ==> limit[n] == Limit(len, n) && base[n] == Base(len, n)) &&
    (forall s :: 0 <= s < |len| ==> Place(len, s) < |len| && perm[Place(len, s)] == s)
  }

  method CreateDecodeTables(limit: array<int>, base: array<int>, perm: array<nat>, length: seq<nat>,
                            minLen: nat, maxLen: nat)
    requires limit != base && limit.Length == base.Length == perm.Length == MAX_ALPHA_SIZE
    requires 0 < |length| <= MAX_ALPHA_SIZE && LengthsIn(length, 1, LONGEST)
    requires minLen == MinLen(length) && maxLen == MaxLen(length)
    modifies limit, base, perm
    ensures Tables(limit[..], base[..], perm[..], length)
  {
    hide First, Count, Shorter, MinLen, MaxLen, Place;
    FillPerm(perm, length, minLen, maxLen);
    MinMaxLen(length);
    FillBase(base, length);
    for i := 0 to MAX_CODE_LEN
      invariant forall n :: 0 <= n < i ==> limit[n] == 0
      modifies limit
    {
      limit[i] := 0;
    }
    var vec, i := 0, minLen;
    while i <= maxLen
      invariant minLen <= i <= maxLen + 1 && vec == First(length, i)
      invariant forall n :: 0 <= n < MAX_CODE_LEN ==>
        limit[n] == if minLen <= n < i then End(length, n) - 1 else 0
      modifies limit
    {
      ShorterNext(length, i);
      vec := vec + (base[i + 1] - base[i]);
      limit[i] := vec - 1;
      FirstNext(length, i);
      vec := 2 * vec;
      i := i + 1;
    }
    i := minLen + 1;
    while i <= maxLen
      invariant minLen + 1 <= i && (i <= maxLen + 1 || i == minLen + 1)
      invariant forall n :: 0 <= n < MAX_CODE_LEN ==>
        base[n] == if minLen < n < i then First(length, n) - Shorter(length, n) else Shorter(length, n)
      modifies base
    {
      FirstNext(length, i - 1);
      base[i] := 2 * (limit[i - 1] + 1) - base[i];
      i := i + 1;
    }
  }

  /** Symbols one bit shorter than n. */
  function JustShorter(len: seq<nat>, n: int): nat {
    Count(len, n - 1)
  }

  /** base[n] starts as the number of symbols shorter than n. */
  method FillBase(base: array<int>, length: seq<nat>)
    requires base.Length == MAX_ALPHA_SIZE && LengthsIn(length, 1, LONGEST)
    modifies base
    ensures forall n :: 0 <= n < MAX_CODE_LEN ==> base[n] == Shorter(length, n)
  {
    hide Count, Shorter;
    for i := 0 to MAX_CODE_LEN
      invariant forall n :: 0 <= n < i ==> base[n] == 0
    {
      base[i] := 0;
    }
    forall n | 0 <= n < MAX_CODE_LEN ensures JustShorter(length[..0], n) == 0 { NoCount(length, n - 1); }
    for i := 0 to |length|
      invariant forall n :: 0 <= n < MAX_CODE_LEN ==> base[n] == JustShorter(length[..i], n)
    {
      forall n | 0 <= n < MAX_CODE_LEN
        ensures JustShorter(length[..i + 1], n) == JustShorter(length[..i], n) + if length[i] + 1 == n then 1 else 0
      {
        CountOne(length, n - 1, i);
      }
      base[length[i] + 1] := base[length[i] + 1] + 1;
    }
    assert length[..|length|] == length;
    NoneShort(length);
    for i := 1 to MAX_CODE_LEN
      invariant forall n :: 0 <= n < i ==> base[n] == Shorter(length, n)
      invariant forall n :: i <= n < MAX_CODE_LEN ==> base[n] == JustShorter(length, n)
    {
      ShorterNext(length, i - 1);
      base[i] := base[i] + base[i - 1];
    }
  }

  lemma {:induction false} NoneShort(len: seq<nat>)
    ensures Shorter(len, 0) == 0 && Count(len, -1) == 0
  {
    if len != [] { NoneShort(len[..|len| - 1]); }
  }

  /** A code within the limit whose place is not negative names a symbol. */
  lemma PlaceInRange(len: seq<nat>, n: nat, k: int)
    requires len != [] && LengthsIn(len, 1, LONGEST) && MinLen(len) <= n <= LONGEST
    requires k >= 0 && k + Base(len, n) >= 0 && k + Base(len, n) <= Limit(len, n)
    ensures k < |len|
  {
    hide First, Count, Shorter, MinLen, MaxLen;
    MinMaxLen(len);
    ShorterNext(len, n);
    ShorterTotal(len, n);
    ShorterTotal(len, n + 1);
    if n > MaxLen(len) { ShorterAll(len, n); }
  }

  lemma ShorterAll(len: seq<nat>, n: nat)
    requires n > MaxLen(len)
    ensures Shorter(len, n) == |len|
  {
    ShorterTotal(len, n);
  }

  /** Places below the number of symbols are taken. */
  lemma PlaceTaken(len: seq<nat>, perm: seq<nat>, k: nat)
    requires k < |len| <= |perm|
    requires forall s :: 0 <= s < |len| ==> Place(len, s) < |len| && perm[Place(len, s)] == s
    ensures perm[k] < |len| && SymbolAt(len, k, 0) == perm[k]
  {
    hide Place;
    var places := seq(|len|, s requires 0 <= s < |len| => Place(len, s));
    forall i, j | 0 <= i < j < |len| ensures places[i] != places[j] {}
    var s := R.PermutationHits(places, |len|, k);
    SymbolFound(len, s, 0);
  }

  import R = Rotations

  datatype Outcome = Value(sym: nat) | DataError | NeedInput

  /** The decoder loop over the tables agrees with the specification on every input, well-formed or not. */
  method GetSymbol(r: BitReader, limit: seq<int>, base: seq<int>, perm: seq<nat>, minLen: nat,
                   ghost len: seq<nat>)
    returns (out: Outcome)
    requires r.Valid() && len != [] && LengthsIn(len, 1, LONGEST) && minLen == MinLen(len)
    requires Tables(limit, base, perm, len)
    modifies r
    ensures r.Valid()
    ensures match DecodeSymbol(len, old(r.Rest()))
            case Symbol(sym, rest) => out == Value(sym) && r.Rest() == rest
            case Corrupt => out == DataError
            case Truncated => out == NeedInput
  {
    hide Limit, Base, MinLen, MaxLen, First, Count, Shorter, LengthsIn, Place, SymbolAt, Bits.Value, Tables;
    hide BitReader.Rest, BitReader.Valid, BitsOf, ByteBits, Pow2;
    MinMaxLen(len);
    TableSizes(limit, base, perm, len);
    var zn := minLen;
    var ok, zvec := r.Get(zn);
    if !ok { return NeedInput; }
    ghost var input := old(r.Rest());
    while true
      invariant r.Valid() && minLen <= zn <= LONGEST + 1 && 0 <= zvec
      invariant DecodeSymbol(len, input) == Scan(len, zn, zvec, r.Rest())
      decreases LONGEST + 1 - zn
    {
      if zn > LONGEST { return DataError; }
      TableAt(limit, base, perm, len, zn);
      if zvec <= limit[zn] { break; }
      zn := zn + 1;
      ghost var rest := r.Rest();
      var zj;
      ok, zj := r.Get(1);
      if !ok { return NeedInput; }
      OneBit(rest[0]);
      assert rest[..1] == [rest[0]];
      zvec := 2 * zvec + zj;
    }
    var k := zvec - base[zn];
    if k < 0 || k >= MAX_ALPHA_SIZE {
      NoSymbol(len, k);
      if k >= MAX_ALPHA_SIZE { PlaceInRange(len, zn, k); }
      return DataError;
    }
    PlaceInRange(len, zn, k);
    TablePerm(limit, base, perm, len, k);
    out := Value(perm[k]);
  }

  lemma OneBit(x: bool)
    ensures Bits.Value([x]) == if x then 1 else 0
  {
    assert [x][..0] == [];
  }

  lemma {:induction false} NoSymbol(len: seq<nat>, k: int)
    requires k < 0 || k >= |len|
    ensures SymbolAt(len, k, 0) == |len|
  {
    var s := SymbolAt(len, k, 0);
    if k >= 0 && s < |len| { PlaceBelow(len, s); }
  }

  lemma PlaceBelow(len: seq<nat>, s: nat)
    requires s < |len|
    ensures Place(len, s) < |len|
  {
    CodeBelowEnd(len, s);
    ShorterNext(len, len[s]);
    ShorterTotal(len, len[s] + 1);
  }

  lemma TableSizes(limit: seq<int>, base: seq<int>, perm: seq<nat>, len: seq<nat>)
    requires Tables(limit, base, perm, len)
    ensures |limit| >= MAX_CODE_LEN && |base| >= MAX_CODE_LEN && |perm| == MAX_ALPHA_SIZE && |len| <= |perm|
  {}

  lemma TableAt(limit: seq<int>, base: seq<int>, perm: seq<nat>, len: seq<nat>, n: nat)
    requires Tables(limit, base, perm, len) && MinLen(len) <= n <= LONGEST
    ensures |limit| > n && |base| > n && limit[n] == Limit(len, n) && base[n] == Base(len, n)
  {}

  lemma TablePerm(limit: seq<int>, base: seq<int>, perm: seq<nat>, len: seq<nat>, k: nat)
    requires Tables(limit, base, perm, len) && k < |len|
    ensures |perm| == MAX_ALPHA_SIZE && perm[k] < |len| && SymbolAt(len, k, 0) == perm[k]
  {
    PlaceTaken(len, perm, k);
  }
}
