/** Canonical prefix codes from code lengths: assignment, decoding tables, and the bit-serial decoder. */
module Codes {
  import opened Words
  import opened Bits

  const MAX_ALPHA_SIZE: nat := 258
  const MAX_CODE_LEN: nat := 23
  const LONGEST: nat := 20

  /** Symbols with code length n. */
  function Count(len: seq<nat>, n: int): (r: nat)
    ensures r <= |len|
  {
    if len == [] then 0
    else Count(len[..|len| - 1], n) + if len[|len| - 1] == n then 1 else 0
  }

  /** Symbols with code length below n. */
  function Shorter(len: seq<nat>, n: int): (r: nat)
    ensures r <= |len|
  {
    if len == [] then 0
    else Shorter(len[..|len| - 1], n) + if len[|len| - 1] < n then 1 else 0
  }

  /** First code of length n: codes of equal length are consecutive, and a step in length doubles. */
  function First(len: seq<nat>, n: nat): nat {
    if n <= 1 then 0 else 2 * (First(len, n - 1) + Count(len, n - 1))
  }

  /** One past the last code of length n. */
  function End(len: seq<nat>, n: nat): nat {
    First(len, n) + Count(len, n)
  }

  function Code(len: seq<nat>, s: nat): nat
    requires s < |len|
  {
    First(len, len[s]) + Count(len[..s], len[s])
  }

  /** Position of a symbol when symbols are listed by length, then number. */
  function Place(len: seq<nat>, s: nat): nat
    requires s < |len|
  {
    Shorter(len, len[s]) + Count(len[..s], len[s])
  }

  predicate LengthsIn(len: seq<nat>, lo: nat, hi: nat) {
    forall i :: 0 <= i < |len| ==> lo <= len[i] <= hi
  }

  lemma {:induction false} ShorterNext(len: seq<nat>, n: int)
    ensures Shorter(len, n + 1) == Shorter(len, n) + Count(len, n)
  {
    if len != [] { ShorterNext(len[..|len| - 1], n); }
  }

  lemma {:induction false} CountMono(len: seq<nat>, n: int, i: nat, j: nat)
    requires i <= j <= |len|
    ensures Count(len[..i], n) <= Count(len[..j], n)
    ensures i < j && len[i] == n ==> Count(len[..i], n) < Count(len[..j], n)
    decreases j
  {
    if i < j {
      assert len[..j][..j - 1] == len[..j - 1];
      CountMono(len, n, i, j - 1);
    }
  }

  lemma CodeBelowEnd(len: seq<nat>, s: nat)
    requires s < |len|
    ensures First(len, len[s]) <= Code(len, s) < End(len, len[s])
    ensures Place(len, s) < Shorter(len, len[s]) + Count(len, len[s])
  {
    CountMono(len, len[s], s, |len|);
    assert len[..|len|] == len;
  }

  // ----- the Kraft condition -----

  /** Sum of 2^(m - length) over all symbols no longer than m; a length of zero is a symbol without a code. */
  function KraftSum(len: seq<nat>, m: nat): nat {
    if len == [] then 0
    else
      var l := len[|len| - 1];
      KraftSum(len[..|len| - 1], m) + if 1 <= l <= m then Pow2(m - l) else 0
  }

  lemma {:induction false} KraftNext(len: seq<nat>, m: nat)
    ensures KraftSum(len, m + 1) == 2 * KraftSum(len, m) + Count(len, m + 1)
  {
    if len != [] { KraftNext(len[..|len| - 1], m); }
  }

  lemma {:induction false} KraftZero(len: seq<nat>)
    ensures KraftSum(len, 0) == 0
  {
    if len != [] { KraftZero(len[..|len| - 1]); }
  }

  /** The running code counter measures the Kraft sum. */
  lemma {:induction false} KraftEnd(len: seq<nat>, m: nat)
    requires m >= 1
    ensures KraftSum(len, m) == End(len, m)
  {
    if m == 1 { KraftZero(len); } else { KraftEnd(len, m - 1); }
    KraftNext(len, m - 1);
  }

  /** The lengths do not ask for more codes than there are. */
  predicate Kraft(len: seq<nat>) {
    KraftSum(len, LONGEST) <= Pow2(LONGEST)
  }

  /** Codes of length n cut to length m are still above every code of length m. */
  lemma {:induction false} FirstAbove(len: seq<nat>, m: nat, n: nat)
    requires 1 <= m < n
    ensures Shr(First(len, n), n - m) >= End(len, m)
    decreases n
  {
    if n == m + 1 {
      assert Shr(First(len, n), 1) == First(len, n) / 2;
    } else {
      FirstAbove(len, m, n - 1);
      assert Shr(First(len, n), n - m) == Shr(First(len, n) / 2, n - 1 - m);
      ShrMono(First(len, n - 1), First(len, n) / 2, n - 1 - m);
    }
  }

  lemma {:induction false} ShrMono(a: nat, b: nat, k: nat)
    requires a <= b
    ensures Shr(a, k) <= Shr(b, k)
  {
    if k > 0 { ShrMono(a / 2, b / 2, k - 1); }
  }

  lemma {:induction false} EndBound(len: seq<nat>, n: nat)
    requires End(len, LONGEST) <= Pow2(LONGEST) && 1 <= n <= LONGEST
    ensures End(len, n) <= Pow2(n)
    decreases LONGEST - n
  {
    if n < LONGEST { EndBound(len, n + 1); }
  }

  /** Under the Kraft condition every code fits its length. */
  lemma CodeFits(len: seq<nat>, s: nat)
    requires s < |len| && LengthsIn(len, 1, LONGEST) && Kraft(len)
    ensures Code(len, s) < Pow2(len[s])
  {
    KraftEnd(len, LONGEST);
    EndBound(len, len[s]);
    CodeBelowEnd(len, s);
  }

  /** The bits sent for a symbol. */
  function CodeBits(len: seq<nat>, s: nat): (r: bits)
    requires s < |len|
    ensures |r| == len[s]
  {
    BitsOf(Code(len, s), len[s])
  }

  // ----- decoding -----

  function MinLen(len: seq<nat>): (r: nat)
    ensures r <= 32
    ensures forall i :: 0 <= i < |len| ==> r <= len[i]
  {
    if len == [] then 32
    else
      var m := MinLen(len[..|len| - 1]);
      if len[|len| - 1] < m then len[|len| - 1] else m
  }

  function MaxLen(len: seq<nat>): (r: nat)
    ensures forall i :: 0 <= i < |len| ==> len[i] <= r
  {
    if len == [] then 0
    else
      var m := MaxLen(len[..|len| - 1]);
      if len[|len| - 1] > m then len[|len| - 1] else m
  }

  lemma MinMaxNone(len: seq<nat>)
    ensures MinLen(len[..0]) == 32 && MaxLen(len[..0]) == 0
  {}

  lemma MinMaxNext(len: seq<nat>, i: nat)
    requires i < |len|
    ensures MinLen(len[..i + 1]) == if len[i] < MinLen(len[..i]) then len[i] else MinLen(len[..i])
    ensures MaxLen(len[..i + 1]) == if len[i] > MaxLen(len[..i]) then len[i] else MaxLen(len[..i])
  {
    assert len[..i + 1][..i] == len[..i];
  }

  /** limit[n]: the last code of length n, or 0 outside the range of lengths. */
  function Limit(len: seq<nat>, n: nat): int {
    if MinLen(len) <= n <= MaxLen(len) then End(len, n) - 1 else 0
  }

  /** base[n]: what to subtract from a code of length n to get its place in the list of symbols. */
  function Base(len: seq<nat>, n: nat): int {
    if MinLen(len) < n <= MaxLen(len) then First(len, n) - Shorter(len, n) else Shorter(len, n)
  }

  /** The symbol at a place of the list, or none. */
  function SymbolAt(len: seq<nat>, k: int, s: nat): (r: nat)
    requires s <= |len|
    ensures s <= r <= |len| && (r < |len| ==> Place(len, r) == k)
    decreases |len| - s
  {
    if s == |len| || Place(len, s) == k then s else SymbolAt(len, k, s + 1)
  }

  datatype Decoded = Symbol(sym: nat, rest: bits) | Corrupt | Truncated

  /** The decoder's loop: lengthen the code while it exceeds the last code of its length. */
  function Scan(len: seq<nat>, zn: nat, zvec: nat, input: bits): (r: Decoded)
    ensures r.Symbol? ==> r.sym < |len| && |r.rest| <= |input|
    decreases LONGEST + 1 - zn
  {
    if zn > LONGEST then Corrupt
    else if zvec <= Limit(len, zn) then
      var s := SymbolAt(len, zvec - Base(len, zn), 0);
      if s < |len| then Symbol(s, input) else Corrupt
    else if input == [] then Truncated
    else Scan(len, zn + 1, 2 * zvec + (if input[0] then 1 else 0), input[1..])
  }

  /** Decoding one symbol from the front of the input. */
  function DecodeSymbol(len: seq<nat>, input: bits): (r: Decoded)
    ensures r.Symbol? ==> r.sym < |len| && |r.rest| <= |input|
  {
    var m := MinLen(len);
    if |input| < m then Truncated else Scan(len, m, Value(input[..m]), input[m..])
  }

  lemma {:induction false} MinMaxLen(len: seq<nat>)
    requires len != [] && LengthsIn(len, 1, LONGEST)
    ensures 1 <= MinLen(len) <= MaxLen(len) <= LONGEST
    ensures First(len, MinLen(len)) == 0 && Shorter(len, MinLen(len)) == 0
  {
    MinAttained(len);
    MaxAttained(len);
    NoneShorter(len, MinLen(len));
  }

  lemma {:induction false} MinAttained(len: seq<nat>)
    requires len != [] && LengthsIn(len, 1, LONGEST)
    ensures 1 <= MinLen(len) <= len[0] <= LONGEST
  {
    if |len| > 1 { MinAttained(len[..|len| - 1]); }
  }

  lemma {:induction false} MaxAttained(len: seq<nat>)
    requires len != [] && LengthsIn(len, 1, LONGEST)
    ensures len[0] <= MaxLen(len) <= LONGEST
  {
    if |len| > 1 { MaxAttained(len[..|len| - 1]); }
  }

  lemma {:induction false} NoneOf(len: seq<nat>, n: int)
    requires forall i :: 0 <= i < |len| ==> len[i] > n
    ensures Count(len, n) == 0 && Shorter(len, n + 1) == 0
  {
    if len != [] { NoneOf(len[..|len| - 1], n); }
  }

  lemma {:induction false} NoneShorter(len: seq<nat>, n: nat)
    requires forall i :: 0 <= i < |len| ==> len[i] >= n
    ensures First(len, n) == 0 && Shorter(len, n) == 0
  {
    NoneOf(len, n - 1);
    if n > 0 { NoneShorter(len, n - 1); }
  }

  lemma PlacesDiffer(len: seq<nat>, s: nat, t: nat)
    requires s < |len| && t < |len| && Place(len, s) == Place(len, t)
    ensures s == t
  {
    CodeBelowEnd(len, s);
    CodeBelowEnd(len, t);
    if len[s] < len[t] {
      ShorterNext(len, len[s]);
      ShorterMono(len, len[s] + 1, len[t]);
    } else if len[t] < len[s] {
      ShorterNext(len, len[t]);
      ShorterMono(len, len[t] + 1, len[s]);
    } else if s < t {
      CountMono(len, len[s], s, t);
    } else if t < s {
      CountMono(len, len[s], t, s);
    }
  }

  lemma {:induction false} ShorterMono(len: seq<nat>, m: int, n: int)
    requires m <= n
    ensures Shorter(len, m) <= Shorter(len, n)
  {
    if len != [] { ShorterMono(len[..|len| - 1], m, n); }
  }

  lemma {:induction false} SymbolFound(len: seq<nat>, s: nat, t: nat)
    requires t <= s < |len|
    ensures SymbolAt(len, Place(len, s), t) == s
    decreases s - t
  {
    if t < s {
      if Place(len, t) == Place(len, s) { PlacesDiffer(len, t, s); }
      SymbolFound(len, s, t + 1);
    }
  }

  /** A full code is within the limit and leads to its symbol's place. */
  lemma CodeHits(len: seq<nat>, s: nat)
    requires s < |len| && LengthsIn(len, 1, LONGEST) && Kraft(len)
    ensures MinLen(len) <= len[s] && Value(CodeBits(len, s)) <= Limit(len, len[s])
    ensures Value(CodeBits(len, s)) - Base(len, len[s]) == Place(len, s)
  {
    hide MinLen, MaxLen, First, Shorter, Count, Value, BitsOf;
    MinMaxLen(len);
    CodeFits(len, s);
    ValueOfBits(Code(len, s), len[s]);
    CodeBelowEnd(len, s);
  }

  /** A proper prefix of a code exceeds the limit of its length. */
  lemma PrefixMisses(len: seq<nat>, s: nat, n: nat)
    requires s < |len| && LengthsIn(len, 1, LONGEST) && Kraft(len)
    requires MinLen(len) <= n < len[s]
    ensures Value(CodeBits(len, s)[..n]) > Limit(len, n)
  {
    hide MinLen, MaxLen, First, Shorter, Count, Value, BitsOf, Shr, Kraft, LowBits;
    var code, l := CodeBits(len, s), len[s];
    MinMaxLen(len);
    CodeFits(len, s);
    ValueOfBits(Code(len, s), l);
    CodeBelowEnd(len, s);
    assert code == code[..n] + code[n..];
    ValueSplit(code[..n], code[n..]);
    FirstAbove(len, n, l);
    ShrMono(First(len, l), Code(len, s), l - n);
  }

  lemma ScanMore(len: seq<nat>, zn: nat, zvec: nat, x: bool, tail: bits)
    requires zn <= LONGEST && zvec > Limit(len, zn)
    ensures Scan(len, zn, zvec, [x] + tail) == Scan(len, zn + 1, 2 * zvec + (if x then 1 else 0), tail)
  {
    assert ([x] + tail)[1..] == tail;
  }

  lemma ScanStops(len: seq<nat>, zn: nat, zvec: nat, s: nat, input: bits)
    requires zn <= LONGEST && zvec <= Limit(len, zn) && s < |len| && SymbolAt(len, zvec - Base(len, zn), 0) == s
    ensures Scan(len, zn, zvec, input) == Symbol(s, input)
  {}

  /** Scanning from a prefix of a symbol's code reaches the symbol exactly at the end of its code. */
  lemma {:induction false} ScanFinds(len: seq<nat>, s: nat, n: nat, rest: bits)
    requires s < |len| && LengthsIn(len, 1, LONGEST) && Kraft(len)
    requires MinLen(len) <= n <= len[s]
    ensures var code := CodeBits(len, s);
            Scan(len, n, Value(code[..n]), code[n..] + rest) == Symbol(s, rest)
    decreases len[s] - n
  {
    hide MinLen, MaxLen, Limit, Base, Value, CodeBits, SymbolAt, Place, Kraft, Scan;
    var code := CodeBits(len, s);
    if n == len[s] {
      assert code[..n] == code && code[n..] + rest == rest;
      CodeHits(len, s);
      SymbolFound(len, s, 0);
      ScanStops(len, n, Value(code), s, rest);
    } else {
      var x, tail := code[n], code[n + 1..] + rest;
      PrefixMisses(len, s, n);
      ValueOne(code[..n], x);
      assert code[..n + 1] == code[..n] + [x];
      assert code[n..] + rest == [x] + tail;
      ScanMore(len, n, Value(code[..n]), x, tail);
      ScanFinds(len, s, n + 1, rest);
    }
  }

  /** Decoding a symbol's code returns the symbol and consumes exactly its code. */
  lemma DecodeCode(len: seq<nat>, s: nat, rest: bits)
    requires s < |len| && LengthsIn(len, 1, LONGEST) && Kraft(len)
    ensures DecodeSymbol(len, CodeBits(len, s) + rest) == Symbol(s, rest)
  {
    hide First, Count, Shorter, Kraft, MaxLen, Code, Value, Scan, Limit, Base;
    MinMaxLen(len);
    var code, m := CodeBits(len, s), MinLen(len);
    ScanFinds(len, s, m, rest);
    assert (code + rest)[..m] == code[..m] && (code + rest)[m..] == code[m..] + rest;
  }

  /** No code is a prefix of another. */
  lemma PrefixFree(len: seq<nat>, s: nat, t: nat)
    requires s < |len| && t < |len| && LengthsIn(len, 1, LONGEST) && Kraft(len)
    requires CodeBits(len, s) <= CodeBits(len, t)
    ensures s == t
  {
    var a, b := CodeBits(len, s), CodeBits(len, t);
    assert b == a + b[|a|..] && b == b + [];
    DecodeCode(len, s, b[|a|..]);
    DecodeCode(len, t, []);
  }
}
