/** The initial run-length coding: a run of four to 255 equal bytes is sent as four of them and a count. */
module Rle {
  import opened Rotations

  /** A run of the input. */
  datatype Pair = Pair(ch: Byte, len: nat)

  function Copies(ch: Byte, n: nat): (r: seq<Byte>)
    ensures |r| == n
  {
    seq(n, _ => ch)
  }

  predicate Legal(p: Pair) {
    1 <= p.len <= 255
  }

  /** The bytes a run is stored as. */
  function Stored(p: Pair): (r: seq<Byte>)
    requires Legal(p)
    ensures 1 <= |r| <= 5
  {
    if p.len < 4 then Copies(p.ch, p.len) else Copies(p.ch, 4) + [p.len - 4]
  }

  predicate AllLegal(pairs: seq<Pair>) {
    forall k :: 0 <= k < |pairs| ==> Legal(pairs[k])
  }

  function Encode(pairs: seq<Pair>): seq<Byte>
    requires AllLegal(pairs)
  {
    if pairs == [] then [] else Stored(pairs[0]) + Encode(pairs[1..])
  }

  /** The input the runs stand for. */
  function Flat(pairs: seq<Pair>): seq<Byte> {
    if pairs == [] then [] else Copies(pairs[0].ch, pairs[0].len) + Flat(pairs[1..])
  }

  lemma {:induction false} EncodeOne(pairs: seq<Pair>, p: Pair)
    requires AllLegal(pairs) && Legal(p)
    ensures AllLegal(pairs + [p]) && Encode(pairs + [p]) == Encode(pairs) + Stored(p)
    ensures Flat(pairs + [p]) == Flat(pairs) + Copies(p.ch, p.len)
  {
    if pairs == [] {
      assert pairs + [p] == [p] && [p][1..] == [];
    } else {
      EncodeOne(pairs[1..], p);
      assert (pairs + [p])[1..] == pairs[1..] + [p];
    }
  }

  /** A run can follow another without merging with it. */
  predicate Follows(p: Pair, q: Pair) {
    p.ch != q.ch || p.len >= 4
  }

  predicate Chained(pairs: seq<Pair>) {
    AllLegal(pairs) && forall k :: 1 <= k < |pairs| ==> Adjacent(pairs, k)
  }

  predicate Adjacent(pairs: seq<Pair>, k: nat)
    requires 1 <= k < |pairs|
  {
    Follows(pairs[k - 1], pairs[k])
  }

  // ----- decoding -----

  /** How many of the next k bytes after byte i equal it. */
  function Equal(s: seq<Byte>, i: nat, k: nat): (n: nat)
    requires i < |s|
    ensures n <= k && i + n < |s|
    ensures forall j :: i <= j <= i + n ==> s[j] == s[i]
    ensures n < k ==> i + n + 1 >= |s| || s[i + n + 1] != s[i]
    decreases k
  {
    if k == 0 || i + 1 >= |s| || s[i + 1] != s[i] then 0 else 1 + Equal(s, i + 1, k - 1)
  }

  /** The bytes put out, and whether the stored bytes ended between runs. */
  datatype Expansion = Expansion(bytes: seq<Byte>, sound: bool)

  function Prepend(a: seq<Byte>, e: Expansion): Expansion {
    Expansion(a + e.bytes, e.sound)
  }

  /** What the decoder makes of the stored bytes from i on.  When a run of four ends the block its count is taken
      from whatever is fetched next, and the block is then found corrupt. */
  function Unrle(s: seq<Byte>, next: Byte, i: nat): (e: Expansion)
    decreases if i > |s| then 0 else |s| + 1 - i
  {
    if i > |s| then Expansion([], false)
    else if i == |s| then Expansion([], true)
    else
      var n := Equal(s, i, 3);
      if n < 3 then Prepend(Copies(s[i], n + 1), Unrle(s, next, i + n + 1))
      else Prepend(Copies(s[i], 4 + (if i + 4 < |s| then s[i + 4] as int else next as int)), Unrle(s, next, i + 5))
  }

  lemma {:induction false} EqualIs(s: seq<Byte>, i: nat, k: nat, n: nat)
    requires n <= k && i + n < |s| && forall j :: i <= j <= i + n ==> s[j] == s[i]
    requires n == k || i + n + 1 == |s| || s[i + n + 1] != s[i]
    ensures Equal(s, i, k) == n
    decreases n
  {
    if n > 0 {
      assert s[i + 1] == s[i];
      EqualIs(s, i + 1, k - 1, n - 1);
    }
  }

  /** The first stored run, as the decoder sees it. */
  lemma FirstRun(s: seq<Byte>, i: nat, p: Pair, rest: seq<Byte>)
    requires i <= |s| && Legal(p) && s[i..] == Stored(p) + rest
    requires rest != [] && p.len < 4 ==> rest[0] != p.ch
    ensures i < |s| && s[i] == p.ch
    ensures Equal(s, i, 3) == if p.len < 4 then p.len - 1 else 3
    ensures p.len >= 4 ==> i + 4 < |s| && s[i + 4] == p.len - 4
    ensures s[i + |Stored(p)|..] == rest
  {
    var t := Stored(p);
    assert s == s[..i] + t + rest;
    assert forall k :: 0 <= k < |t| ==> s[i + k] == t[k];
    assert s[i + |t|..] == rest;
    var n := if p.len < 4 then p.len - 1 else 3;
    assert forall j :: i <= j <= i + n ==> s[j] == t[j - i];
    if p.len < 4 && rest != [] { assert s[i + n + 1] == rest[0]; }
    if p.len >= 4 { assert s[i + 4] == t[4]; }
    EqualIs(s, i, 3, n);
  }

  /** Decoding the stored bytes of runs that could not have been merged gives the input back. */
  lemma {:induction false} RleRoundTrip(s: seq<Byte>, next: Byte, i: nat, pairs: seq<Pair>)
    requires Chained(pairs) && i <= |s| && s[i..] == Encode(pairs)
    ensures Unrle(s, next, i) == Expansion(Flat(pairs), true)
    decreases |pairs|
  {
    hide Stored, Encode, Flat, Chained, Unrle, Legal, AllLegal, Copies;
    if pairs == [] {
      NoRuns(s, next, i, pairs);
    } else {
      var p, rest := pairs[0], pairs[1..];
      ChainedRest(pairs);
      UnrleRun(s, next, i, p, Encode(rest));
      RleRoundTrip(s, next, i + |Stored(p)|, rest);
    }
  }

  lemma NoRuns(s: seq<Byte>, next: Byte, i: nat, pairs: seq<Pair>)
    requires pairs == [] && i <= |s| && s[i..] == Encode(pairs)
    ensures Unrle(s, next, i) == Expansion(Flat(pairs), true)
  {
    assert |s[i..]| == 0;
  }

  lemma UnrleRun(s: seq<Byte>, next: Byte, i: nat, p: Pair, rest: seq<Byte>)
    requires i <= |s| && Legal(p) && s[i..] == Stored(p) + rest
    requires rest != [] && p.len < 4 ==> rest[0] != p.ch
    ensures i + |Stored(p)| <= |s| && s[i + |Stored(p)|..] == rest
    ensures Unrle(s, next, i) == Prepend(Copies(p.ch, p.len), Unrle(s, next, i + |Stored(p)|))
  {
    hide Equal;
    FirstRun(s, i, p, rest);
    StoredSize(p);
  }

  lemma ChainedRest(pairs: seq<Pair>)
    requires Chained(pairs) && pairs != []
    ensures AllLegal(pairs) && Chained(pairs[1..]) && Legal(pairs[0])
    ensures Encode(pairs) == Stored(pairs[0]) + Encode(pairs[1..])
    ensures Flat(pairs) == Copies(pairs[0].ch, pairs[0].len) + Flat(pairs[1..])
    ensures Encode(pairs[1..]) != [] && pairs[0].len < 4 ==> Encode(pairs[1..])[0] != pairs[0].ch
  {
    var rest := pairs[1..];
    forall k | 1 <= k < |rest| ensures Adjacent(rest, k) { assert Adjacent(pairs, k + 1); }
    if rest != [] {
      assert Adjacent(pairs, 1);
      StartsWith(rest);
    }
  }

  lemma StartsWith(pairs: seq<Pair>)
    requires AllLegal(pairs) && pairs != []
    ensures Encode(pairs) != [] && Encode(pairs)[0] == pairs[0].ch
  {}

  lemma StoredSize(p: Pair)
    requires Legal(p)
    ensures |Stored(p)| == if p.len < 4 then p.len else 5
  {}
}
