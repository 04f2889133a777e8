/** Literals and (length, distance) pairs and what they expand to (section 3.2.3 of RFC 1951). */
module Lz77 {
  import opened Rotations

  const MIN_MATCH: nat := 3
  const MAX_MATCH: nat := 258

  datatype Token = Lit(c: Byte) | Match(dist: nat, len: nat)

  /** Copies len bytes from dist back, one at a time, so that a copy may feed on itself. */
  function CopyBack(out: seq<Byte>, dist: nat, len: nat): (r: seq<Byte>)
    requires 1 <= dist <= |out|
    ensures |r| == |out| + len && r[..|out|] == out
    ensures forall i :: |out| <= i < |r| ==> r[i] == Back(r, i, dist)
  {
    if len == 0 then out
    else
      var r := CopyBack(out, dist, len - 1);
      CopyMore(out, r, dist);
      r + [r[|r| - dist]]
  }

  /** The byte dist before position i. */
  function Back(s: seq<Byte>, i: nat, dist: nat): Byte
    requires 1 <= dist <= i < |s|
  {
    s[i - dist]
  }

  lemma CopyMore(out: seq<Byte>, r: seq<Byte>, dist: nat)
    requires 1 <= dist <= |out| <= |r| && r[..|out|] == out && forall i :: |out| <= i < |r| ==> r[i] == Back(r, i, dist)
    ensures var t := r + [r[|r| - dist]];
            t[..|out|] == out && forall i :: |out| <= i < |t| ==> t[i] == Back(t, i, dist)
  {
    var t := r + [r[|r| - dist]];
    assert t[..|out|] == r[..|out|];
    forall i | |out| <= i < |t| ensures t[i] == Back(t, i, dist) {
      if i < |r| { assert r[i] == Back(r, i, dist); }
    }
  }

  /** The bytes tokens stand for; a distance reaching before the start adds nothing. */
  function Expand(tokens: seq<Token>): seq<Byte> {
    if tokens == [] then []
    else
      var out := Expand(tokens[..|tokens| - 1]);
      match tokens[|tokens| - 1]
      case Lit(c) => out + [c]
      case Match(dist, len) => if 1 <= dist <= |out| then CopyBack(out, dist, len) else out
  }

  /** Every match is of a legal length and reaches back at most maxDist bytes, never before the start. */
  predicate Legal(tokens: seq<Token>, maxDist: nat) {
    if tokens == [] then true
    else
      Legal(tokens[..|tokens| - 1], maxDist) &&
      match tokens[|tokens| - 1]
      case Lit(_) => true
      case Match(dist, len) => MIN_MATCH <= len <= MAX_MATCH && 1 <= dist <= maxDist && dist <= |Expand(tokens[..|tokens| - 1])|
  }

  /** The tokens stand for exactly the first pos bytes of the data. */
  ghost predicate Covers(tokens: seq<Token>, maxDist: nat, data: seq<Byte>, pos: nat) {
    pos <= |data| && Legal(tokens, maxDist) && Expand(tokens) == data[..pos]
  }

  lemma CoversLit(tokens: seq<Token>, maxDist: nat, data: seq<Byte>, pos: nat)
    requires Covers(tokens, maxDist, data, pos) && pos < |data|
    ensures Covers(tokens + [Lit(data[pos])], maxDist, data, pos + 1)
  {
    var t := tokens + [Lit(data[pos])];
    assert t[..|t| - 1] == tokens;
    assert data[..pos + 1] == data[..pos] + [data[pos]];
  }

  /** The data from m on and from pos on agree for len bytes. */
  ghost predicate Repeats(data: seq<Byte>, m: int, pos: int, len: int) {
    0 <= m < pos && 0 <= len && pos + len <= |data| && forall k :: 0 <= k < len ==> SameByte(data, m, pos, k)
  }

  ghost predicate SameByte(data: seq<Byte>, m: int, pos: int, k: int) {
    0 <= m + k < |data| && 0 <= pos + k < |data| && data[m + k] == data[pos + k]
  }

  lemma RepeatsFewer(w: seq<Byte>, m: int, p: int, n: int, n': int)
    requires Repeats(w, m, p, n) && 0 <= n' <= n
    ensures Repeats(w, m, p, n')
  {}

  lemma {:induction false} CopyIs(data: seq<Byte>, m: nat, pos: nat, len: nat)
    requires Repeats(data, m, pos, len)
    ensures CopyBack(data[..pos], pos - m, len) == data[..pos + len]
  {
    if len > 0 {
      CopyIs(data, m, pos, len - 1);
      assert SameByte(data, m, pos, len - 1);
      assert data[..pos + len] == data[..pos + (len - 1)] + [data[pos + (len - 1)]];
    }
  }

  lemma CoversMatch(tokens: seq<Token>, maxDist: nat, data: seq<Byte>, pos: nat, m: nat, len: nat)
    requires Covers(tokens, maxDist, data, pos) && Repeats(data, m, pos, len)
    requires MIN_MATCH <= len <= MAX_MATCH && pos - m <= maxDist
    ensures Covers(tokens + [Match(pos - m, len)], maxDist, data, pos + len)
  {
    var t := tokens + [Match(pos - m, len)];
    assert t[..|t| - 1] == tokens;
    CopyIs(data, m, pos, len);
  }

  lemma CoversMore(tokens: seq<Token>, maxDist: nat, data: seq<Byte>, pos: nat, more: seq<Byte>)
    requires Covers(tokens, maxDist, data, pos)
    ensures Covers(tokens, maxDist, data + more, pos)
  {
    assert (data + more)[..pos] == data[..pos];
  }

  lemma RepeatsMore(data: seq<Byte>, m: int, pos: int, len: int, more: seq<Byte>)
    requires Repeats(data, m, pos, len)
    ensures Repeats(data + more, m, pos, len)
  {
    forall k | 0 <= k < len ensures SameByte(data + more, m, pos, k) { assert SameByte(data, m, pos, k); }
  }

  lemma {:induction false} LegalFarther(tokens: seq<Token>, maxDist: nat, farther: nat)
    requires Legal(tokens, maxDist) && maxDist <= farther
    ensures Legal(tokens, farther)
  {
    hide Expand;
    if tokens != [] { LegalFarther(tokens[..|tokens| - 1], maxDist, farther); }
  }

  lemma CoversFarther(tokens: seq<Token>, maxDist: nat, farther: nat, data: seq<Byte>, pos: nat)
    requires Covers(tokens, maxDist, data, pos) && maxDist <= farther
    ensures Covers(tokens, farther, data, pos)
  {
    LegalFarther(tokens, maxDist, farther);
  }
}
