/** The rolling hash of three bytes and the chains of earlier strings with the same hash. */
module HashChains {
  import opened Rotations
  import opened Words
  import opened Lz77

  /** NIL ends a chain; window index 0 is never matched. */
  const NIL: nat := 0

  predicate HashSizes(bits: nat) {
    8 <= bits <= 16
  }

  /** hash_shift: after three updates the oldest byte is gone. */
  function HashShift(bits: nat): nat { (bits + 2) / 3 }

  /** UPDATE_HASH. */
  function UpdateHash(h: nat, c: Byte, bits: nat): nat {
    LowBits(Xor(Shl(h, HashShift(bits)), c), bits)
  }

  /** The hash of three bytes. */
  function Hash3(b0: Byte, b1: Byte, b2: Byte, bits: nat): nat {
    UpdateHash(UpdateHash(UpdateHash(0, b0, bits), b1, bits), b2, bits)
  }

  lemma {:induction false} LowXor(a: nat, b: nat, k: nat)
    ensures LowBits(Xor(a, b), k) == Xor(LowBits(a, k), LowBits(b, k))
  {
    if k == 0 {
      XorZero(0);
    } else {
      hide Xor, LowBits;
      LowXor(a / 2, b / 2, k - 1);
      XorParts(a, b);
      LowParts(a, k);
      LowParts(b, k);
      LowParts(Xor(a, b), k);
      XorParts(LowBits(a, k), LowBits(b, k));
    }
  }

  lemma LowParts(a: nat, k: nat)
    requires k > 0
    ensures LowBits(a, k) / 2 == LowBits(a / 2, k - 1) && LowBits(a, k) % 2 == a % 2
  {}

  lemma {:induction false} LowOfShl(u: nat, s: nat, k: nat)
    ensures LowBits(Shl(u, s), k) == if s >= k then 0 else Shl(LowBits(u, k - s), s)
  {
    if s > 0 && k > 0 {
      LowOfShl(u, s - 1, k - 1);
      var t := Shl(u, s);
      assert t == 2 * Shl(u, s - 1) && t % 2 == 0 && t / 2 == Shl(u, s - 1);
    }
  }

  lemma {:induction false} LowSmall(u: nat, k: nat)
    requires u < Pow2(k)
    ensures LowBits(u, k) == u
  {
    if k > 0 { LowSmall(u / 2, k - 1); }
  }

  /** Only the low bits of the running hash that survive j more shifts matter. */
  ghost predicate Alike(g: nat, h: nat, j: nat) {
    LowBits(g, j) == LowBits(h, j)
  }

  lemma UpdateAlike(g: nat, h: nat, c: Byte, bits: nat, j: nat)
    requires Alike(g, h, j)
    ensures Alike(UpdateHash(g, c, bits), UpdateHash(h, c, bits), if j + HashShift(bits) < bits then j + HashShift(bits) else bits)
    ensures j + HashShift(bits) >= bits ==> UpdateHash(g, c, bits) == UpdateHash(h, c, bits)
  {
    hide Xor, Shl, LowBits;
    var s := HashShift(bits);
    var k := if j + s < bits then j + s else bits;
    var x, y := Xor(Shl(g, s), c), Xor(Shl(h, s), c);
    LowXor(Shl(g, s), c, k);
    LowXor(Shl(h, s), c, k);
    LowOfShl(g, s, k);
    LowOfShl(h, s, k);
    if s < k { LowBitsTwice(g, j, k - s); LowBitsTwice(h, j, k - s); }
    LowBitsTwice(x, bits, k);
    LowBitsTwice(y, bits, k);
  }

  /** Whatever the running hash was, after three bytes it is their hash. */
  lemma Rolls(h: nat, b0: Byte, b1: Byte, b2: Byte, bits: nat)
    requires HashSizes(bits)
    ensures UpdateHash(UpdateHash(UpdateHash(h, b0, bits), b1, bits), b2, bits) == Hash3(b0, b1, b2, bits)
  {
    hide UpdateHash;
    var s := HashShift(bits);
    assert 3 * s >= bits && s < bits;
    assert Alike(h, 0, 0) by { assert LowBits(h, 0) == LowBits(0, 0); }
    UpdateAlike(h, 0, b0, bits, 0);
    var g1, h1 := UpdateHash(h, b0, bits), UpdateHash(0, b0, bits);
    UpdateAlike(g1, h1, b1, bits, s);
    var g2, h2 := UpdateHash(g1, b1, bits), UpdateHash(h1, b1, bits);
    UpdateAlike(g2, h2, b2, bits, if s + s < bits then s + s else bits);
  }

  /** Strings with equal hashes and equal first two bytes have equal third bytes. */
  lemma ThirdByte(b0: Byte, b1: Byte, x: Byte, y: Byte, bits: nat)
    requires HashSizes(bits) && Hash3(b0, b1, x, bits) == Hash3(b0, b1, y, bits)
    ensures x == y
  {
    hide Xor, Shl, LowBits;
    var a := Shl(UpdateHash(UpdateHash(0, b0, bits), b1, bits), HashShift(bits));
    assert Pow2(8) == 256;
    Pow2Mono(8, bits);
    LowXor(a, x, bits);
    LowXor(a, y, bits);
    LowSmall(x, bits);
    LowSmall(y, bits);
    XorComm(LowBits(a, bits), x);
    XorComm(LowBits(a, bits), y);
    XorTwice(x, LowBits(a, bits));
    XorTwice(y, LowBits(a, bits));
  }

  /** The running hash is ready for the string that starts with these two bytes. */
  ghost predicate Primed(h: nat, b0: Byte, b1: Byte, bits: nat) {
    forall c: Byte :: UpdateHash(h, c, bits) == Hash3(b0, b1, c, bits)
  }

  /** A hash made from two bytes, whatever came before. */
  lemma PrimedByTwo(h: nat, b0: Byte, b1: Byte, bits: nat)
    requires HashSizes(bits)
    ensures Primed(UpdateHash(UpdateHash(h, b0, bits), b1, bits), b0, b1, bits)
  {
    hide UpdateHash, Hash3;
    forall c: Byte ensures UpdateHash(UpdateHash(UpdateHash(h, b0, bits), b1, bits), c, bits) == Hash3(b0, b1, c, bits) {
      Rolls(h, b0, b1, c, bits);
    }
  }

  /** Starting from the bare first byte. */
  lemma PrimedFresh(b0: Byte, b1: Byte, bits: nat)
    requires HashSizes(bits)
    ensures Primed(UpdateHash(b0, b1, bits), b0, b1, bits)
  {
    hide UpdateHash;
    FirstByte(b0, bits);
    PrimedByTwo(0, b0, b1, bits);
  }

  lemma FirstByte(b: Byte, bits: nat)
    requires HashSizes(bits)
    ensures UpdateHash(0, b, bits) == b
  {
    hide Xor, LowBits;
    var s := HashShift(bits);
    assert Shl(0, s) == 0 by { ShlZero(0, s); }
    XorZero(b);
    assert Pow2(8) == 256;
    Pow2Mono(8, bits);
    LowSmall(b, bits);
  }

  /** Inserting a string leaves the hash ready for the next. */
  lemma PrimedNext(h: nat, b0: Byte, b1: Byte, b2: Byte, bits: nat)
    requires HashSizes(bits) && Primed(h, b0, b1, bits)
    ensures Primed(UpdateHash(h, b2, bits), b1, b2, bits)
  {
    hide UpdateHash;
    PrimedByTwo(UpdateHash(0, b0, bits), b1, b2, bits);
  }

  lemma HashInRange(h: nat, c: Byte, bits: nat)
    ensures UpdateHash(h, c, bits) < Pow2(bits)
  {}

  // ----- chains -----

  /** Hash of the string at stream position a. */
  function HashAt(data: seq<Byte>, a: nat, bits: nat): nat
    requires a + 3 <= |data|
  {
    Hash3(data[a], data[a + 1], data[a + 2], bits)
  }

  /** There are three bytes at stream position a, and they have hash h. */
  ghost predicate HasHash(data: seq<Byte>, a: nat, h: nat, bits: nat) {
    a + 3 <= |data| && HashAt(data, a, bits) == h
  }

  /** m is the window index of the latest string of a hash inserted before stream position q.  NIL says that there is none
      in the window, apart from the one at window index 0. */
  ghost predicate Latest(m: nat, h: nat, q: nat, data: seq<Byte>, base: nat, ins: set<nat>, bits: nat) {
    (m == NIL || (base + m in ins && base + m < q && HasHash(data, base + m, h, bits))) &&
    forall a :: a in ins && base + m < a < q ==> !HasHash(data, a, h, bits)
  }

  /** str & w_mask, for the indices of a window of twice the size. */
  function Slot(i: nat, n: nat): nat
    requires i < 2 * n
    ensures Slot(i, n) < n
  {
    if i < n then i else i - n
  }

  /** The link of an inserted string leads to the one before it with the same hash. */
  ghost predicate Link(prev: seq<nat>, i: nat, data: seq<Byte>, base: nat, ins: set<nat>, bits: nat) {
    i < 2 * |prev| && base + i + 3 <= |data| &&
    Latest(prev[Slot(i, |prev|)], HashAt(data, base + i, bits), base + i, data, base, ins, bits)
  }

  ghost predicate InWindow(i: nat, ins: set<nat>, base: nat) {
    base + i in ins
  }

  /** Chains over the strings inserted so far; links are kept for the strings within a window of position p. */
  ghost predicate Chains(head: seq<nat>, prev: seq<nat>, data: seq<Byte>, base: nat, p: nat, ins: set<nat>, bits: nat) {
    |prev| > 0 && |head| == Pow2(bits) &&
    (forall a :: a in ins ==> a + 3 <= |data|) &&
    (forall h :: 0 <= h < |head| ==> Latest(head[h], h, |data|, data, base, ins, bits)) &&
    (forall i: nat :: InWindow(i, ins, base) && i + |prev| > p && i < 2 * |prev| ==> Link(prev, i, data, base, ins, bits))
  }

  /** All inserted strings start before stream position q. */
  ghost predicate AllBefore(ins: set<nat>, q: int) {
    forall a :: a in ins ==> a < q
  }

  lemma ChainsEmpty(head: seq<nat>, prev: seq<nat>, data: seq<Byte>, base: nat, p: nat, bits: nat)
    requires |prev| > 0 && |head| == Pow2(bits) && forall h :: 0 <= h < |head| ==> head[h] == NIL
    ensures Chains(head, prev, data, base, p, {}, bits)
  {}

  lemma ChainsAdvance(head: seq<nat>, prev: seq<nat>, data: seq<Byte>, base: nat, p: nat, p': nat, ins: set<nat>, bits: nat)
    requires Chains(head, prev, data, base, p, ins, bits) && p <= p'
    ensures Chains(head, prev, data, base, p', ins, bits)
  {}

  lemma HashMore(data: seq<Byte>, a: nat, h: nat, bits: nat, more: seq<Byte>)
    requires a + 3 <= |data|
    ensures HasHash(data + more, a, h, bits) == HasHash(data, a, h, bits)
  {}

  lemma LatestMore(m: nat, h: nat, q: nat, q': nat, data: seq<Byte>, base: nat, ins: set<nat>, bits: nat, more: seq<Byte>)
    requires Latest(m, h, q, data, base, ins, bits) && (forall a :: a in ins ==> a + 3 <= |data|) && (q == q' || |data| <= q <= q')
    ensures Latest(m, h, q', data + more, base, ins, bits)
  {
    hide HasHash;
    if m != NIL { assert base + m in ins; HashMore(data, base + m, h, bits, more); }
    forall a | a in ins && base + m < a < q' ensures !HasHash(data + more, a, h, bits) { HashMore(data, a, h, bits, more); }
  }

  lemma ChainsMore(head: seq<nat>, prev: seq<nat>, data: seq<Byte>, base: nat, p: nat, ins: set<nat>, bits: nat, more: seq<Byte>)
    requires Chains(head, prev, data, base, p, ins, bits)
    ensures Chains(head, prev, data + more, base, p, ins, bits)
  {
    hide Hash3, Latest;
    forall h | 0 <= h < |head| ensures Latest(head[h], h, |data + more|, data + more, base, ins, bits) {
      LatestMore(head[h], h, |data|, |data + more|, data, base, ins, bits, more);
    }
    forall i: nat | InWindow(i, ins, base) && i + |prev| > p && i < 2 * |prev| ensures Link(prev, i, data + more, base, ins, bits) {
      assert Link(prev, i, data, base, ins, bits);
      LatestMore(prev[Slot(i, |prev|)], HashAt(data, base + i, bits), base + i, base + i, data, base, ins, bits, more);
    }
  }

  /** A later string, or one of another hash, does not change which is the latest. */
  lemma LatestKept(m: nat, h: nat, q: nat, data: seq<Byte>, base: nat, ins: set<nat>, bits: nat, new': nat)
    requires Latest(m, h, q, data, base, ins, bits) && (q <= new' || !HasHash(data, new', h, bits))
    ensures Latest(m, h, q, data, base, ins + {new'}, bits)
  {}

  /** INSERT_STRING at window index str: the old head becomes the link of the new string. */
  lemma ChainsInsert(head: seq<nat>, prev: seq<nat>, data: seq<Byte>, base: nat, p: nat, str: nat, ins: set<nat>, bits: nat, h: nat)
    requires Chains(head, prev, data, base, p, ins, bits) && AllBefore(ins, base + str)
    requires str <= p && str < 2 * |prev| && base + str + 3 <= |data| && h == HashAt(data, base + str, bits) < |head|
    ensures Chains(head[h := str], prev[Slot(str, |prev|) := head[h]], data, base, p, ins + {base + str}, bits)
    ensures AllBefore(ins + {base + str}, base + str + 1)
    ensures Latest(head[h], h, base + str, data, base, ins + {base + str}, bits)
  {
    hide Hash3, HashAt;
    var new' := base + str;
    var ins' := ins + {new'};
    var prev', head' := prev[Slot(str, |prev|) := head[h]], head[h := str];
    assert Latest(head[h], h, |data|, data, base, ins, bits);
    forall g | 0 <= g < |head| ensures Latest(head'[g], g, |data|, data, base, ins', bits) {
      assert Latest(head[g], g, |data|, data, base, ins, bits);
      if g != h { LatestKept(head[g], g, |data|, data, base, ins, bits, new'); }
    }
    forall i: nat | InWindow(i, ins', base) && i + |prev| > p && i < 2 * |prev| ensures Link(prev', i, data, base, ins', bits) {
      if i != str {
        assert InWindow(i, ins, base) && i < str;
        assert Link(prev, i, data, base, ins, bits);
        LatestKept(prev[Slot(i, |prev|)], HashAt(data, base + i, bits), base + i, data, base, ins, bits, new');
      }
    }
  }

  /** Entries after the window has moved down by n. */
  function Slid(s: seq<nat>, n: nat): (r: seq<nat>)
    ensures |r| == |s|
  {
    seq(|s|, k requires 0 <= k < |s| => if s[k] >= n then s[k] - n else NIL)
  }

  /** What has left the window, or is now at window index 0, is forgotten. */
  lemma LatestSlid(m: nat, h: nat, q: nat, data: seq<Byte>, base: nat, ins: set<nat>, bits: nat, n: nat)
    requires Latest(m, h, q, data, base, ins, bits)
    ensures Latest(if m >= n then m - n else NIL, h, q, data, base + n, ins, bits)
  {
    hide HashAt;
  }

  /** Sliding keeps every live entry pointing at the same string. */
  lemma ChainsSlide(head: seq<nat>, prev: seq<nat>, data: seq<Byte>, base: nat, p: nat, ins: set<nat>, bits: nat)
    requires Chains(head, prev, data, base, p, ins, bits) && |prev| <= p && |data| <= base + 2 * |prev|
    ensures Chains(Slid(head, |prev|), Slid(prev, |prev|), data, base + |prev|, p - |prev|, ins, bits)
  {
    hide HashAt, Latest;
    var n := |prev|;
    var b := base + n;
    var head', prev' := Slid(head, n), Slid(prev, n);
    forall h | 0 <= h < |head| ensures Latest(head'[h], h, |data|, data, b, ins, bits) {
      LatestSlid(head[h], h, |data|, data, base, ins, bits, n);
    }
    forall i: nat | InWindow(i, ins, b) && i + n > p - n && i < 2 * n ensures Link(prev', i, data, b, ins, bits) {
      assert InWindow(i + n, ins, base);
      assert Link(prev, i + n, data, base, ins, bits);
      LatestSlid(prev[Slot(i + n, n)], HashAt(data, base + (i + n), bits), base + (i + n), data, base, ins, bits, n);
    }
  }

  /** Following a link that is still kept. */
  lemma FollowLink(head: seq<nat>, prev: seq<nat>, data: seq<Byte>, base: nat, p: nat, ins: set<nat>, bits: nat, m: nat, h: nat)
    requires Chains(head, prev, data, base, p, ins, bits) && base + m in ins && m + |prev| > p && m < 2 * |prev|
    requires HasHash(data, base + m, h, bits)
    ensures Latest(prev[Slot(m, |prev|)], h, base + m, data, base, ins, bits)
  {
    assert InWindow(m, ins, base);
    assert Link(prev, m, data, base, ins, bits);
  }

  // ----- what a chain holds -----

  /** The strings of a hash inserted after position low and before q, the latest first. */
  ghost function Earlier(data: seq<Byte>, ins: set<nat>, h: nat, q: nat, low: nat, bits: nat): seq<nat> {
    if q <= low + 1 then []
    else if q - 1 in ins && HasHash(data, q - 1, h, bits) then [q - 1] + Earlier(data, ins, h, q - 1, low, bits)
    else Earlier(data, ins, h, q - 1, low, bits)
  }

  lemma {:induction false} EarlierNone(data: seq<Byte>, ins: set<nat>, h: nat, q: nat, low: nat, bits: nat)
    requires forall a :: a in ins && low < a < q ==> !HasHash(data, a, h, bits)
    ensures Earlier(data, ins, h, q, low, bits) == []
  {
    hide HasHash;
    if q > low + 1 { EarlierNone(data, ins, h, q - 1, low, bits); }
  }

  lemma {:induction false} EarlierFirst(data: seq<Byte>, ins: set<nat>, h: nat, q: nat, low: nat, bits: nat, m: nat)
    requires low < m < q && m in ins && HasHash(data, m, h, bits) && forall a :: a in ins && m < a < q ==> !HasHash(data, a, h, bits)
    ensures Earlier(data, ins, h, q, low, bits) == [m] + Earlier(data, ins, h, m, low, bits)
  {
    hide HasHash;
    if m < q - 1 { EarlierFirst(data, ins, h, q - 1, low, bits, m); }
  }

  /** A head or link of the chains is the first of the earlier strings with its hash, and the links from there on give the rest. */
  lemma ChainEarlier(m: nat, h: nat, q: nat, data: seq<Byte>, base: nat, ins: set<nat>, bits: nat)
    requires Latest(m, h, q, data, base, ins, bits)
    ensures Earlier(data, ins, h, q, base, bits) == if m == NIL then [] else [base + m] + Earlier(data, ins, h, base + m, base, bits)
  {
    hide HasHash;
    if m == NIL { EarlierNone(data, ins, h, q, base, bits); } else { EarlierFirst(data, ins, h, q, base, bits, base + m); }
  }

  /** Every inserted string of the hash in the range is on the list, and nothing else is. */
  lemma {:induction false} EarlierHas(data: seq<Byte>, ins: set<nat>, h: nat, q: nat, low: nat, bits: nat, a: nat)
    ensures a in Earlier(data, ins, h, q, low, bits) <==> a in ins && low < a < q && HasHash(data, a, h, bits)
  {
    hide HasHash;
    if q > low + 1 { EarlierHas(data, ins, h, q - 1, low, bits, a); }
  }

  /** Those before entry i of the list are the strings inserted after it. */
  lemma {:induction false} EarlierCut(data: seq<Byte>, ins: set<nat>, h: nat, q: nat, low: nat, bits: nat, i: nat)
    requires i < |Earlier(data, ins, h, q, low, bits)|
    ensures var c := Earlier(data, ins, h, q, low, bits);
            low < c[i] < q && Earlier(data, ins, h, q, c[i], bits) == c[..i] && forall j :: i < j < |c| ==> c[j] < c[i]
  {
    hide HasHash;
    var c, r := Earlier(data, ins, h, q, low, bits), Earlier(data, ins, h, q - 1, low, bits);
    if q - 1 in ins && HasHash(data, q - 1, h, bits) {
      if i > 0 {
        EarlierCut(data, ins, h, q - 1, low, bits, i - 1);
        assert c[..i] == [q - 1] + r[..i - 1];
      } else {
        forall j | 0 < j < |c| ensures c[j] < q - 1 { EarlierHas(data, ins, h, q - 1, low, bits, r[j - 1]); assert r[j - 1] in r; }
      }
    } else {
      EarlierCut(data, ins, h, q - 1, low, bits, i);
    }
  }

  lemma {:induction false} EarlierMore(data: seq<Byte>, ins: set<nat>, h: nat, q: nat, low: nat, bits: nat, more: seq<Byte>)
    requires forall a :: a in ins ==> a + 3 <= |data|
    ensures Earlier(data + more, ins, h, q, low, bits) == Earlier(data, ins, h, q, low, bits)
  {
    hide HasHash;
    if q > low + 1 {
      if q - 1 in ins { HashMore(data, q - 1, h, bits, more); }
      EarlierMore(data, ins, h, q - 1, low, bits, more);
    }
  }

  // ----- searching a chain -----

  /** None of the first v candidates agrees with the string at pos in more than n bytes. */
  ghost predicate NoneLonger(data: seq<Byte>, c: seq<nat>, pos: nat, v: nat, n: nat) {
    v <= |c| && forall i :: 0 <= i < v ==> !Repeats(data, c[i], pos, n + 1)
  }

  /** The candidate at start, one of the first v, agrees in n bytes, and those before it do not. */
  ghost predicate Nearest(data: seq<Byte>, c: seq<nat>, pos: nat, v: nat, at: nat, n: nat, start: int) {
    at < v <= |c| && c[at] == start && Repeats(data, start, pos, n) && forall i :: 0 <= i < at ==> !Repeats(data, c[i], pos, n)
  }

  /** How many candidates are looked at; fewer if there is a good match already. */
  function Budget(prevLength: nat, goodMatch: nat, maxChain: nat): nat {
    if prevLength >= goodMatch then maxChain / 4 else maxChain
  }

  function Lesser(x: int, y: int): int { if x <= y then x else y }
  function Greater(x: nat, y: nat): nat { if x >= y then x else y }

  /** After v candidates, best is the longest agreement and start the nearest candidate with it, as far as there are la bytes
      of input; an agreement in no more than prev bytes is of no interest. */
  ghost predicate SoFar(data: seq<Byte>, c: seq<nat>, pos: nat, v: nat, at: nat, best: nat, start: int, prev: nat, la: nat) {
    (best < Lesser(MAX_MATCH, la) ==> NoneLonger(data, c, pos, v, best)) &&
    (Lesser(best, la) > prev ==> Nearest(data, c, pos, v, at, Lesser(best, la), start))
  }

  lemma NoneYet(data: seq<Byte>, c: seq<nat>, pos: nat, prev: nat, la: nat, start: int)
    ensures SoFar(data, c, pos, 0, 0, prev, start, prev, la)
  {}

  /** One more candidate, which agrees in len bytes. */
  lemma NextLonger(data: seq<Byte>, c: seq<nat>, pos: nat, v: nat, at: nat, best: nat, start: int, prev: nat, la: nat, len: nat)
    requires SoFar(data, c, pos, v, at, best, start, prev, la) && v < |c| && prev <= best && (best > prev ==> best < la) && len <= MAX_MATCH
    requires len > best ==> Repeats(data, c[v], pos, Lesser(len, la))
    requires Greater(len, best) < Lesser(MAX_MATCH, la) ==> !Repeats(data, c[v], pos, Greater(len, best) + 1)
    ensures if len > best then SoFar(data, c, pos, v + 1, v, len, c[v], prev, la) else SoFar(data, c, pos, v + 1, at, best, start, prev, la)
  {
    hide Repeats;
    if best < Lesser(MAX_MATCH, la) {
      forall i, n: nat | 0 <= i < v && best < n && Repeats(data, c[i], pos, n) ensures false { RepeatsFewer(data, c[i], pos, n, best + 1); }
    }
  }

  lemma Longest(data: seq<Byte>, c: seq<nat>, pos: nat, v: nat, at: nat, best: nat, start: int, prev: nat, la: nat)
    requires SoFar(data, c, pos, v, at, best, start, prev, la)
    ensures best < Lesser(MAX_MATCH, la) ==> NoneLonger(data, c, pos, v, best)
    ensures Lesser(best, la) > prev ==> Nearest(data, c, pos, v, at, Lesser(best, la), start)
  {}

  /** A difference in byte k leaves no agreement in more than n. */
  lemma Differ(win: seq<Byte>, from: int, to: int, k: nat, n: nat)
    requires k <= n && !SameByte(win, from, to, k)
    ensures !Repeats(win, from, to, n + 1)
  {}
}
