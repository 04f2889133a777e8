/** The bucket header bitmap: one bit a position, searched a word at a time. */
module HeaderBits {
  import opened Words

  /** Bit k of the bitmap. */
  ghost predicate Bit(bh: seq<nat>, k: nat)
    requires k / 32 < |bh|
  {
    TestBit(bh[k / 32], k % 32)
  }

  method Set(bhtab: array<nat>, k: nat)
    requires k / 32 < bhtab.Length
    modifies bhtab
    ensures forall j: nat :: j / 32 < bhtab.Length ==>
      Bit(bhtab[..], j) == (j == k || old(Bit(bhtab[..], j)))
  {
    hide TestBit;
    var w := bhtab[k / 32];
    bhtab[k / 32] := Or(w, Pow2(k % 32));
    forall j: nat | j / 32 < bhtab.Length
      ensures Bit(bhtab[..], j) == (j == k || old(Bit(bhtab[..], j)))
    {
      OrBit(w, k % 32, j % 32);
    }
  }

  method Clear(bhtab: array<nat>, k: nat)
    requires k / 32 < bhtab.Length
    modifies bhtab
    ensures forall j: nat :: j / 32 < bhtab.Length ==>
      Bit(bhtab[..], j) == (j != k && old(Bit(bhtab[..], j)))
  {
    hide TestBit;
    var w := bhtab[k / 32];
    bhtab[k / 32] := AndNot(w, Pow2(k % 32));
    forall j: nat | j / 32 < bhtab.Length
      ensures Bit(bhtab[..], j) == (j != k && old(Bit(bhtab[..], j)))
    {
      AndNotBit(w, k % 32, j % 32);
    }
  }

  method IsSet(bhtab: array<nat>, k: nat) returns (r: bool)
    requires k / 32 < bhtab.Length
    ensures r == Bit(bhtab[..], k)
  {
    r := TestBit(bhtab[k / 32], k % 32);
  }

  /** First clear position from k0 on; stop is a clear sentinel. */
  method FindClear(bhtab: array<nat>, k0: nat, ghost stop: nat) returns (k: nat)
    requires k0 <= stop && stop / 32 < bhtab.Length && !Bit(bhtab[..], stop)
    ensures k0 <= k <= stop && !Bit(bhtab[..], k)
    ensures forall j :: k0 <= j < k ==> Bit(bhtab[..], j)
  {
    hide TestBit;
    k := k0;
    var s := IsSet(bhtab, k);
    while s && k % 32 != 0
      invariant k0 <= k <= stop && s == Bit(bhtab[..], k)
      invariant forall j :: k0 <= j < k ==> Bit(bhtab[..], j)
      decreases stop - k
    {
      k := k + 1;
      s := IsSet(bhtab, k);
    }
    if s {
      while bhtab[k / 32] == 0xffff_ffff
        invariant k0 <= k <= stop && k % 32 == 0
        invariant forall j :: k0 <= j < k ==> Bit(bhtab[..], j)
        decreases stop - k
      {
        forall j | k <= j < k + 32 ensures Bit(bhtab[..], j) {
          assert j / 32 == k / 32;
          FullWord(j % 32);
        }
        k := k + 32;
      }
      s := IsSet(bhtab, k);
      while s
        invariant k0 <= k <= stop && s == Bit(bhtab[..], k)
        invariant forall j :: k0 <= j < k ==> Bit(bhtab[..], j)
        decreases stop - k, s
      {
        k := k + 1;
        s := IsSet(bhtab, k);
      }
    }
  }

  /** First set position from k0 on; stop is a set sentinel. */
  method FindSet(bhtab: array<nat>, k0: nat, ghost stop: nat) returns (k: nat)
    requires k0 <= stop && stop / 32 < bhtab.Length && Bit(bhtab[..], stop)
    ensures k0 <= k <= stop && Bit(bhtab[..], k)
    ensures forall j :: k0 <= j < k ==> !Bit(bhtab[..], j)
  {
    hide TestBit;
    k := k0;
    var s := IsSet(bhtab, k);
    while !s && k % 32 != 0
      invariant k0 <= k <= stop && s == Bit(bhtab[..], k)
      invariant forall j :: k0 <= j < k ==> !Bit(bhtab[..], j)
      decreases stop - k
    {
      k := k + 1;
      s := IsSet(bhtab, k);
    }
    if !s {
      while bhtab[k / 32] == 0
        invariant k0 <= k <= stop && k % 32 == 0
        invariant forall j :: k0 <= j < k ==> !Bit(bhtab[..], j)
        decreases stop - k
      {
        forall j | k <= j < k + 32 ensures !Bit(bhtab[..], j) {
          assert j / 32 == k / 32;
          NoBits(j % 32);
        }
        k := k + 32;
      }
      s := IsSet(bhtab, k);
      while !s
        invariant k0 <= k <= stop && s == Bit(bhtab[..], k)
        invariant forall j :: k0 <= j < k ==> !Bit(bhtab[..], j)
        decreases stop - k, !s
      {
        k := k + 1;
        s := IsSet(bhtab, k);
      }
    }
  }
}
