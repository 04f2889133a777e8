/** Sorting a block: the fallback sort for small blocks, the main sort for others, and the fallback sort again when
    the main sort's budget runs out. */
module BlockSort {
  import opened Rotations
  import opened ByteArea
  import F = FallbackSort
  import M = MainSort
  import C = MainCompare

  const MAX_BLOCK := 900000
  const FTAB_SIZE := 65537

  /** The bytes of the block, with room for what the main sort puts behind them. */
  method BlockView(area: array<nat>, nblock: nat) returns (block: array<Byte>)
    requires nblock <= area.Length
    ensures fresh(block) && block.Length == nblock + C.N_OVERSHOOT && block[..nblock] == Bytes(area[..], nblock)
  {
    hide GetByte;
    block := new Byte[nblock + C.N_OVERSHOOT];
    for i := 0 to nblock
      invariant forall k :: 0 <= k < i ==> block[k] == GetByte(area[k / 4], k % 4)
    {
      block[i] := GetByte(area[i / 4], i % 4);
    }
  }

  /** The row of the block itself among the sorted rotations; assertion 1003 cannot fail. */
  method FindOrigin(ptr: array<nat>, nblock: nat, ghost s: seq<Byte>) returns (origPtr: nat)
    requires nblock == ptr.Length == |s| && nblock > 0 && RotationSorted(s, ptr[..])
    ensures origPtr < nblock && ptr[origPtr] == 0
  {
    var found := -1;
    var i := 0;
    while i < nblock
      invariant 0 <= i <= nblock && found == -1 && forall k :: 0 <= k < i ==> ptr[k] != 0
    {
      if ptr[i] == 0 { found := i; break; }
      i := i + 1;
    }
    if found == -1 {
      ghost var k := PermutationHits(ptr[..], nblock, 0);
    }
    origPtr := found;
  }

  /** Whatever the work factor: all rotations in order, the block as it was, and the row of the block. */
  method SortBlock(ptr: array<nat>, area: array<nat>, ftab: array<nat>, nblock: nat, workFactor: int) returns (origPtr: nat)
    requires ptr != area && ptr != ftab && area != ftab && ftab.Length == FTAB_SIZE
    requires 0 < nblock <= MAX_BLOCK && nblock == ptr.Length <= area.Length
    modifies ptr, area, ftab
    ensures RotationSorted(Bytes(area[..], nblock), ptr[..])
    ensures Bytes(area[..], nblock) == old(Bytes(area[..], nblock))
    ensures origPtr < nblock && ptr[origPtr] == 0
  {
    hide RotationSorted, Bytes;
    if nblock < 10000 {
      F.FallbackSort(ptr, area, ftab, nblock);
    } else {
      ghost var s := Bytes(area[..], nblock);
      var wfact := if workFactor < 1 then 1 else if workFactor > 100 then 100 else workFactor;
      var budget := nblock * ((wfact - 1) / 3);
      var block := BlockView(area, nblock);
      var quadrant := new nat[nblock + C.N_OVERSHOOT];
      budget := M.MainSort(ptr, block, quadrant, ftab, nblock, budget, s);
      if budget < 0 {
        F.FallbackSort(ptr, area, ftab, nblock);
      }
    }
    origPtr := FindOrigin(ptr, nblock, Bytes(area[..], nblock));
  }
}
