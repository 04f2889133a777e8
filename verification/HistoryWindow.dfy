/** The circular window in which inflate keeps the last output bytes between calls. */
module HistoryWindow {
  import opened Rotations

  /** Where the byte d back from the write index is. */
  function Cell(wsize: nat, wnext: nat, d: nat): int {
    if d <= wnext then wnext - d else wnext + wsize - d
  }

  predicate HeldAt(window: seq<Byte>, wsize: nat, wnext: nat, history: seq<Byte>, d: nat) {
    1 <= d <= |history| && 0 <= Cell(wsize, wnext, d) < |window| && window[Cell(wsize, wnext, d)] == history[|history| - d]
  }

  /** The window holds exactly the last whave bytes of the output so far: all there are, or as many as it has room for. */
  ghost predicate Mirror(window: seq<Byte>, wsize: nat, whave: nat, wnext: nat, history: seq<Byte>) {
    && whave <= wsize <= |window| && (if wsize == 0 then wnext == 0 && history == [] else wnext < wsize)
    && (whave == wsize || (wnext == whave && whave == |history|))
    && forall d: nat :: 1 <= d <= whave ==> HeldAt(window, wsize, wnext, history, d)
  }

  /** How much of n bytes a window of that size does not hold. */
  function Behind(n: nat, wsize: nat): nat {
    if n > wsize then n - wsize else 0
  }

  lemma MirrorSize(window: seq<Byte>, wsize: nat, whave: nat, wnext: nat, history: seq<Byte>)
    requires Mirror(window, wsize, whave, wnext, history)
    ensures whave == if |history| < wsize then |history| else wsize
  {
    if whave > 0 { assert HeldAt(window, wsize, wnext, history, whave); }
  }

  lemma MirrorByte(window: seq<Byte>, wsize: nat, whave: nat, wnext: nat, history: seq<Byte>, d: nat)
    requires Mirror(window, wsize, whave, wnext, history) && 1 <= d <= whave
    ensures HeldAt(window, wsize, wnext, history, d)
  {}

  /** d with n bytes of s from `from` on written at `at`. */
  function Spliced(d: seq<Byte>, at: nat, s: seq<Byte>, from: nat, n: nat): (r: seq<Byte>)
    requires at + n <= |d| && from + n <= |s|
    ensures |r| == |d|
  {
    d[..at] + s[from..from + n] + d[at + n..]
  }

  lemma SplicedNext(d: seq<Byte>, at: nat, s: seq<Byte>, from: nat, n: nat)
    requires at + n < |d| && from + n < |s|
    ensures Spliced(d, at, s, from, n + 1) == Spliced(d, at, s, from, n)[at + n := s[from + n]]
  {}

  method Memcpy(dst: array<Byte>, at: nat, src: array<Byte>, from: nat, n: nat)
    requires dst != src && at + n <= dst.Length && from + n <= src.Length
    modifies dst
    ensures dst[..] == Spliced(old(dst[..]), at, src[..], from, n)
  {
    ghost var was := dst[..];
    for i := 0 to n
      invariant dst[..] == Spliced(was, at, src[..], from, i)
    {
      hide Spliced;
      SplicedNext(was, at, src[..], from, i);
      ghost var d := dst[..];
      dst[at + i] := src[from + i];
      assert dst[..] == d[at + i := src[from + i]];
    }
  }

  /** The window replaced as a whole. */
  lemma Replaced(window: seq<Byte>, wsize: nat, history: seq<Byte>, out: seq<Byte>)
    requires 0 < wsize <= |window| && |out| >= wsize && window[..wsize] == out[|out| - wsize..]
    ensures Mirror(window, wsize, wsize, 0, history + out)
  {
    forall d: nat | 1 <= d <= wsize ensures HeldAt(window, wsize, 0, history + out, d) {
      assert window[wsize - d] == window[..wsize][wsize - d];
    }
  }

  /** The output added at the write index without reaching the end. */
  lemma Added(w: seq<Byte>, window: seq<Byte>, wsize: nat, whave: nat, wnext: nat, history: seq<Byte>, out: seq<Byte>)
    requires Mirror(w, wsize, whave, wnext, history) && wsize > 0 && wnext + |out| <= wsize && |out| < wsize
    requires |window| == |w| && window == w[..wnext] + out + w[wnext + |out|..]
    ensures var n := if wnext + |out| == wsize then 0 else wnext + |out|;
            var have := if whave < wsize then whave + |out| else whave;
            Mirror(window, wsize, have, n, history + out)
  {
    var n := if wnext + |out| == wsize then 0 else wnext + |out|;
    var have := if whave < wsize then whave + |out| else whave;
    forall d: nat | 1 <= d <= have ensures HeldAt(window, wsize, n, history + out, d) {
      if d <= |out| {
        assert Cell(wsize, n, d) == wnext + |out| - d;
      } else {
        var e: nat := d - |out|;
        if e <= wnext {
          assert Cell(wsize, n, d) == Cell(wsize, wnext, e) == wnext - e;
        } else {
          assert Cell(wsize, n, d) == Cell(wsize, wnext, e) == wnext + wsize - e;
        }
        assert HeldAt(w, wsize, wnext, history, e);
      }
    }
  }

  /** The output wrapped around the end. */
  lemma Wrapped(w: seq<Byte>, window: seq<Byte>, wsize: nat, whave: nat, wnext: nat, history: seq<Byte>, out: seq<Byte>, k: nat)
    requires Mirror(w, wsize, whave, wnext, history) && k < |out| < wsize == wnext + k
    requires |window| == |w| && window == out[k..] + w[|out| - k..wnext] + out[..k] + w[wsize..]
    ensures Mirror(window, wsize, wsize, |out| - k, history + out)
  {
    var n: nat := |out| - k;
    forall d: nat | 1 <= d <= wsize ensures HeldAt(window, wsize, n, history + out, d) {
      if d <= n {
        assert Cell(wsize, n, d) == n - d;
      } else if d <= |out| {
        assert Cell(wsize, n, d) == wsize - (d - n);
      } else {
        var e: nat := d - |out|;
        WrappedKept(w, wsize, whave, wnext, history, e);
        assert Cell(wsize, n, d) == wnext - e;
      }
    }
  }

  lemma WrappedKept(w: seq<Byte>, wsize: nat, whave: nat, wnext: nat, history: seq<Byte>, e: nat)
    requires Mirror(w, wsize, whave, wnext, history) && 1 <= e <= wnext
    ensures HeldAt(w, wsize, wnext, history, e) && Cell(wsize, wnext, e) == wnext - e
  {}
}
