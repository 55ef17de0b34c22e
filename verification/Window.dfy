/** The output side of the decoder: the 32 KiB ring `slide`, the three-way match
    copy (zip/inflate.c:384-390, 414-437) and the windows handed to `flush_window`. */
module Window {
  import opened BitStream
  import opened DeflateSpec

  /** The last byte of the history that went to place `i` of the ring. */
  function RingAt(hist: seq<byte>, w: nat, i: nat): (r: byte)
    requires w <= WSIZE && i < WSIZE && WSIZE + w <= |hist|
  {
    if i < w then hist[|hist| - w + i] else hist[|hist| - w - WSIZE + i]
  }

  ghost predicate RingOk(slide: seq<byte>, w: nat, hist: seq<byte>)
  {
    && |slide| == WSIZE && w <= WSIZE && WSIZE + w <= |hist|
    && forall i :: 0 <= i < WSIZE ==> slide[i] == RingAt(hist, w, i)
  }

  lemma RingPut(slide: seq<byte>, w: nat, hist: seq<byte>, b: byte)
    requires RingOk(slide, w, hist) && w < WSIZE
    ensures RingOk(slide[w := b], w + 1, hist + [b])
  {
    var slide', hist' := slide[w := b], hist + [b];
    forall i | 0 <= i < WSIZE
      ensures slide'[i] == RingAt(hist', w + 1, i)
    {
      assert slide[i] == RingAt(hist, w, i);
    }
  }

  /** A full ring starts over without losing anything. */
  lemma RingWrap(slide: seq<byte>, hist: seq<byte>)
    requires RingOk(slide, WSIZE, hist)
    ensures RingOk(slide, 0, hist)
  {
    forall i | 0 <= i < WSIZE
      ensures slide[i] == RingAt(hist, 0, i)
    {
      assert slide[i] == RingAt(hist, WSIZE, i);
    }
  }

  /** The byte `dist` places back, wherever the ring has it. */
  lemma RingBack(slide: seq<byte>, w: nat, hist: seq<byte>, dist: nat, d: nat)
    requires RingOk(slide, w, hist) && w < WSIZE && 1 <= dist <= WSIZE
    requires d == if dist <= w then w - dist else w + WSIZE - dist
    ensures d < WSIZE && slide[d] == hist[|hist| - dist]
  {
    assert slide[d] == RingAt(hist, w, d);
  }

  /** Whole windows; and windows that are whole but for the last, which is not empty. */
  predicate Whole(ws: seq<seq<byte>>)
  {
    forall k :: 0 <= k < |ws| ==> |ws[k]| == WSIZE
  }

  predicate Cut(ws: seq<seq<byte>>)
  {
    |ws| == 0 || (Whole(ws[..|ws| - 1]) && 0 < |ws[|ws| - 1]| <= WSIZE)
  }

  function Concat(ws: seq<seq<byte>>): (r: seq<byte>)
  {
    if |ws| == 0 then [] else Concat(ws[..|ws| - 1]) + ws[|ws| - 1]
  }

  lemma ConcatAppend(ws: seq<seq<byte>>, x: seq<byte>)
    ensures Concat(ws + [x]) == Concat(ws) + x
  {
    assert (ws + [x])[..|ws|] == ws;
  }

  lemma {:induction false} WholeLength(ws: seq<seq<byte>>)
    requires Whole(ws)
    ensures |Concat(ws)| == |ws| * WSIZE
  {
    if |ws| > 0 {
      WholeLength(ws[..|ws| - 1]);
    }
  }

  /** So the windows are given by the output. */
  lemma {:induction false} CutUnique(a: seq<seq<byte>>, b: seq<seq<byte>>)
    requires Cut(a) && Cut(b) && Concat(a) == Concat(b)
    ensures a == b
    decreases |a|
  {
    if |a| > 0 && |b| > 0 {
      var m, n := |a| - 1, |b| - 1;
      WholeLength(a[..m]);
      WholeLength(b[..n]);
      assert m == n;
      assert Concat(a) == Concat(a[..m]) + a[m] && Concat(b) == Concat(b[..m]) + b[m];
      assert Concat(a[..m]) == Concat(a)[..m * WSIZE] == Concat(b)[..m * WSIZE] == Concat(b[..m]);
      assert a[m] == Concat(a)[m * WSIZE..] == Concat(b)[m * WSIZE..] == b[m];
      WholeCut(a[..m]);
      WholeCut(b[..m]);
      CutUnique(a[..m], b[..m]);
      assert a == a[..m] + [a[m]] && b == b[..m] + [b[m]];
    }
  }

  lemma WholeCut(ws: seq<seq<byte>>)
    requires Whole(ws)
    ensures Cut(ws)
  {
  }

  /** A full ring holds the last bytes of the history. */
  lemma RingIsTail(slide: seq<byte>, hist: seq<byte>)
    requires RingOk(slide, WSIZE, hist)
    ensures hist[|hist| - WSIZE..] == slide
  {
    var tail := hist[|hist| - WSIZE..];
    forall i | 0 <= i < WSIZE
      ensures tail[i] == slide[i]
    {
      assert slide[i] == RingAt(hist, WSIZE, i);
    }
  }

  /** The ring up to `w` holds the last `w` bytes. */
  lemma RingHead(slide: seq<byte>, w: nat, hist: seq<byte>)
    requires RingOk(slide, w, hist)
    ensures hist[|hist| - w..] == slide[..w]
  {
    var tail := hist[|hist| - w..];
    forall i | 0 <= i < w
      ensures tail[i] == slide[i]
    {
      assert slide[i] == RingAt(hist, w, i);
    }
  }

  /** Handing over a full window moves its bytes from the ring to the windows. */
  lemma FlushKeeps(seed: seq<byte>, ws: seq<seq<byte>>, x: seq<byte>, hist: seq<byte>)
    requires |x| <= |hist| && hist[..|hist| - |x|] == seed + Concat(ws) && hist[|hist| - |x|..] == x
    ensures hist[..|hist|] == seed + Concat(ws + [x])
  {
    ConcatAppend(ws, x);
    assert hist == hist[..|hist| - |x|] + hist[|hist| - |x|..];
  }

  /** Writing a whole block of bytes into the ring. */
  lemma RingPutAll(slide: seq<byte>, w: nat, hist: seq<byte>, block: seq<byte>, slide': seq<byte>)
    requires RingOk(slide, w, hist) && w + |block| <= WSIZE
    requires |slide'| == WSIZE
    requires forall i :: 0 <= i < WSIZE ==>
               slide'[i] == if w <= i < w + |block| then block[i - w] else slide[i]
    ensures RingOk(slide', w + |block|, hist + block)
  {
    var hist' := hist + block;
    forall i | 0 <= i < WSIZE
      ensures slide'[i] == RingAt(hist', w + |block|, i)
    {
      assert slide[i] == RingAt(hist, w, i);
    }
  }

  /** A match no longer than its distance is a slice of the history. */
  lemma {:induction false} CopyShort(hist: seq<byte>, dist: nat, n: nat)
    requires 1 <= dist <= |hist| && n <= dist
    ensures Copy(hist, dist, n) == hist + hist[|hist| - dist..|hist| - dist + n]
  {
    CopyIs(hist, dist, n);
    var r := Copy(hist, dist, n);
    forall i | |hist| <= i < |r|
      ensures r[i] == hist[i - dist]
    {
      assert r[i] == r[i - dist];
      assert r[i - dist] == r[..|hist|][i - dist];
    }
    assert forall i :: 0 <= i < |hist| ==> r[i] == r[..|hist|][i];
  }

  /** Copying in two goes. */
  lemma {:induction false} CopyCopy(hist: seq<byte>, dist: nat, a: nat, b: nat)
    requires 1 <= dist <= |hist|
    ensures Copy(Copy(hist, dist, a), dist, b) == Copy(hist, dist, a + b)
    decreases a
  {
    if a > 0 {
      CopyCopy(hist + [hist[|hist| - dist]], dist, a - 1, b);
    }
  }

  /** Every copied byte is the one `dist` places before it, and nothing else changes. */
  lemma {:induction false} CopyIs(hist: seq<byte>, dist: nat, n: nat)
    requires 1 <= dist <= |hist|
    ensures var r := Copy(hist, dist, n);
            && |r| == |hist| + n && r[..|hist|] == hist
            && forall i :: |hist| <= i < |r| ==> r[i] == r[i - dist]
    decreases n
  {
    if n > 0 {
      var hist' := hist + [hist[|hist| - dist]];
      CopyIs(hist', dist, n - 1);
      var r := Copy(hist, dist, n);
      assert r[..|hist|] == r[..|hist'|][..|hist|] == hist;
      assert r[|hist|] == r[..|hist'|][|hist|] == hist'[|hist|];
      assert r[|hist| - dist] == r[..|hist|][|hist| - dist];
    }
  }

  /** `memcpy(a + w, a + d, e)`: the source bytes as they are before the call. */
  method Memcpy(a: array<byte>, w: nat, d: nat, e: nat)
    requires w + e <= a.Length && d + e <= a.Length
    modifies a
    ensures forall i :: 0 <= i < a.Length ==>
              a[i] == if w <= i < w + e then old(a[i - w + d]) else old(a[i])
  {
    forall i | w <= i < w + e {
      a[i] := a[i - w + d];
    }
  }

  class Slide {
    const slide: array<byte>
    /** `outcnt`, which inflate.c calls `wp`. */
    var wp: nat
    /** The windows handed to `flush_window`, in order. */
    var windows: seq<seq<byte>>
    /** Everything ever in the ring: what it held at first, then the output. */
    ghost var hist: seq<byte>
    ghost const seed: seq<byte>

    ghost predicate Valid()
      reads this, slide
    {
      && slide.Length == WSIZE && wp < WSIZE
      && RingOk(slide[..], wp, hist)
      && WSIZE + wp <= |hist| && hist[..|hist| - wp] == seed + Concat(windows) && Whole(windows)
    }

    /** The ring starts with whatever memory holds. */
    constructor (memory: array<byte>)
      requires memory.Length == WSIZE
      ensures Valid() && slide == memory && seed == memory[..]
      ensures wp == 0 && windows == [] && hist == seed
    {
      slide := memory;
      wp, windows := 0, [];
      seed := memory[..];
      hist := memory[..];
    }

    /** `flush_output(w)` and the reset of `w` that follows it. */
    method FlushFull()
      requires slide.Length == WSIZE && wp == WSIZE && RingOk(slide[..], WSIZE, hist)
      requires WSIZE + wp <= |hist| && hist[..|hist| - wp] == seed + Concat(windows) && Whole(windows)
      modifies this`wp, this`windows
      ensures Valid() && wp == 0 && windows == old(windows) + [slide[..]]
    {
      hide Concat;
      RingWrap(slide[..], hist);
      RingIsTail(slide[..], hist);
      FlushKeeps(seed, windows, slide[..], hist);
      windows := windows + [slide[..]];
      wp := 0;
    }

    /** One output byte (zip/inflate.c:384-389). */
    method Put(b: byte)
      requires Valid()
      modifies this, slide
      ensures Valid() && hist == old(hist) + [b]
      ensures old(windows) <= windows
    {
      hide Concat, RingAt;
      RingPut(slide[..], wp, hist, b);
      slide[wp] := b;
      assert slide[..] == old(slide[..])[wp := b];
      wp := wp + 1;
      hist := hist + [b];
      if wp == WSIZE {
        FlushFull();
      }
    }

    /** The last `flush_output` (zip/inflate.c:821): an empty window is not handed on. */
    method FlushRest()
      requires Valid()
      modifies this`windows
      ensures hist == seed + Concat(windows) && Cut(windows)
      ensures windows == if wp == 0 then old(windows) else old(windows) + [slide[..wp]]
    {
      hide Concat;
      if wp > 0 {
        RingHead(slide[..], wp, hist);
        assert slide[..][..wp] == slide[..wp];
        FlushKeeps(seed, windows, slide[..wp], hist);
        windows := windows + [slide[..wp]];
      }
      assert hist[..|hist|] == hist;
    }

    /** The ring while a match is being copied: it may be full. */
    ghost predicate Copying()
      reads this, slide
    {
      && slide.Length == WSIZE && wp <= WSIZE
      && RingOk(slide[..], wp, hist)
      && WSIZE + wp <= |hist| && hist[..|hist| - wp] == seed + Concat(windows) && Whole(windows)
    }

    /** The branch that calls `memcpy`. */
    method BlockMove(d: nat, e: nat, ghost dist: nat)
      requires Valid() && e > 0 && wp + e <= WSIZE && d + e <= WSIZE && 1 <= dist <= WSIZE
      requires d == if dist <= wp then wp - dist else wp + WSIZE - dist
      requires d > wp || wp - d >= e
      modifies this`wp, this`hist, slide
      ensures Copying() && wp == old(wp) + e && hist == Copy(old(hist), dist, e)
    {
      hide Concat, Copy, RingAt, RingOk, Whole;
      Memcpy(slide, wp, d, e);
      BlockStep(old(slide[..]), slide[..], wp, hist, dist, d, e);
      hist := Copy(hist, dist, e);
      wp := wp + e;
    }

    /** The loop that copies byte by byte, so that a match may overlap itself. */
    method ByteMove(d: nat, e: nat, ghost dist: nat)
      requires Valid() && e > 0 && wp + e <= WSIZE && d + e <= WSIZE && 1 <= dist <= WSIZE
      requires d == if dist <= wp then wp - dist else wp + WSIZE - dist
      modifies this`wp, this`hist, slide
      ensures Copying() && wp == old(wp) + e && hist == Copy(old(hist), dist, e)
    {
      hide Concat, RingOk, RingAt, Copy, Whole;
      var i := 0;
      while i < e
        invariant i <= e && wp == old(wp) + i && Copying()
        invariant WSIZE <= |hist| && hist == Copy(old(hist), dist, i)
      {
        RingBack(slide[..], wp, hist, dist, d + i);
        var b := slide[d + i];
        RingPut(slide[..], wp, hist, b);
        CopyOne(old(hist), dist, i);
        ghost var ring := slide[..];
        slide[wp] := b;
        assert slide[..] == ring[wp := b];
        wp := wp + 1;
        hist := hist + [b];
        i := i + 1;
      }
    }

    /** The match copy (zip/inflate.c:414-437). */
    method CopyMatch(dist: nat, n0: nat)
      requires Valid() && 1 <= dist <= WSIZE && n0 > 0
      modifies this, slide
      ensures Valid() && |old(hist)| >= WSIZE && hist == Copy(old(hist), dist, n0)
    {
      hide Concat, RingAt, Copy, Whole;
      var n: nat := n0;
      var d: int := wp - dist;
      while n > 0
        invariant Valid() && n <= n0
        invariant WSIZE <= |old(hist)| && hist == Copy(old(hist), dist, n0 - n)
        invariant d % WSIZE == (wp - dist) % WSIZE
        decreases n
      {
        d := d % WSIZE;
        var far := if d > wp then d else wp;
        var e := if WSIZE - far > n then n else WSIZE - far;
        CopyCopy(old(hist), dist, n0 - n, e);
        n := n - e;
        if d > wp || wp - d >= e {
          BlockMove(d, e, dist);
        } else {
          ByteMove(d, e, dist);
        }
        d := d + e;
        if wp == WSIZE {
          FlushFull();
        }
      }
    }
  }

  lemma CopyOne(hist: seq<byte>, dist: nat, i: nat)
    requires 1 <= dist <= |hist|
    ensures var r := Copy(hist, dist, i); Copy(hist, dist, i + 1) == r + [r[|r| - dist]]
  {
    CopyCopy(hist, dist, i, 1);
    var r := Copy(hist, dist, i);
    assert Copy(r, dist, 1) == Copy(r + [r[|r| - dist]], dist, 0);
  }

  /** The source of a block move is the part of the history it stands for. */
  lemma SourceBlock(slide: seq<byte>, w: nat, hist: seq<byte>, dist: nat, d: nat, e: nat)
    requires RingOk(slide, w, hist) && w < WSIZE && 1 <= dist <= WSIZE
    requires d == if dist <= w then w - dist else w + WSIZE - dist
    requires d + e <= WSIZE && (d > w || w - d >= e)
    ensures e <= dist && slide[d..d + e] == hist[|hist| - dist..|hist| - dist + e]
  {
    forall j | d <= j < d + e
      ensures slide[j] == hist[|hist| - dist + (j - d)]
    {
      assert slide[j] == RingAt(hist, w, j);
    }
  }

  lemma BlockStep(before: seq<byte>, after: seq<byte>, w: nat, hist: seq<byte>, dist: nat, d: nat, e: nat)
    requires RingOk(before, w, hist) && w + e <= WSIZE && d + e <= WSIZE && 1 <= dist <= WSIZE
    requires w < WSIZE && d == if dist <= w then w - dist else w + WSIZE - dist
    requires d > w || w - d >= e
    requires |after| == WSIZE
    requires forall i :: 0 <= i < WSIZE ==> after[i] == if w <= i < w + e then before[i - w + d] else before[i]
    ensures RingOk(after, w + e, Copy(hist, dist, e))
    ensures Copy(hist, dist, e)[..|hist| - w] == hist[..|hist| - w]
  {
    hide Copy, RingAt;
    SourceBlock(before, w, hist, dist, d, e);
    CopyShort(hist, dist, e);
    RingPutAll(before, w, hist, before[d..d + e], after);
  }
}
