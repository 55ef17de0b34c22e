/** Valid streams: of what the RFC accepts, the program accepts the streams within its
    limits, with the same result, and that result does not depend on what the ring held
    at first. */
module DeflateValid {
  import opened BitStream
  import opened DeflateSpec

  // ----- strict and lenient -----

  lemma {:induction false} CodesStrict(ll: seq<nat>, dl: seq<nat>, src: seq<byte>, p: nat, hist: seq<byte>)
    requires |hist| >= WSIZE && RefCodes(ll, dl, STRICT, src, p, hist).Ok?
    ensures RefCodes(ll, dl, LENIENT, src, p, hist) == RefCodes(ll, dl, STRICT, src, p, hist)
    decreases 8 * |src| - p
  {
    hide RefMatch, Copy, Matches;
    var s := DecodeSym(ll, src, p).s;
    var p1 := p + ll[s];
    if s < 256 {
      CodesStrict(ll, dl, src, p1, hist + [s]);
    } else if s > 256 {
      var m := RefMatch(dl, src, p1, s);
      CodesStrict(ll, dl, src, m.p, Copy(hist, m.dist, m.n));
    }
  }

  lemma {:induction false} LensStrict(cl: seq<nat>, n: nat, src: seq<byte>, p: nat, acc: seq<nat>)
    requires RefLens(cl, true, n, src, p, acc).Lens?
    ensures RefLens(cl, false, n, src, p, acc) == RefLens(cl, true, n, src, p, acc)
    decreases n - |acc|
  {
    hide Peek, Matches;
    if |acc| < n {
      var s := DecodeSym(cl, src, p).s;
      var x := RefLenSym(true, src, p + cl[s], s, acc);
      LensStrict(cl, n, src, x.p, x.lens);
    }
  }

  /** The three sets of a dynamic block are such as the program takes: at most 30
      distance codes, and no code space left over. */
  ghost predicate TreesWithin(src: seq<byte>, p: nat)
  {
    var x := RefTrees(true, src, p);
    && x.Trees? && |x.dl| <= 30
    && (PeekBound(src, p + 10, 4); UsableSet(RefClens(src, p + 14, 4 + Peek(src, p + 10, 4))))
    && UsableSet(x.ll) && UsableSet(x.dl)
  }

  /** Sets that the RFC admits are taken exactly then. */
  lemma TreesStrict(src: seq<byte>, p: nat)
    requires RefTrees(true, src, p).Trees?
    ensures RefTrees(false, src, p) == if TreesWithin(src, p) then RefTrees(true, src, p) else NoTrees
  {
    hide RefLens, RefClens, UsableSet, PrefixSet, Peek;
    var nl, nd, nb := 257 + Peek(src, p, 5), 1 + Peek(src, p + 5, 5), 4 + Peek(src, p + 10, 4);
    PeekBound(src, p + 10, 4);
    LensStrict(RefClens(src, p + 14, nb), nl + nd, src, p + 14 + 3 * nb, []);
  }

  ghost predicate BodyWithin(t: nat, src: seq<byte>, p: nat)
  {
    t == 2 ==> TreesWithin(src, p)
  }

  lemma BodyStrict(t: nat, src: seq<byte>, p: nat, hist: seq<byte>)
    requires |hist| >= WSIZE && RefBody(STRICT, t, src, p, hist).Ok?
    ensures RefBody(LENIENT, t, src, p, hist) == if BodyWithin(t, src, p) then RefBody(STRICT, t, src, p, hist) else Bad
  {
    hide RefCodes, RefLens, RefClens, UsableSet, PrefixSet, RefStored, Peek, TreesWithin, RefTrees;
    if t == 1 {
      CodesStrict(FixedLit(), FixedDist(), src, p, hist);
    } else if t == 2 {
      TreesStrict(src, p);
      var x := RefTrees(true, src, p);
      CodesStrict(x.ll, x.dl, src, x.p, hist);
    }
  }

  /** All dynamic blocks of a stream are within the program's limits. */
  ghost predicate Within(src: seq<byte>, p: nat, hist: seq<byte>)
    requires |hist| >= WSIZE
    decreases 8 * |src| - p
  {
    p + 3 > 8 * |src| ||
    (var t := Peek(src, p + 1, 2);
     var b := RefBody(STRICT, t, src, p + 3, hist);
     BodyWithin(t, src, p + 3) && (b.Ok? && Peek(src, p, 1) != 1 ==> Within(src, b.p, b.hist)))
  }

  /** A stream that the RFC accepts is accepted by the program, with the same output, if
      and only if its dynamic blocks are within these limits. */
  lemma {:induction false} InflateStrict(src: seq<byte>, p: nat, hist: seq<byte>)
    requires |hist| >= WSIZE && RefInflate(STRICT, src, p, hist).Ok?
    ensures RefInflate(LENIENT, src, p, hist) == if Within(src, p, hist) then RefInflate(STRICT, src, p, hist) else Bad
    decreases 8 * |src| - p
  {
    hide RefBody, Peek, BodyWithin;
    BodyStrict(Peek(src, p + 1, 2), src, p + 3, hist);
    var b := RefBody(STRICT, Peek(src, p + 1, 2), src, p + 3, hist);
    if Peek(src, p, 1) != 1 {
      InflateStrict(src, b.p, b.hist);
    }
  }

  // ----- independence of the first contents of the ring -----

  lemma {:induction false} CopySeed(seed: seq<byte>, out: seq<byte>, dist: nat, n: nat)
    requires 1 <= dist <= |out|
    ensures Copy(seed + out, dist, n) == seed + Copy(out, dist, n)
    decreases n
  {
    if n > 0 {
      var b := out[|out| - dist];
      assert (seed + out)[|seed + out| - dist] == b;
      assert (seed + out) + [b] == seed + (out + [b]);
      CopySeed(seed, out + [b], dist, n - 1);
    }
  }

  /** Two outcomes that differ only in what came before the output. */
  ghost predicate SameOutput(a: Ref, b: Ref, seed: seq<byte>, seed': seq<byte>)
  {
    match a
    case Bad => b.Bad?
    case Astray => b.Astray?
    case Ok(p, h) => b.Ok? && b.p == p && |h| >= |seed| && h[..|seed|] == seed && b.hist == seed' + h[|seed|..]
  }

  lemma {:induction false} CodesSeed(ll: seq<nat>, dl: seq<nat>, src: seq<byte>, p: nat,
                                     seed: seq<byte>, seed': seq<byte>, out: seq<byte>)
    requires |seed| == |seed'| == WSIZE
    ensures SameOutput(RefCodes(ll, dl, STRICT, src, p, seed + out), RefCodes(ll, dl, STRICT, src, p, seed' + out),
                       seed, seed')
    decreases 8 * |src| - p
  {
    hide RefMatch, Copy, Matches;
    match DecodeSym(ll, src, p)
    case NoSym =>
    case UnsetSym =>
    case Sym(s) =>
      var p1 := p + ll[s];
      if s < 256 {
        assert (seed + out) + [s] == seed + (out + [s]) && (seed' + out) + [s] == seed' + (out + [s]);
        CodesSeed(ll, dl, src, p1, seed, seed', out + [s]);
      } else if s > 256 {
        var m := RefMatch(dl, src, p1, s);
        if m.Match? && m.dist <= |out| && !(s == 284 && m.n == 258) {
          CopySeed(seed, out, m.dist, m.n);
          CopySeed(seed', out, m.dist, m.n);
          CodesSeed(ll, dl, src, m.p, seed, seed', Copy(out, m.dist, m.n));
        }
      } else {
        assert (seed + out)[|seed|..] == out && (seed + out)[..|seed|] == seed;
      }
  }

  lemma BodySeed(t: nat, src: seq<byte>, p: nat, seed: seq<byte>, seed': seq<byte>, out: seq<byte>)
    requires |seed| == |seed'| == WSIZE
    ensures SameOutput(RefBody(STRICT, t, src, p, seed + out), RefBody(STRICT, t, src, p, seed' + out), seed, seed')
  {
    hide RefCodes, RefTrees, Peek;
    if t == 0 {
      var q := Align(p);
      if q + 32 <= 8 * |src| && q / 8 + 4 + Peek(src, q, 16) <= |src| {
        var more := src[q / 8 + 4..q / 8 + 4 + Peek(src, q, 16)];
        assert (seed + out) + more == seed + (out + more) && (seed' + out) + more == seed' + (out + more);
        assert (seed + (out + more))[|seed|..] == out + more;
        assert (seed + (out + more))[..|seed|] == seed;
      }
    } else if t == 1 {
      CodesSeed(FixedLit(), FixedDist(), src, p, seed, seed', out);
    } else if t == 2 {
      match RefTrees(true, src, p)
      case NoTrees =>
      case UnsetTrees =>
      case Trees(p1, ll, dl) => CodesSeed(ll, dl, src, p1, seed, seed', out);
    }
  }

  /** The output of a valid stream is a function of the stream alone. */
  lemma {:induction false} InflateSeed(src: seq<byte>, p: nat, seed: seq<byte>, seed': seq<byte>, out: seq<byte>)
    requires |seed| == |seed'| == WSIZE
    ensures SameOutput(RefInflate(STRICT, src, p, seed + out), RefInflate(STRICT, src, p, seed' + out), seed, seed')
    decreases 8 * |src| - p
  {
    hide RefBody, Peek;
    if p + 3 <= 8 * |src| {
      var t := Peek(src, p + 1, 2);
      BodySeed(t, src, p + 3, seed, seed', out);
      var b := RefBody(STRICT, t, src, p + 3, seed + out);
      if b.Ok? && Peek(src, p, 1) != 1 {
        var out' := b.hist[|seed|..];
        assert b.hist == seed + out';
        InflateSeed(src, b.p, seed, seed', out');
      }
    }
  }
}
