/** What a decoder makes of a stream depends only on the bits up to the end of the data:
    bytes after it change nothing, and without it there is no result. */
module DeflateReach {
  import opened Bits
  import opened CanonicalCode
  import opened BitStream
  import opened DeflateSpec

  lemma {:induction false} PeekSame(src: seq<byte>, rest: seq<byte>, p: nat, n: nat)
    requires p + n <= 8 * |src|
    ensures Peek(src + rest, p, n) == Peek(src, p, n)
    decreases n
  {
    if n > 0 {
      PeekSame(src, rest, p + 1, n - 1);
    }
  }

  // ----- symbols -----

  /** `m` codes of one length take what they take, and one more fits below `n`. */
  lemma OneMore(m: nat, n: nat, u: nat)
    requires m < n
    ensures m * u + u <= n * u
  {
    MulDist(m, 1, u);
    MulMono(u, m + 1, n);
  }

  /** Codes of one length start blocks that do not meet. */
  lemma EqualApart(lens: seq<nat>, g: nat, s: nat, t: nat)
    requires s < t < |lens| && 1 <= lens[s] == lens[t] <= g
    ensures Start(lens, g, s) + Pow2(g - lens[s]) <= Start(lens, g, t)
  {
    hide Pow2, Count, Kraft;
    OneAfter(lens, s, t);
    OneMore(Count(lens[..s], lens[s]), Count(lens[..t], lens[s]), Pow2(g - lens[s]));
  }

  /** So do a shorter code and a longer one. */
  lemma ShorterApart(lens: seq<nat>, g: nat, s: nat, t: nat)
    requires s < |lens| && t < |lens| && 1 <= lens[s] < lens[t] <= g
    ensures Start(lens, g, s) + Pow2(g - lens[s]) <= Start(lens, g, t)
  {
    hide Pow2, Count;
    CountBeforeBound(lens, s);
    OneMore(Count(lens[..s], lens[s]), Count(lens, lens[s]), Pow2(g - lens[s]));
    KraftMono(lens, g, lens[s], lens[t] - 1);
    assert Count(lens[..t], lens[t]) * Pow2(g - lens[t]) >= 0;
  }

  lemma OneAfter(lens: seq<nat>, s: nat, t: nat)
    requires s < t < |lens|
    ensures Count(lens[..s], lens[s]) + 1 <= Count(lens[..t], lens[s])
  {
    CountStep(lens, s, lens[s]);
    CountPrefix(lens, s + 1, t, lens[s]);
  }

  /** So the coming bits start with at most one code. */
  lemma MatchUnique(lens: seq<nat>, src: seq<byte>, p: nat, s: nat, t: nat)
    requires s < |lens| && t < |lens| && Matches(lens, src, p, s) && Matches(lens, src, p, t)
    ensures s == t
  {
    hide Pow2, Peek, Start;
    var g := if lens[s] < lens[t] then lens[t] else lens[s];
    MatchBlock(lens, src, p, g, s);
    MatchBlock(lens, src, p, g, t);
    if s != t {
      if lens[s] == lens[t] {
        EqualApart(lens, g, if s < t then s else t, if s < t then t else s);
      } else if lens[s] < lens[t] {
        ShorterApart(lens, g, s, t);
      } else {
        ShorterApart(lens, g, t, s);
      }
    }
  }

  lemma MatchBlock(lens: seq<nat>, src: seq<byte>, p: nat, g: nat, s: nat)
    requires s < |lens| && Matches(lens, src, p, s) && lens[s] <= g
    ensures Start(lens, g, s) <= Rev(g, Peek(src, p, g)) < Start(lens, g, s) + Pow2(g - lens[s])
  {
    hide Peek, Rev, Low, Pow2, Start, Code;
    var k := lens[s];
    PeekLow(src, p, g, k);
    RevLow(k, Peek(src, p, g), k);
    StartsWithBlock(lens, g, Peek(src, p, g), s);
  }

  lemma MatchSame(lens: seq<nat>, src: seq<byte>, rest: seq<byte>, p: nat, s: nat)
    requires s < |lens| && p + lens[s] <= 8 * |src|
    ensures Matches(lens, src + rest, p, s) <==> Matches(lens, src, p, s)
  {
    hide Peek;
    PeekSame(src, rest, p, lens[s]);
  }

  /** A symbol whose code is all in `src` is the same with anything after it. */
  lemma SymSame(lens: seq<nat>, src: seq<byte>, rest: seq<byte>, p: nat)
    ensures var a, b := DecodeSym(lens, src, p), DecodeSym(lens, src + rest, p);
            a.Sym? || (b.Sym? && p + lens[b.s] <= 8 * |src|) ==> a == b
  {
    hide Matches;
    var a, b := DecodeSym(lens, src, p), DecodeSym(lens, src + rest, p);
    if a.Sym? {
      InSource(lens, src, p, a.s);
      MatchSame(lens, src, rest, p, a.s);
      MatchUnique(lens, src + rest, p, a.s, b.s);
    } else if b.Sym? && p + lens[b.s] <= 8 * |src| {
      MatchSame(lens, src, rest, p, b.s);
    }
  }

  lemma InSource(lens: seq<nat>, src: seq<byte>, p: nat, s: nat)
    requires s < |lens| && Matches(lens, src, p, s)
    ensures lens[s] > 0 && p + lens[s] <= 8 * |src|
  {
  }

  // ----- matches and blocks -----

  lemma DistSame(dl: seq<nat>, src: seq<byte>, rest: seq<byte>, p: nat, n: nat)
    ensures var a, b := RefDist(dl, src, p, n), RefDist(dl, src + rest, p, n);
            a.Match? || (b.Match? && b.p <= 8 * |src|) ==> a == b
  {
    hide Peek, Matches, DecodeSym;
    SymSame(dl, src, rest, p);
    var a, b := RefDist(dl, src, p, n), RefDist(dl, src + rest, p, n);
    if a.Match? || (b.Match? && b.p <= 8 * |src|) {
      var d := DecodeSym(dl, src + rest, p).s;
      assert d < 30;
      if p + dl[d] + DIST_EXTRA[d] <= 8 * |src| {
        PeekSame(src, rest, p + dl[d], DIST_EXTRA[d]);
      }
    }
  }

  lemma MatchResSame(dl: seq<nat>, src: seq<byte>, rest: seq<byte>, p: nat, s: nat)
    requires s >= 257
    ensures var a, b := RefMatch(dl, src, p, s), RefMatch(dl, src + rest, p, s);
            a.Match? || (b.Match? && b.p <= 8 * |src|) ==> a == b
  {
    hide Peek, RefDist;
    if s < 286 && p + LEN_EXTRA[s - 257] <= 8 * |src| {
      PeekSame(src, rest, p, LEN_EXTRA[s - 257]);
      DistSame(dl, src, rest, p + LEN_EXTRA[s - 257], LEN_BASE[s - 257] + Peek(src, p, LEN_EXTRA[s - 257]));
    }
  }

  lemma {:induction false} CodesSame(ll: seq<nat>, dl: seq<nat>, mode: Mode, src: seq<byte>, rest: seq<byte>, p: nat, hist: seq<byte>)
    requires |hist| >= WSIZE
    ensures var a, b := RefCodes(ll, dl, mode, src, p, hist), RefCodes(ll, dl, mode, src + rest, p, hist);
            a.Ok? || (b.Ok? && b.p <= 8 * |src|) ==> a == b
    decreases 8 * |src + rest| - p
  {
    hide Matches, DecodeSym, RefMatch, Copy;
    var a, b := RefCodes(ll, dl, mode, src, p, hist), RefCodes(ll, dl, mode, src + rest, p, hist);
    if a.Ok? || (b.Ok? && b.p <= 8 * |src|) {
      SymSame(ll, src, rest, p);
      var s := DecodeSym(ll, src + rest, p).s;
      var p1 := p + ll[s];
      if s < 256 {
        CodesSame(ll, dl, mode, src, rest, p1, hist + [s]);
      } else if s > 256 {
        MatchResSame(dl, src, rest, p1, s);
        var m := RefMatch(dl, src + rest, p1, s);
        if m.Match? {
          CodesSame(ll, dl, mode, src, rest, m.p, Copy(hist, m.dist, m.n));
        }
      }
    }
  }

  lemma StoredSame(src: seq<byte>, rest: seq<byte>, p: nat, hist: seq<byte>)
    ensures var a, b := RefStored(src, p, hist), RefStored(src + rest, p, hist);
            a.Ok? || (b.Ok? && b.p <= 8 * |src|) ==> a == b
  {
    hide Peek;
    var q := Align(p);
    if q + 32 <= 8 * |src| {
      PeekSame(src, rest, q, 16);
      PeekSame(src, rest, q + 16, 16);
      var i, n := q / 8 + 4, Peek(src, q, 16);
      if i + n <= |src| {
        assert (src + rest)[i..i + n] == src[i..i + n];
      }
    }
  }

  // ----- dynamic codes -----

  lemma LenSymSame(strict: bool, src: seq<byte>, rest: seq<byte>, p: nat, s: nat, acc: seq<nat>)
    ensures var a, b := RefLenSym(strict, src, p, s, acc), RefLenSym(strict, src + rest, p, s, acc);
            a.Lens? || (b.Lens? && b.p <= 8 * |src|) ==> a == b
  {
    hide Peek;
    var n := if s < 16 then 0 else if s == 16 then 2 else if s == 17 then 3 else 7;
    if p + n <= 8 * |src| {
      PeekSame(src, rest, p, n);
    }
  }

  lemma {:induction false} LensSame(cl: seq<nat>, strict: bool, n: nat, src: seq<byte>, rest: seq<byte>, p: nat, acc: seq<nat>)
    ensures var a, b := RefLens(cl, strict, n, src, p, acc), RefLens(cl, strict, n, src + rest, p, acc);
            a.Lens? || (b.Lens? && b.p <= 8 * |src|) ==> a == b
    decreases n - |acc|
  {
    hide Matches, DecodeSym, RefLenSym;
    var a, b := RefLens(cl, strict, n, src, p, acc), RefLens(cl, strict, n, src + rest, p, acc);
    if |acc| < n && (a.Lens? || (b.Lens? && b.p <= 8 * |src|)) {
      SymSame(cl, src, rest, p);
      var s := DecodeSym(cl, src + rest, p).s;
      LenSymSame(strict, src, rest, p + cl[s], s, acc);
      var x := RefLenSym(strict, src + rest, p + cl[s], s, acc);
      if x.Lens? {
        LensSame(cl, strict, n, src, rest, x.p, x.lens);
      }
    }
  }

  lemma {:induction false} ClenSame(src: seq<byte>, rest: seq<byte>, p: nat, nb: nat, s: nat)
    requires nb <= 19 && p + 3 * nb <= 8 * |src|
    ensures ClenOf(src + rest, p, nb, s) == ClenOf(src, p, nb, s)
  {
    hide Peek;
    if nb > 0 {
      PeekSame(src, rest, p + 3 * (nb - 1), 3);
      ClenSame(src, rest, p, nb - 1, s);
    }
  }

  lemma ClensSame(src: seq<byte>, rest: seq<byte>, p: nat, nb: nat)
    requires nb <= 19 && p + 3 * nb <= 8 * |src|
    ensures RefClens(src + rest, p, nb) == RefClens(src, p, nb)
  {
    forall s | 0 <= s < 19
      ensures ClenOf(src + rest, p, nb, s) == ClenOf(src, p, nb, s)
    {
      ClenSame(src, rest, p, nb, s);
    }
  }

  lemma TreesSame(strict: bool, src: seq<byte>, rest: seq<byte>, p: nat)
    ensures var a, b := RefTrees(strict, src, p), RefTrees(strict, src + rest, p);
            a.Trees? || (b.Trees? && b.p <= 8 * |src|) ==> a == b
  {
    hide Peek, RefLens, RefClens, UsableSet, PrefixSet;
    if p + 14 <= 8 * |src| {
      PeekSame(src, rest, p, 5);
      PeekSame(src, rest, p + 5, 5);
      PeekSame(src, rest, p + 10, 4);
      var nl, nd, nb := 257 + Peek(src, p, 5), 1 + Peek(src, p + 5, 5), 4 + Peek(src, p + 10, 4);
      PeekBound(src, p + 10, 4);
      Pow2Small(4);
      if p + 14 + 3 * nb <= 8 * |src| {
        ClensSame(src, rest, p + 14, nb);
        LensSame(RefClens(src, p + 14, nb), strict, nl + nd, src, rest, p + 14 + 3 * nb, []);
      }
    }
  }

  // ----- the stream -----

  lemma BodySame(mode: Mode, t: nat, src: seq<byte>, rest: seq<byte>, p: nat, hist: seq<byte>)
    requires |hist| >= WSIZE
    ensures var a, b := RefBody(mode, t, src, p, hist), RefBody(mode, t, src + rest, p, hist);
            a.Ok? || (b.Ok? && b.p <= 8 * |src|) ==> a == b
  {
    hide RefCodes, RefTrees, RefStored, FixedLit, FixedDist;
    if t == 0 {
      StoredSame(src, rest, p, hist);
    } else if t == 1 {
      CodesSame(FixedLit(), FixedDist(), mode, src, rest, p, hist);
    } else if t == 2 {
      TreesSame(mode.strict, src, rest, p);
      var x := RefTrees(mode.strict, src + rest, p);
      if x.Trees? {
        CodesSame(x.ll, x.dl, mode, src, rest, x.p, hist);
      }
    }
  }

  /** A stream that decodes decodes with anything after it, with the same result; and
      where the data of a longer one ends in `src`, it is the result of `src`. */
  lemma {:induction false} InflateSame(mode: Mode, src: seq<byte>, rest: seq<byte>, p: nat, hist: seq<byte>)
    requires |hist| >= WSIZE
    ensures var a, b := RefInflate(mode, src, p, hist), RefInflate(mode, src + rest, p, hist);
            a.Ok? || (b.Ok? && b.p <= 8 * |src|) ==> a == b
    decreases 8 * |src + rest| - p
  {
    hide RefBody, Peek;
    var a, b := RefInflate(mode, src, p, hist), RefInflate(mode, src + rest, p, hist);
    if a.Ok? || (b.Ok? && b.p <= 8 * |src|) {
      assert p + 3 <= 8 * |src|;
      PeekSame(src, rest, p, 1);
      PeekSame(src, rest, p + 1, 2);
      var t := Peek(src, p + 1, 2);
      BodySame(mode, t, src, rest, p + 3, hist);
      var x := RefBody(mode, t, src + rest, p + 3, hist);
      if x.Ok? && Peek(src, p, 1) != 1 {
        InflateSame(mode, src, rest, x.p, x.hist);
      }
    }
  }
}
