/** A reference decoder for sections 3.2.3 to 3.2.7 of RFC 1951: bit positions in
    the whole input, canonical codes, and an unbounded output history. */
module DeflateSpec {
  import opened Bits
  import opened CanonicalCode
  import opened BitStream

  /** Match lengths and distances (section 3.2.5). */
  const LEN_BASE: seq<nat> := [3, 4, 5, 6, 7, 8, 9, 10, 11, 13, 15, 17, 19, 23, 27, 31,
                               35, 43, 51, 59, 67, 83, 99, 115, 131, 163, 195, 227, 258]
  const LEN_EXTRA: seq<nat> := [0, 0, 0, 0, 0, 0, 0, 0, 1, 1, 1, 1, 2, 2, 2, 2,
                                3, 3, 3, 3, 4, 4, 4, 4, 5, 5, 5, 5, 0]
  const DIST_BASE: seq<nat> := [1, 2, 3, 4, 5, 7, 9, 13, 17, 25, 33, 49, 65, 97, 129, 193,
                                257, 385, 513, 769, 1025, 1537, 2049, 3073, 4097, 6145,
                                8193, 12289, 16385, 24577]
  const DIST_EXTRA: seq<nat> := [0, 0, 0, 0, 1, 1, 2, 2, 3, 3, 4, 4, 5, 5, 6, 6,
                                 7, 7, 8, 8, 9, 9, 10, 10, 11, 11, 12, 12, 13, 13]

  /** Order of the code length code lengths (section 3.2.7). */
  const ORDER: seq<nat> := [16, 17, 18, 0, 8, 7, 9, 6, 10, 5, 11, 4, 12, 3, 13, 2, 14, 1, 15]

  function Order(i: nat): (r: nat)
    requires i < 19
    ensures r < 19
  {
    ORDER[i]
  }

  /** What is checked.  With `strict` on it is what the RFC asks for: a match reaches
      back no further than the bytes produced so far (`floor` says where in the history
      those start), code 284 with extra bits 31 is no length, the first code length is
      no repetition, there may be up to 32 distance codes, and the code lengths need
      not use up the code space.  With `strict` off it is what the program asks for:
      the first three are let through, but there may be at most 30 distance codes, and
      a set that leaves code space over is refused, except a lone code of one bit. */
  datatype Mode = Mode(strict: bool, floor: nat)

  /** The ring holds this many bytes, and they come before the output in every history. */
  const WSIZE: nat := 32768
  const STRICT: Mode := Mode(true, WSIZE)
  const LENIENT: Mode := Mode(false, 0)

  // ----- symbols -----

  /** `UnsetSym` is no symbol either, but where the program does not notice: it follows
      a pointer or an element that was never set. */
  datatype Sym = NoSym | UnsetSym | Sym(s: nat)

  predicate NoCodes(lens: seq<nat>)
  {
    forall s :: 0 <= s < |lens| ==> lens[s] == 0
  }

  /** One code, of one bit, among several symbols. */
  predicate LoneBit(lens: seq<nat>)
  {
    |lens| > 1 && Count(lens, 1) == 1 && Count(lens, 0) == |lens| - 1
  }

  predicate Matches(lens: seq<nat>, src: seq<byte>, p: nat, s: nat)
    requires s < |lens|
  {
    lens[s] > 0 && p + lens[s] <= 8 * |src| && StartsWith(lens, Peek(src, p, lens[s]), s)
  }

  function FindSym(lens: seq<nat>, src: seq<byte>, p: nat, s: nat): (r: Sym)
    requires s <= |lens|
    ensures r.Sym? ==> s <= r.s < |lens| && Matches(lens, src, p, r.s)
    ensures !r.Sym? ==> forall t :: s <= t < |lens| ==> !Matches(lens, src, p, t)
    ensures !r.UnsetSym?
    decreases |lens| - s
  {
    if s == |lens| then NoSym
    else if Matches(lens, src, p, s) then Sym(s)
    else FindSym(lens, src, p, s + 1)
  }

  /** The symbol whose code comes next. */
  function DecodeSym(lens: seq<nat>, src: seq<byte>, p: nat): (r: Sym)
    ensures r.Sym? ==> r.s < |lens| && Matches(lens, src, p, r.s)
    ensures r.Sym? ==> lens[r.s] > 0 && p + lens[r.s] <= 8 * |src|
    ensures !r.Sym? ==> forall t :: 0 <= t < |lens| ==> !Matches(lens, src, p, t)
    ensures !r.Sym? ==> (r.UnsetSym? <==> NoCodes(lens) || (LoneBit(lens) && StreamBit(src, p) == 1))
  {
    var r := FindSym(lens, src, p, 0);
    if !r.Sym? && (NoCodes(lens) || (LoneBit(lens) && StreamBit(src, p) == 1)) then UnsetSym else r
  }

  /** The sets of code lengths that can be used: not oversubscribed, and either
      complete or of one-bit codes only, or without codes at all. */
  predicate Usable(lens: seq<nat>, g: nat)
  {
    Kraft(lens, g, g) <= Pow2(g) && (Kraft(lens, g, g) == Pow2(g) || g <= 1)
  }

  function Longest(lens: seq<nat>): (g: nat)
    ensures forall s :: 0 <= s < |lens| ==> lens[s] <= g
    ensures g > 0 ==> exists s :: 0 <= s < |lens| && lens[s] == g
  {
    if |lens| == 0 then 0
    else
      var g := Longest(lens[..|lens| - 1]);
      if lens[|lens| - 1] > g then lens[|lens| - 1] else g
  }

  predicate UsableSet(lens: seq<nat>)
  {
    Usable(lens, Longest(lens))
  }

  /** The code lengths of a prefix code. */
  predicate PrefixSet(lens: seq<nat>)
  {
    Kraft(lens, Longest(lens), Longest(lens)) <= Pow2(Longest(lens))
  }

  predicate Admitted(strict: bool, lens: seq<nat>)
  {
    if strict then PrefixSet(lens) else UsableSet(lens)
  }

  // ----- matches -----

  /** Appending `n` bytes, each the one `dist` places back. */
  function Copy(hist: seq<byte>, dist: nat, n: nat): (r: seq<byte>)
    requires 1 <= dist <= |hist|
    ensures |r| == |hist| + n
    ensures n == 0 ==> r == hist
    decreases n
  {
    if n == 0 then hist else Copy(hist + [hist[|hist| - dist]], dist, n - 1)
  }

  datatype MatchRes = NoMatch | UnsetMatch | Match(p: nat, n: nat, dist: nat)

  /** The powers of two that bound the extra fields. */
  function POW(): (r: seq<nat>)
    ensures |r| == 14
  {
    [1, 2, 4, 8, 16, 32, 64, 128, 256, 512, 1024, 2048, 4096, 8192]
  }

  lemma Pow2Small(e: nat)
    requires e <= 13
    ensures Pow2(e) == POW()[e]
  {
    assert Pow2(2) == 4;
    assert Pow2(5) == 32;
    assert Pow2(8) == 256;
    assert Pow2(11) == 2048;
    assert Pow2(13) == 8192;
  }

  lemma LengthRange(i: nat, x: nat)
    requires i < 29
    ensures LEN_EXTRA[i] <= 5
    ensures x < Pow2(LEN_EXTRA[i]) ==> 3 <= LEN_BASE[i] + x <= 258
  {
    hide Pow2;
    assert LEN_EXTRA[i] <= 5;
    Pow2Small(LEN_EXTRA[i]);
    assert 3 <= LEN_BASE[i] && LEN_BASE[i] + POW()[LEN_EXTRA[i]] <= 259;
  }

  lemma DistanceRange(i: nat, x: nat)
    requires i < 30
    ensures DIST_EXTRA[i] <= 13
    ensures x < Pow2(DIST_EXTRA[i]) ==> 1 <= DIST_BASE[i] + x <= 32768
  {
    hide Pow2;
    assert DIST_EXTRA[i] <= 13;
    Pow2Small(DIST_EXTRA[i]);
    assert 1 <= DIST_BASE[i] && DIST_BASE[i] + POW()[DIST_EXTRA[i]] <= 32769;
  }

  /** The distance that follows a length. */
  function RefDist(dl: seq<nat>, src: seq<byte>, p: nat, n: nat): (r: MatchRes)
    ensures r.Match? ==> p < r.p <= 8 * |src| && 1 <= r.dist <= 32768 && r.n == n
  {
    match DecodeSym(dl, src, p)
    case NoSym => NoMatch
    case UnsetSym => UnsetMatch
    case Sym(d) =>
      if d >= 30 then NoMatch
      else
        var e := DIST_EXTRA[d];
        var p1 := p + dl[d];
        if p1 + e > 8 * |src| then NoMatch
        else
          PeekBound(src, p1, e);
          DistanceRange(d, Peek(src, p1, e));
          Match(p1 + e, n, DIST_BASE[d] + Peek(src, p1, e))
  }

  /** The length and distance that follow length symbol `s`. */
  function RefMatch(dl: seq<nat>, src: seq<byte>, p: nat, s: nat): (r: MatchRes)
    requires s >= 257
    ensures r.Match? ==> p < r.p <= 8 * |src| && 1 <= r.dist <= 32768 && 3 <= r.n <= 258
    ensures s >= 286 ==> r.NoMatch?
  {
    if s >= 286 then NoMatch
    else
      var e := LEN_EXTRA[s - 257];
      if p + e > 8 * |src| then NoMatch
      else
        PeekBound(src, p, e);
        LengthRange(s - 257, Peek(src, p, e));
        RefDist(dl, src, p + e, LEN_BASE[s - 257] + Peek(src, p, e))
  }

  // ----- blocks -----

  /** `Astray` is no valid data either, but where the program uses what was never set. */
  datatype Ref = Bad | Astray | Ok(p: nat, hist: seq<byte>)

  /** The data of a compressed block, up to the end-of-block symbol. */
  function RefCodes(ll: seq<nat>, dl: seq<nat>, mode: Mode, src: seq<byte>, p: nat, hist: seq<byte>): (r: Ref)
    requires |hist| >= WSIZE
    ensures r.Ok? ==> p < r.p <= 8 * |src| && |hist| <= |r.hist|
    decreases 8 * |src| - p
  {
    match DecodeSym(ll, src, p)
    case NoSym => Bad
    case UnsetSym => Astray
    case Sym(s) =>
      var p1 := p + ll[s];
      if s < 256 then RefCodes(ll, dl, mode, src, p1, hist + [s])
      else if s == 256 then Ok(p1, hist)
      else
        match RefMatch(dl, src, p1, s)
        case NoMatch => Bad
        case UnsetMatch => Astray
        case Match(p2, n, dist) =>
          if mode.strict && (dist + mode.floor > |hist| || (s == 284 && n == 258)) then Bad
          else RefCodes(ll, dl, mode, src, p2, Copy(hist, dist, n))
  }

  function Align(p: nat): (r: nat)
    ensures p <= r < p + 8 && r % 8 == 0
  {
    (p + 7) / 8 * 8
  }

  /** Section 3.2.4. */
  function RefStored(src: seq<byte>, p: nat, hist: seq<byte>): (r: Ref)
    ensures r.Ok? ==> p < r.p <= 8 * |src| && |hist| <= |r.hist|
  {
    var q := Align(p);
    if q + 32 > 8 * |src| then Bad
    else
      var n := Peek(src, q, 16);
      if n + Peek(src, q + 16, 16) != 65535 then Bad
      else
        var i := q / 8 + 4;
        if i + n > |src| then Bad
        else Ok(8 * (i + n), hist + src[i..i + n])
  }

  /** Section 3.2.6. */
  function FixedLit(): (r: seq<nat>)
    ensures |r| == 288
  {
    seq(288, i requires 0 <= i < 288 => if i < 144 then 8 else if i < 256 then 9 else if i < 280 then 7 else 8)
  }

  function FixedDist(): (r: seq<nat>)
    ensures |r| == 30
  {
    seq(30, _ => 5)
  }

  // ----- dynamic codes (section 3.2.7) -----

  datatype LensRes = NoLens | UnsetLens | Lens(p: nat, lens: seq<nat>)

  function Repeat(x: nat, n: nat): (r: seq<nat>)
    ensures |r| == n && forall i :: 0 <= i < n ==> r[i] == x
  {
    seq(n, _ => x)
  }

  /** One code length symbol: what it appends, or nothing if it is not valid. */
  function RefLenSym(strict: bool, src: seq<byte>, p: nat, s: nat, acc: seq<nat>): (r: LensRes)
    ensures r.Lens? ==> p <= r.p <= 8 * |src| || p == r.p
    ensures r.Lens? ==> |acc| < |r.lens| && acc <= r.lens
    ensures !r.UnsetLens?
  {
    if s < 16 then Lens(p, acc + [s])
    else if s == 16 then
      if p + 2 > 8 * |src| || (strict && acc == []) then NoLens
      else Lens(p + 2, acc + Repeat(if acc == [] then 0 else acc[|acc| - 1], 3 + Peek(src, p, 2)))
    else if s == 17 then
      if p + 3 > 8 * |src| then NoLens else Lens(p + 3, acc + Repeat(0, 3 + Peek(src, p, 3)))
    else
      if p + 7 > 8 * |src| then NoLens else Lens(p + 7, acc + Repeat(0, 11 + Peek(src, p, 7)))
  }

  /** Code lengths until there are exactly `n`. */
  function RefLens(cl: seq<nat>, strict: bool, n: nat, src: seq<byte>, p: nat, acc: seq<nat>): (r: LensRes)
    ensures r.Lens? ==> p <= r.p && (|acc| < n ==> r.p <= 8 * |src|)
    ensures r.Lens? ==> |r.lens| == n && acc <= r.lens
    decreases n - |acc|
  {
    if |acc| > n then NoLens
    else if |acc| == n then Lens(p, acc)
    else
      match DecodeSym(cl, src, p)
      case NoSym => NoLens
      case UnsetSym => UnsetLens
      case Sym(s) =>
        match RefLenSym(strict, src, p + cl[s], s, acc)
        case NoLens => NoLens
        case UnsetLens => UnsetLens
        case Lens(p1, acc1) => RefLens(cl, strict, n, src, p1, acc1)
  }

  /** The code length code: three bits each, in the fixed order, zero where absent. */
  function RefClens(src: seq<byte>, p: nat, nb: nat): (r: seq<nat>)
    requires nb <= 19
    ensures |r| == 19
  {
    seq(19, s requires 0 <= s < 19 => ClenOf(src, p, nb, s))
  }

  function ClenOf(src: seq<byte>, p: nat, nb: nat, s: nat): (r: nat)
    requires nb <= 19
  {
    if nb == 0 then 0
    else if Order(nb - 1) == s then Peek(src, p + 3 * (nb - 1), 3)
    else ClenOf(src, p, nb - 1, s)
  }

  datatype Trees = NoTrees | UnsetTrees | Trees(p: nat, ll: seq<nat>, dl: seq<nat>)

  function RefTrees(strict: bool, src: seq<byte>, p: nat): (r: Trees)
    ensures r.Trees? ==> p < r.p <= 8 * |src| && 257 <= |r.ll| <= 286 && 1 <= |r.dl| <= 32
    ensures r.Trees? && !strict ==> |r.dl| <= 30
  {
    if p + 14 > 8 * |src| then NoTrees
    else
      PeekBound(src, p, 5);
      PeekBound(src, p + 5, 5);
      PeekBound(src, p + 10, 4);
      Pow2Small(5);
      Pow2Small(4);
      var nl, nd, nb := 257 + Peek(src, p, 5), 1 + Peek(src, p + 5, 5), 4 + Peek(src, p + 10, 4);
      if nl > 286 || (!strict && nd > 30) || p + 14 + 3 * nb > 8 * |src| then NoTrees
      else
        var cl := RefClens(src, p + 14, nb);
        if !Admitted(strict, cl) then NoTrees
        else
          match RefLens(cl, strict, nl + nd, src, p + 14 + 3 * nb, [])
          case NoLens => NoTrees
          case UnsetLens => UnsetTrees
          case Lens(p1, lens) =>
            if Admitted(strict, lens[..nl]) && Admitted(strict, lens[nl..]) then Trees(p1, lens[..nl], lens[nl..])
            else NoTrees
  }

  /** One block after its three header bits. */
  function RefBody(mode: Mode, t: nat, src: seq<byte>, p: nat, hist: seq<byte>): (r: Ref)
    requires |hist| >= WSIZE
    ensures r.Ok? ==> p < r.p <= 8 * |src| && |hist| <= |r.hist|
  {
    if t == 0 then RefStored(src, p, hist)
    else if t == 1 then RefCodes(FixedLit(), FixedDist(), mode, src, p, hist)
    else if t == 2 then
      match RefTrees(mode.strict, src, p)
      case NoTrees => Bad
      case UnsetTrees => Astray
      case Trees(p1, ll, dl) => RefCodes(ll, dl, mode, src, p1, hist)
    else Bad
  }

  /** Blocks until the last one. */
  function RefInflate(mode: Mode, src: seq<byte>, p: nat, hist: seq<byte>): (r: Ref)
    requires |hist| >= WSIZE
    ensures r.Ok? ==> p < r.p <= 8 * |src| && |hist| <= |r.hist|
    decreases 8 * |src| - p
  {
    if p + 3 > 8 * |src| then Bad
    else
      match RefBody(mode, Peek(src, p + 1, 2), src, p + 3, hist)
      case Bad => Bad
      case Astray => Astray
      case Ok(p1, hist1) =>
        if Peek(src, p, 1) == 1 then Ok(p1, hist1) else RefInflate(mode, src, p1, hist1)
  }

  // ----- lone codes -----

  /** One of the three sets of a dynamic block that the program takes is a lone code. */
  function LoneTrees(src: seq<byte>, p: nat): (r: bool)
  {
    var x := RefTrees(false, src, p);
    PeekBound(src, p + 10, 4);
    Pow2Small(4);
    x.Trees? && (LoneBit(RefClens(src, p + 14, 4 + Peek(src, p + 10, 4))) || LoneBit(x.ll) || LoneBit(x.dl))
  }

  /** Some dynamic block of the stream has one. */
  function LoneBlocks(src: seq<byte>, p: nat, hist: seq<byte>): (r: bool)
    requires |hist| >= WSIZE
    decreases 8 * |src| - p
  {
    if p + 3 > 8 * |src| then false
    else
      var t := Peek(src, p + 1, 2);
      (t == 2 && LoneTrees(src, p + 3)) ||
      (match RefBody(LENIENT, t, src, p + 3, hist)
       case Bad => false
       case Astray => false
       case Ok(p1, hist1) => Peek(src, p, 1) != 1 && LoneBlocks(src, p1, hist1))
  }
}
