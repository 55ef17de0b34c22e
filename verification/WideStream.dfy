/** A stream that RFC 1951 allows and the program refuses: its one block has 31 distance
    codes, none of them used (zip/inflate.c:603-608). */
module WideStream {
  import opened Bits
  import opened BitStream
  import opened CanonicalCode
  import opened DeflateSpec
  import Inflate

  /** Two codes of one bit, for the symbols `a` and `b`. */
  ghost predicate Pair(lens: seq<nat>, a: nat, b: nat)
  {
    && a < b < |lens| && lens[a] == lens[b] == 1
    && forall s :: 0 <= s < |lens| && s != a && s != b ==> lens[s] == 0
  }

  lemma {:induction false} PairCount(lens: seq<nat>, a: nat, b: nat, n: nat)
    requires Pair(lens, a, b) && n <= |lens|
    ensures Count(lens[..n], 1) == (if a < n then 1 else 0) + (if b < n then 1 else 0)
  {
    if n > 0 {
      PairCount(lens, a, b, n - 1);
      CountStep(lens, n - 1, 1);
    }
  }

  /** The bit selects the symbol. */
  lemma PairDecodes(lens: seq<nat>, a: nat, b: nat, src: seq<byte>, p: nat)
    requires Pair(lens, a, b) && p < 8 * |src|
    ensures DecodeSym(lens, src, p) == Sym(if StreamBit(src, p) == 0 then a else b)
  {
    hide StreamBit, Count;
    var v := Peek(src, p, 1);
    assert FirstCode(lens, 1) == 0;
    assert Rev(0, v) == 0;
    assert Rev(1, v) == Bit(v, 0) == StreamBit(src, p);
    PairCount(lens, a, b, a);
    PairCount(lens, a, b, b);
    var s := if StreamBit(src, p) == 0 then a else b;
    assert Matches(lens, src, p, s);
  }

  lemma PairAdmitted(lens: seq<nat>, a: nat, b: nat)
    requires Pair(lens, a, b)
    ensures PrefixSet(lens)
  {
    hide Count;
    PairCount(lens, a, b, |lens|);
    assert lens[..|lens|] == lens;
    assert Longest(lens) == 1;
    assert Pow2(0) == 1 && Pow2(1) == 2;
    assert Kraft(lens, 1, 0) == 0;
    assert Kraft(lens, 1, 1) == Count(lens, 1) * Pow2(0);
  }

  lemma NothingAdmitted(lens: seq<nat>)
    requires NoCodes(lens)
    ensures PrefixSet(lens)
  {
  }

  /** One last block: no literals but the end-of-block code, and 31 distance codes. */
  const WIDE: seq<byte> := [5, 222, 129, 0, 0, 0, 0, 0, 144, 255, 106, 82, 2]

  lemma WideHead()
    ensures Peek(WIDE, 0, 1) == 1 && Peek(WIDE, 1, 2) == 2 && Peek(WIDE, 3, 5) == 0
  {
  }

  lemma WideCounts()
    ensures Peek(WIDE, 8, 5) == 30
  {
  }

  lemma WideCodes()
    ensures Peek(WIDE, 13, 4) == 14
  {
    assert StreamBit(WIDE, 13) == 0 && StreamBit(WIDE, 14) == 1 && StreamBit(WIDE, 15) == 1;
    assert StreamBit(WIDE, 16) == 1;
  }

  lemma {:induction false} NoBit(k: nat)
    ensures Bit(0, k) == 0
  {
    if k > 0 {
      NoBit(k - 1);
    }
  }

  /** The bits of the lengths of the code length code. */
  lemma WideBit(p: nat)
    requires 17 <= p < 71
    ensures StreamBit(WIDE, p) == if p == 23 || p == 68 then 1 else 0
  {
    if 24 <= p < 64 {
      NoBit(p % 8);
    } else if p < 24 {
      assert Bit(129, 1) == 0 && Bit(129, 2) == 0 && Bit(129, 3) == 0;
      assert Bit(129, 4) == 0 && Bit(129, 5) == 0 && Bit(129, 6) == 0 && Bit(129, 7) == 1;
    } else {
      assert Bit(144, 0) == 0 && Bit(144, 1) == 0 && Bit(144, 2) == 0 && Bit(144, 3) == 0;
      assert Bit(144, 4) == 1 && Bit(144, 5) == 0 && Bit(144, 6) == 0;
    }
  }

  lemma PeekThree(src: seq<byte>, p: nat)
    ensures Peek(src, p, 3) == StreamBit(src, p) + 2 * StreamBit(src, p + 1) + 4 * StreamBit(src, p + 2)
  {
    hide StreamBit;
    assert Peek(src, p + 3, 0) == 0;
    assert Peek(src, p + 2, 1) == StreamBit(src, p + 2);
  }

  lemma WideClen(i: nat)
    requires i < 18
    ensures Peek(WIDE, 17 + 3 * i, 3) == if i == 2 || i == 17 then 1 else 0
  {
    hide StreamBit, Peek;
    PeekThree(WIDE, 17 + 3 * i);
    WideBit(17 + 3 * i);
    WideBit(18 + 3 * i);
    WideBit(19 + 3 * i);
  }

  /** Code lengths 1 and, eighteen-fold, zero are the ones used. */
  function Clens(): (r: seq<nat>)
    ensures |r| == 19 && Pair(r, 1, 18)
  {
    seq(19, s requires 0 <= s < 19 => if s == 1 || s == 18 then 1 else 0)
  }

  lemma WideClens()
    ensures RefClens(WIDE, 17, 18) == Clens()
  {
    hide Peek;
    forall i | 0 <= i < 19
      ensures Clens()[Order(i)] == if i < 18 then Peek(WIDE, 17 + 3 * i, 3) else 0
    {
      if i < 18 {
        WideClen(i);
      }
      assert Order(i) == 1 <==> i == 17;
      assert Order(i) == 18 <==> i == 2;
    }
    Inflate.ClensAre(WIDE, 17, 18, Clens());
  }

  lemma WideTail()
    ensures StreamBit(WIDE, 71) == 1 && StreamBit(WIDE, 79) == 1 && StreamBit(WIDE, 87) == 0
    ensures StreamBit(WIDE, 88) == 0 && StreamBit(WIDE, 89) == 1 && StreamBit(WIDE, 97) == 1
  {
    assert Bit(144, 7) == 1 && Bit(255, 7) == 1;
    assert Bit(106, 7) == 0 && Bit(82, 0) == 0 && Bit(82, 1) == 1 && Bit(2, 1) == 1;
  }

  lemma LowSeven()
    ensures Low(255, 7) == 127 && Low(106, 7) == 106
  {
    assert Pow2(7) == 128;
    LowSmall(106, 7);
    LowJoin(127, 1, 7);
  }

  lemma WideRuns()
    ensures Peek(WIDE, 72, 7) == 127 && Peek(WIDE, 80, 7) == 106
  {
    hide Peek, Low;
    PeekByte(WIDE, 9);
    PeekByte(WIDE, 10);
    PeekLow(WIDE, 72, 8, 7);
    PeekLow(WIDE, 80, 8, 7);
    LowSeven();
  }

  lemma WideLast()
    ensures Peek(WIDE, 90, 7) == 20
  {
    PeekInByte(WIDE, 11, 2);
    PeekJoin(WIDE, 90, 6, 1);
    assert Shr(82, 2) == 20;
    assert Pow2(6) == 64;
    assert Bit(2, 0) == 0;
    assert Peek(WIDE, 96, 0 + 1) == StreamBit(WIDE, 96);
  }

  /** The code lengths: 255 zeros, two ones, 31 zeros. */
  function Lens(n: nat): (r: seq<nat>)
    ensures |r| == n && forall i :: 0 <= i < n ==> r[i] == if i == 255 || i == 256 then 1 else 0
  {
    seq(n, i requires 0 <= i < n => if i == 255 || i == 256 then 1 else 0)
  }

  /** Reading `18` at bit `p`. */
  lemma Zeros(n: nat, p: nat, k: nat)
    requires n < 288 && p + 8 <= 8 * |WIDE| && StreamBit(WIDE, p) == 1 && 11 + Peek(WIDE, p + 1, 7) == k
    requires n + k <= 255 || n >= 257
    ensures RefLens(Clens(), true, 288, WIDE, p, Lens(n)) == RefLens(Clens(), true, 288, WIDE, p + 8, Lens(n + k))
  {
    hide Peek, StreamBit, Clens, DecodeSym;
    PairDecodes(Clens(), 1, 18, WIDE, p);
    assert Lens(n) + Repeat(0, k) == Lens(n + k);
  }

  /** Reading `1`. */
  lemma One(n: nat, p: nat)
    requires 255 <= n <= 256 && p < 8 * |WIDE| && StreamBit(WIDE, p) == 0
    ensures RefLens(Clens(), true, 288, WIDE, p, Lens(n)) == RefLens(Clens(), true, 288, WIDE, p + 1, Lens(n + 1))
  {
    hide Peek, StreamBit, Clens, DecodeSym;
    PairDecodes(Clens(), 1, 18, WIDE, p);
    assert Lens(n) + [1] == Lens(n + 1);
  }

  lemma WideLens()
    ensures RefLens(Clens(), true, 288, WIDE, 71, []) == LensRes.Lens(97, Lens(288))
  {
    hide Peek, StreamBit, Clens, RefLens;
    WideTail();
    WideRuns();
    WideLast();
    assert Lens(0) == [];
    Zeros(0, 71, 138);
    Zeros(138, 79, 117);
    One(255, 87);
    One(256, 88);
    Zeros(257, 89, 31);
    LensDone();
  }

  lemma LensDone()
    ensures RefLens(Clens(), true, 288, WIDE, 97, Lens(288)) == LensRes.Lens(97, Lens(288))
  {
  }

  lemma WideTrees()
    ensures RefTrees(true, WIDE, 3) == Trees.Trees(97, Lens(288)[..257], Lens(288)[257..])
    ensures RefTrees(false, WIDE, 3) == NoTrees
  {
    hide Peek, RefLens, RefClens, PrefixSet, UsableSet, Lens, Clens;
    WideHead();
    WideCounts();
    WideCodes();
    WideClens();
    WideLens();
    WideSets();
  }

  lemma WideSets()
    ensures PrefixSet(Clens()) && PrefixSet(Lens(288)[..257]) && PrefixSet(Lens(288)[257..])
    ensures Pair(Lens(288)[..257], 255, 256)
  {
    hide PrefixSet;
    PairAdmitted(Clens(), 1, 18);
    PairAdmitted(Lens(288)[..257], 255, 256);
    NothingAdmitted(Lens(288)[257..]);
  }

  /** The RFC gives the stream a meaning, which is no output; the program refuses it. */
  lemma WideRefused(hist: seq<byte>)
    requires |hist| >= WSIZE
    ensures RefInflate(STRICT, WIDE, 0, hist) == Ok(98, hist) && RefInflate(LENIENT, WIDE, 0, hist) == Bad
  {
    hide RefTrees, Peek, Lens, StreamBit, DecodeSym, RefMatch, Matches;
    WideHead();
    WideTrees();
    WideSets();
    WideTail();
    PairDecodes(Lens(288)[..257], 255, 256, WIDE, 97);
  }
}
