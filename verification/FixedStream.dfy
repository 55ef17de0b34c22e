/** A stream with fixed codes: a literal and a match of eight bytes, one back. */
module FixedStream {
  import opened Bits
  import opened BitStream
  import opened CanonicalCode
  import opened DeflateSpec
  import opened DeflateReach
  import opened DeflateTables

  const NINE: seq<byte> := [0x4b, 0x84, 0x01, 0x00]

  /** The bits, in the order of the stream. */
  const BITS: seq<nat> := [1, 1, 0, 1, 0, 0, 1, 0, 0, 0, 1, 0, 0, 0, 0, 1, 1, 0, 0, 0, 0, 0, 0, 0, 0, 0, 0, 0, 0, 0, 0, 0]

  lemma NineBits(p: nat)
    requires p < 32
    ensures StreamBit(NINE, p) == BITS[p]
  {
    hide Bit;
    var k := p % 8;
    if p < 8 {
      FirstByte(k);
    } else if p < 16 {
      SecondByte(k);
    } else {
      SmallBits(k);
    }
  }

  lemma FirstByte(k: nat)
    requires k < 8
    ensures Bit(0x4b, k) == BITS[k]
  {
    assert Bit(0x4b, 0) == 1 && Bit(0x4b, 1) == 1 && Bit(0x4b, 2) == 0 && Bit(0x4b, 3) == 1;
    assert Bit(0x4b, 4) == 0 && Bit(0x4b, 5) == 0 && Bit(0x4b, 6) == 1 && Bit(0x4b, 7) == 0;
  }

  lemma SecondByte(k: nat)
    requires k < 8
    ensures Bit(0x84, k) == BITS[8 + k]
  {
    assert Bit(0x84, 0) == 0 && Bit(0x84, 1) == 0 && Bit(0x84, 2) == 1 && Bit(0x84, 3) == 0;
    assert Bit(0x84, 4) == 0 && Bit(0x84, 5) == 0 && Bit(0x84, 6) == 0 && Bit(0x84, 7) == 1;
  }

  lemma SmallBits(k: nat)
    requires k < 8
    ensures Bit(0, k) == 0 && Bit(1, k) == if k == 0 then 1 else 0
  {
    assert Bit(0, 0) == 0 && Bit(1, 0) == 1;
    if k > 0 {
      assert Pow2(0) == 1 && Pow2(1) == 2;
      BitOfSmall(0, k);
      Pow2Mono(1, k);
      BitOfSmall(1, k);
    }
  }

  /** Bits of the stream as a code, the first one most significant. */
  function CodeAt(src: seq<byte>, p: nat, n: nat): (r: nat)
  {
    if n == 0 then 0 else 2 * CodeAt(src, p, n - 1) + StreamBit(src, p + n - 1)
  }

  lemma {:induction false} CodeAtIs(src: seq<byte>, p: nat, n: nat, m: nat)
    requires n <= m
    ensures Rev(n, Peek(src, p, m)) == CodeAt(src, p, n)
    decreases n
  {
    hide Peek, StreamBit;
    if n > 0 {
      CodeAtIs(src, p, n - 1, m);
      PeekBit(src, p, m, n - 1);
    }
  }

  /** The symbol with these bits is the one decoded. */
  lemma Decodes(lens: seq<nat>, src: seq<byte>, p: nat, s: nat)
    requires s < |lens| && lens[s] > 0 && p + lens[s] <= 8 * |src| && CodeAt(src, p, lens[s]) == Code(lens, s)
    ensures DecodeSym(lens, src, p) == Sym(s)
  {
    hide Code, Peek, CodeAt;
    CodeAtIs(src, p, lens[s], lens[s]);
    assert Matches(lens, src, p, s);
    var d := DecodeSym(lens, src, p);
    if d.Sym? {
      MatchUnique(lens, src, p, s, d.s);
    }
  }

  lemma CodeStep(p: nat, n: nat)
    requires p + n < 32
    ensures CodeAt(NINE, p, 0) == 0 && CodeAt(NINE, p, n + 1) == 2 * CodeAt(NINE, p, n) + BITS[p + n]
  {
    NineBits(p + n);
  }

  lemma FourBits(p: nat, n: nat)
    requires p + n + 4 <= 32
    ensures CodeAt(NINE, p, n + 4) ==
            16 * CodeAt(NINE, p, n) + 8 * BITS[p + n] + 4 * BITS[p + n + 1] + 2 * BITS[p + n + 2] + BITS[p + n + 3]
  {
    hide CodeAt, BITS;
    CodeStep(p, n);
    CodeStep(p, n + 1);
    CodeStep(p, n + 2);
    CodeStep(p, n + 3);
  }

  lemma NineCodes()
    ensures CodeAt(NINE, 3, 8) == 0x91 && CodeAt(NINE, 11, 7) == 6 && CodeAt(NINE, 18, 5) == 0 && CodeAt(NINE, 23, 7) == 0
  {
    hide CodeAt;
    LiteralCode();
    ShortCode(11, 6);
    ShortCode(23, 0);
    DistanceCode();
  }

  lemma LiteralCode()
    ensures CodeAt(NINE, 3, 8) == 0x91
  {
    hide CodeAt;
    CodeStep(3, 0);
    FourBits(3, 0);
    FourBits(3, 4);
  }

  lemma DistanceCode()
    ensures CodeAt(NINE, 18, 5) == 0
  {
    hide CodeAt;
    CodeStep(18, 0);
    FourBits(18, 1);
  }

  lemma ShortCode(p: nat, x: nat)
    requires p + 7 <= 32 && x == 64 * BITS[p] + 32 * BITS[p + 1] + 16 * BITS[p + 2] + 8 * BITS[p + 3] + 4 * BITS[p + 4] + 2 * BITS[p + 5] + BITS[p + 6]
    ensures CodeAt(NINE, p, 7) == x
  {
    hide CodeAt, BITS;
    CodeStep(p, 0);
    CodeStep(p, 1);
    CodeStep(p, 2);
    FourBits(p, 3);
  }

  lemma NineSymbols()
    ensures DecodeSym(FixedLit(), NINE, 3) == Sym(97) && FixedLit()[97] == 8
    ensures DecodeSym(FixedLit(), NINE, 11) == Sym(262) && FixedLit()[262] == 7
    ensures DecodeSym(FixedDist(), NINE, 18) == Sym(0) && FixedDist()[0] == 5
    ensures DecodeSym(FixedLit(), NINE, 23) == Sym(256) && FixedLit()[256] == 7
  {
    hide Code, CodeAt, DecodeSym;
    NineCodes();
    FixedLitCodes(97);
    FixedLitCodes(262);
    FixedLitCodes(256);
    FixedDistCodes(0);
    Decodes(FixedLit(), NINE, 3, 97);
    Decodes(FixedLit(), NINE, 11, 262);
    Decodes(FixedDist(), NINE, 18, 0);
    Decodes(FixedLit(), NINE, 23, 256);
  }

  lemma NineHead()
    ensures Peek(NINE, 0, 1) == 1 && Peek(NINE, 1, 2) == 1
  {
    hide StreamBit;
    NineBits(0);
    NineBits(1);
    NineBits(2);
    PeekNothing(NINE, 3);
    PeekNothing(NINE, 1);
  }

  lemma NineMatch()
    ensures RefMatch(FixedDist(), NINE, 18, 262) == Match(23, 8, 1)
  {
    hide DecodeSym, FixedDist, FixedLit, Peek, Pow2, StreamBit;
    NineSymbols();
    PeekNothing(NINE, 18);
    PeekNothing(NINE, 23);
  }

  lemma PeekNothing(src: seq<byte>, p: nat)
    ensures Peek(src, p, 0) == 0
  {
  }

  lemma {:induction false} Repeated(hist: seq<byte>, x: byte, n: nat)
    requires |hist| > 0 && hist[|hist| - 1] == x
    ensures Copy(hist, 1, n) == hist + seq(n, _ => x)
    decreases n
  {
    if n > 0 {
      Repeated(hist + [x], x, n - 1);
      assert [x] + seq(n - 1, _ => x) == seq(n, _ => x);
      assert hist + [x] + seq(n - 1, _ => x) == hist + ([x] + seq(n - 1, _ => x));
    } else {
      assert hist + seq(0, _ => x) == hist;
    }
  }

  /** It decodes, by the RFC and by the program, to nine times the letter `a`. */
  lemma NineDecoded(hist: seq<byte>, mode: Mode)
    requires |hist| >= WSIZE && (mode == STRICT || mode == LENIENT)
    ensures RefInflate(mode, NINE, 0, hist) == Ok(30, hist + seq(9, _ => 97))
  {
    hide Peek, DecodeSym, RefMatch, Copy, FixedLit, FixedDist;
    NineHead();
    NineSymbols();
    NineMatch();
    Repeated(hist + [97], 97, 8);
    assert hist + [97] + seq(8, _ => 97) == hist + seq(9, _ => 97);
    var h := hist + seq(9, _ => 97);
    assert RefCodes(FixedLit(), FixedDist(), mode, NINE, 23, h) == Ok(30, h);
    assert RefCodes(FixedLit(), FixedDist(), mode, NINE, 11, hist + [97]) == Ok(30, h);
    assert RefCodes(FixedLit(), FixedDist(), mode, NINE, 3, hist) == Ok(30, h);
  }
}
