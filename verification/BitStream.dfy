/** A byte sequence read as a stream of bits, low bit of each byte first. */
module BitStream {
  import opened Bits

  type byte = x: nat | x < 256

  /** Bit `p` of the stream; zero past the end. */
  function StreamBit(src: seq<byte>, p: nat): (r: nat)
    ensures r < 2
  {
    if p / 8 < |src| then Bit(src[p / 8], p % 8) else 0
  }

  /** The `n` bits from position `p` on, the first one least significant. */
  function Peek(src: seq<byte>, p: nat, n: nat): (r: nat)
    decreases n
  {
    if n == 0 then 0 else StreamBit(src, p) + 2 * Peek(src, p + 1, n - 1)
  }

  lemma {:induction false} PeekBound(src: seq<byte>, p: nat, n: nat)
    ensures Peek(src, p, n) < Pow2(n)
    decreases n
  {
    if n > 0 {
      PeekBound(src, p + 1, n - 1);
    }
  }

  lemma {:induction false} PeekLow(src: seq<byte>, p: nat, n: nat, a: nat)
    requires a <= n
    ensures Low(Peek(src, p, n), a) == Peek(src, p, a)
    decreases n
  {
    if a > 0 {
      PeekLow(src, p + 1, n - 1, a - 1);
    }
  }

  lemma {:induction false} PeekShr(src: seq<byte>, p: nat, n: nat, a: nat)
    requires a <= n
    ensures Shr(Peek(src, p, n), a) == Peek(src, p + a, n - a)
    decreases n
  {
    if a > 0 {
      PeekShr(src, p + 1, n - 1, a - 1);
    }
  }

  lemma {:induction false} PeekJoin(src: seq<byte>, p: nat, n: nat, m: nat)
    ensures Peek(src, p, n + m) == Peek(src, p, n) + Peek(src, p + n, m) * Pow2(n)
    decreases n
  {
    if n > 0 {
      PeekJoin(src, p + 1, n - 1, m);
      MulDouble(Peek(src, p + n, m), Pow2(n - 1));
    }
  }

  /** Shifting by `t` and reading `n` bits of a byte. */
  lemma {:induction false} PeekInByte(src: seq<byte>, i: nat, t: nat)
    requires i < |src| && t <= 8
    ensures Peek(src, 8 * i + t, 8 - t) == Shr(src[i], t)
    decreases 8 - t
  {
    if t == 8 {
      assert Pow2(8) == 256;
      LowSmall(src[i], 8);
    } else {
      PeekInByte(src, i, t + 1);
      ShrShr(src[i], t, 1);
      assert Shr(Shr(src[i], t), 1) == Shr(src[i], t) / 2;
      assert (8 * i + t) / 8 == i && (8 * i + t) % 8 == t;
    }
  }

  /** Eight aligned bits are the byte. */
  lemma PeekByte(src: seq<byte>, i: nat)
    requires i < |src|
    ensures Peek(src, 8 * i, 8) == src[i]
  {
    PeekInByte(src, i, 0);
  }

  /** Two and four bytes, low byte first. */
  lemma PeekTwo(src: seq<byte>, i: nat)
    requires i + 2 <= |src|
    ensures var b0: nat, b1: nat := src[i], src[i + 1]; Peek(src, 8 * i, 16) == b0 + 0x100 * b1
  {
    hide Peek;
    PeekJoin(src, 8 * i, 8, 8);
    PeekByte(src, i);
    PeekByte(src, i + 1);
    assert Pow2(8) == 256;
  }

  lemma PeekFour(src: seq<byte>, i: nat)
    requires i + 4 <= |src|
    ensures var b0: nat, b1: nat, b2: nat, b3: nat := src[i], src[i + 1], src[i + 2], src[i + 3];
            Peek(src, 8 * i, 32) == b0 + 0x100 * b1 + 0x1_0000 * b2 + 0x100_0000 * b3
  {
    hide Peek, Pow2;
    PeekJoin(src, 8 * i, 16, 16);
    PeekTwo(src, i);
    PeekTwo(src, i + 2);
    SixteenBits();
  }

  lemma SixteenBits()
    ensures Pow2(16) == 0x1_0000
  {
    assert Pow2(8) == 256;
    Pow2Add(8, 8);
  }

  lemma FirstBit(src: seq<byte>, p: nat, n: nat)
    requires n > 0
    ensures Peek(src, p, n) % 2 == StreamBit(src, p)
  {
    hide StreamBit;
  }

  /** Bit `t` of `n` bits read at `p`. */
  lemma PeekBit(src: seq<byte>, p: nat, n: nat, t: nat)
    requires t < n
    ensures Bit(Peek(src, p, n), t) == StreamBit(src, p + t)
  {
    hide Peek, StreamBit, Shr;
    PeekShr(src, p, n, t);
    FirstBit(src, p + t, n - t);
  }

  /** Byte `j` of a number, low byte first. */
  function ByteOf(w: nat, j: nat): (r: byte)
  {
    if j == 0 then w % 0x100 else ByteOf(w / 0x100, j - 1)
  }

  lemma ByteStep(w: nat, j: nat)
    ensures ByteOf(w, j + 1) == ByteOf(w / 0x100, j)
    ensures var low: nat := ByteOf(w, 0); w == low + 0x100 * (w / 0x100)
  {
  }

  lemma FourBytes(w: nat)
    requires w < 0x1_0000_0000
    ensures var b0: nat, b1: nat, b2: nat, b3: nat := ByteOf(w, 0), ByteOf(w, 1), ByteOf(w, 2), ByteOf(w, 3);
            w == b0 + 0x100 * b1 + 0x1_0000 * b2 + 0x100_0000 * b3
  {
    hide ByteOf;
    var w1: nat := w / 0x100;
    var w2: nat := w1 / 0x100;
    var w3: nat := w2 / 0x100;
    ByteStep(w, 0);
    ByteStep(w, 1);
    ByteStep(w, 2);
    ByteStep(w1, 0);
    ByteStep(w1, 1);
    ByteStep(w2, 0);
    ByteStep(w3, 0);
    assert w3 < 0x100;
  }
}
