/** Blocks of 256 words, and the bitmaps kept in them (tools/e2lib.c:279-324). */
module Bitmap {
  import opened Bits

  /** `unsigned int`. */
  type word = x: nat | x < 0x1_0000_0000

  const WORDS: nat := 256
  const WORD_BITS: nat := 32
  const ONES: word := 0xffff_ffff

  /** A block of 1024 bytes. */
  type Block = s: seq<word> | |s| == WORDS witness seq(WORDS, _ => 0)

  function ZeroBlock(): (r: Block)
    ensures forall i :: 0 <= i < WORDS ==> r[i] == 0
  {
    seq(WORDS, _ => 0)
  }

  // ----- one word -----

  /** `w` with bit `k` set to `v`. */
  function PutBit(w: nat, k: nat, v: nat): (r: nat)
    requires v < 2
  {
    if k == 0 then w - w % 2 + v else w % 2 + 2 * PutBit(w / 2, k - 1, v)
  }

  lemma {:induction false} PutBitAt(w: nat, k: nat, v: nat, j: nat)
    requires v < 2
    ensures Bit(PutBit(w, k, v), j) == if j == k then v else Bit(w, j)
  {
    if k > 0 && j > 0 {
      PutBitAt(w / 2, k - 1, v, j - 1);
      assert PutBit(w, k, v) / 2 == PutBit(w / 2, k - 1, v);
    }
  }

  lemma {:induction false} PutBitBound(w: nat, k: nat, v: nat, n: nat)
    requires v < 2 && w < Pow2(n) && k < n
    ensures PutBit(w, k, v) < Pow2(n)
  {
    if k > 0 {
      PutBitBound(w / 2, k - 1, v, n - 1);
    }
  }

  lemma WordPow()
    ensures Pow2(WORD_BITS) == 0x1_0000_0000
  {
    assert Pow2(8) == 256;
    Pow2Add(8, 8);
    Pow2Add(16, 16);
  }

  /** A number is known by its bits. */
  lemma {:induction false} SameBits(a: nat, b: nat, n: nat)
    requires a < Pow2(n) && b < Pow2(n) && forall k :: 0 <= k < n ==> Bit(a, k) == Bit(b, k)
    ensures a == b
  {
    if n > 0 {
      assert Bit(a, 0) == Bit(b, 0);
      forall k | 0 <= k < n - 1
        ensures Bit(a / 2, k) == Bit(b / 2, k)
      {
        assert Bit(a, k + 1) == Bit(b, k + 1);
      }
      SameBits(a / 2, b / 2, n - 1);
    }
  }

  lemma {:induction false} OnesBits(n: nat, k: nat)
    requires k < n
    ensures Bit(Pow2(n) - 1, k) == 1
  {
    if k > 0 {
      OnesBits(n - 1, k - 1);
      assert (Pow2(n) - 1) / 2 == Pow2(n - 1) - 1;
    }
  }

  lemma {:induction false} ZeroBits(k: nat)
    ensures Bit(0, k) == 0
  {
    if k > 0 {
      ZeroBits(k - 1);
    }
  }

  /** A word other than all ones has a zero bit. */
  lemma NotAllOnes(w: word)
    ensures w == ONES <==> forall k :: 0 <= k < WORD_BITS ==> Bit(w, k) == 1
  {
    hide Bit;
    WordPow();
    forall k | 0 <= k < WORD_BITS
      ensures Bit(ONES, k) == 1
    {
      OnesBits(WORD_BITS, k);
    }
    if forall k :: 0 <= k < WORD_BITS ==> Bit(w, k) == 1 {
      SameBits(w, ONES, WORD_BITS);
    }
  }

  // ----- the bitmap -----

  predicate Used(bm: Block, i: nat)
    requires i < WORDS * WORD_BITS
  {
    Bit(bm[i / WORD_BITS], i % WORD_BITS) == 1
  }

  /** `set_bit` (v = 1) and `clear_bit` (v = 0). */
  function Put(bm: Block, i: nat, v: nat): (r: Block)
    requires i < WORDS * WORD_BITS && v < 2
    ensures forall j :: 0 <= j < WORDS * WORD_BITS ==> (Used(r, j) <==> if j == i then v == 1 else Used(bm, j))
  {
    PutFits(bm[i / WORD_BITS], i % WORD_BITS, v);
    PutUsed(bm, i, v);
    bm[i / WORD_BITS := PutBit(bm[i / WORD_BITS], i % WORD_BITS, v)]
  }

  lemma PutFits(w: word, k: nat, v: nat)
    requires k < WORD_BITS && v < 2
    ensures PutBit(w, k, v) < 0x1_0000_0000
  {
    WordPow();
    PutBitBound(w, k, v, WORD_BITS);
  }

  lemma PutUsed(bm: Block, i: nat, v: nat)
    requires i < WORDS * WORD_BITS && v < 2
    requires PutBit(bm[i / WORD_BITS], i % WORD_BITS, v) < 0x1_0000_0000
    ensures var r: Block := bm[i / WORD_BITS := PutBit(bm[i / WORD_BITS], i % WORD_BITS, v)];
            forall j :: 0 <= j < WORDS * WORD_BITS ==> (Used(r, j) <==> if j == i then v == 1 else Used(bm, j))
  {
    hide Bit, PutBit;
    var r: Block := bm[i / WORD_BITS := PutBit(bm[i / WORD_BITS], i % WORD_BITS, v)];
    forall j | 0 <= j < WORDS * WORD_BITS
      ensures Used(r, j) <==> if j == i then v == 1 else Used(bm, j)
    {
      PutBitAt(bm[i / WORD_BITS], i % WORD_BITS, v, j % WORD_BITS);
    }
  }

  /** The bits that a scan of `size` bits looks at: whole words. */
  function Scanned(size: nat): (r: nat)
    ensures size <= r < size + WORD_BITS && r % WORD_BITS == 0
  {
    (size + WORD_BITS - 1) / WORD_BITS * WORD_BITS
  }

  /** `find_first_zero_bit`. */
  method FindFirstZero(bm: Block, size: nat) returns (r: nat)
    requires size <= WORDS * WORD_BITS
    ensures || (r < Scanned(size) && !Used(bm, r) && (forall j :: 0 <= j < r ==> Used(bm, j)))
            || (r == size && (forall j :: 0 <= j < Scanned(size) ==> Used(bm, j)))
  {
    hide Bit;
    if size == 0 {
      return 0;
    }
    var lwsize := (size + WORD_BITS - 1) / WORD_BITS;
    var longword := 0;
    while longword < lwsize
      invariant longword <= lwsize
      invariant forall j :: 0 <= j < longword * WORD_BITS ==> Used(bm, j)
    {
      var w := bm[longword];
      NotAllOnes(w);
      if w != ONES {
        var bit := 0;
        while bit < WORD_BITS
          invariant bit <= WORD_BITS && forall k :: 0 <= k < bit ==> Bit(w, k) == 1
        {
          if Bit(w, bit) == 0 {
            return longword * WORD_BITS + bit;
          }
          bit := bit + 1;
        }
      }
      longword := longword + 1;
    }
    return size;
  }

  // ----- counting -----

  /** The number of zero bits among the first `n`. */
  ghost function Zeros(bm: Block, n: nat): (r: nat)
    requires n <= WORDS * WORD_BITS
    ensures r <= n
  {
    if n == 0 then 0 else Zeros(bm, n - 1) + if Used(bm, n - 1) then 0 else 1
  }

  lemma {:induction false} ZerosSame(a: Block, b: Block, n: nat)
    requires n <= WORDS * WORD_BITS && forall j :: 0 <= j < n ==> (Used(a, j) <==> Used(b, j))
    ensures Zeros(a, n) == Zeros(b, n)
  {
    hide Used;
    if n > 0 {
      ZerosSame(a, b, n - 1);
    }
  }

  /** Changing one bit changes the count by one. */
  lemma {:induction false} ZerosFlip(a: Block, b: Block, i: nat, n: nat)
    requires i < n <= WORDS * WORD_BITS && !Used(a, i) && Used(b, i)
    requires forall j :: 0 <= j < n && j != i ==> (Used(a, j) <==> Used(b, j))
    ensures Zeros(a, n) == Zeros(b, n) + 1
  {
    hide Used;
    if i == n - 1 {
      ZerosSame(a, b, n - 1);
    } else {
      ZerosFlip(a, b, i, n - 1);
    }
  }

  lemma {:induction false} ZerosSome(a: Block, n: nat) returns (i: nat)
    requires n <= WORDS * WORD_BITS && Zeros(a, n) > 0
    ensures i < n && !Used(a, i)
  {
    hide Used;
    if Used(a, n - 1) {
      i := ZerosSome(a, n - 1);
    } else {
      i := n - 1;
    }
  }
}
