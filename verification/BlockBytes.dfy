/** Blocks as words, which is how pointers and bitmaps are read, and as bytes. */
module BlockBytes {
  import opened Bits
  import opened BitStream
  import opened Bitmap
  import Directory

  function WordOf(b0: byte, b1: byte, b2: byte, b3: byte): (r: word)
  {
    var n0: nat, n1: nat, n2: nat, n3: nat := b0, b1, b2, b3;
    n0 + 0x100 * (n1 + 0x100 * (n2 + 0x100 * n3))
  }

  lemma WordBytes(b0: byte, b1: byte, b2: byte, b3: byte)
    ensures var w := WordOf(b0, b1, b2, b3);
            ByteOf(w, 0) == b0 && ByteOf(w, 1) == b1 && ByteOf(w, 2) == b2 && ByteOf(w, 3) == b3
  {
    var n1: nat, n2: nat, n3: nat := b1, b2, b3;
    var w := WordOf(b0, b1, b2, b3);
    assert w / 0x100 == n1 + 0x100 * (n2 + 0x100 * n3);
    assert w / 0x100 / 0x100 == n2 + 0x100 * n3;
    assert w / 0x100 / 0x100 / 0x100 == n3;
    assert ByteOf(w, 1) == ByteOf(w / 0x100, 0);
    assert ByteOf(w, 2) == ByteOf(w / 0x100, 1) == ByteOf(w / 0x100 / 0x100, 0);
    assert ByteOf(w, 3) == ByteOf(w / 0x100, 2) == ByteOf(w / 0x100 / 0x100, 1) == ByteOf(w / 0x100 / 0x100 / 0x100, 0);
  }

  function ToBytes(b: Block): (r: Directory.Blk)
    ensures forall i :: 0 <= i < Directory.BLOCKSIZE ==> r[i] == ByteOf(b[i / 4], i % 4)
  {
    seq(Directory.BLOCKSIZE, i requires 0 <= i < Directory.BLOCKSIZE => ByteOf(b[i / 4], i % 4))
  }

  function ToWords(s: Directory.Blk): (r: Block)
  {
    seq(WORDS, k requires 0 <= k < WORDS => WordOf(s[4 * k], s[4 * k + 1], s[4 * k + 2], s[4 * k + 3]))
  }

  /** What is written as words is read as the same bytes. */
  lemma BytesOfWords(s: Directory.Blk)
    ensures ToBytes(ToWords(s)) == s
  {
    hide ByteOf, WordOf;
    forall i | 0 <= i < Directory.BLOCKSIZE
      ensures ToBytes(ToWords(s))[i] == s[i]
    {
      var k := i / 4;
      assert ToWords(s)[k] == WordOf(s[4 * k], s[4 * k + 1], s[4 * k + 2], s[4 * k + 3]);
      WordBytes(s[4 * k], s[4 * k + 1], s[4 * k + 2], s[4 * k + 3]);
    }
  }

  /** Word `k` is the 32 bits of the bytes from there on, low byte first. */
  lemma WordsAre(b: Block, k: nat)
    requires k < WORDS
    ensures Peek(ToBytes(b), 32 * k, 32) == b[k]
    ensures 4 * k + 4 <= |ToBytes(b)| && Directory.U32(ToBytes(b), 4 * k) == b[k]
  {
    hide Peek, ByteOf, Directory.U32;
    var s := ToBytes(b);
    assert s[4 * k] == ByteOf(b[k], 0) && s[4 * k + 1] == ByteOf(b[k], 1);
    assert s[4 * k + 2] == ByteOf(b[k], 2) && s[4 * k + 3] == ByteOf(b[k], 3);
    FourBytes(b[k]);
    PeekFour(s, 4 * k);
    Directory.FieldsAre(s, 4 * k);
  }

  /** The bit for a block in a bitmap is that bit of its bytes. */
  lemma UsedIs(bm: Block, i: nat)
    requires i < WORDS * WORD_BITS
    ensures Used(bm, i) <==> StreamBit(ToBytes(bm), i) == 1
  {
    hide Peek, ToBytes;
    var k, t := i / WORD_BITS, i % WORD_BITS;
    WordsAre(bm, k);
    PeekBit(ToBytes(bm), 32 * k, 32, t);
  }
}
