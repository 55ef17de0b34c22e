/** The input side of the decoder: the buffer that `get_byte` and `fill_inbuf`
    advance (zip/gzip.h:75, zip/misc.c:207-247) and the bit buffer `bb`, `bk` with
    its macros NEEDBITS and DUMPBITS (zip/inflate.c:86-97). */
module BitReader {
  import opened Bits
  import opened BitStream

  const INBUFSIZ: nat := 0x20000

  /** Appending the next byte above `k` buffered bits. */
  lemma PeekNextByte(src: seq<byte>, p: nat, k: nat, pos: nat)
    requires pos < |src| && p + k == 8 * pos
    ensures Peek(src, p, k + 8) == Peek(src, p, k) + src[pos] * Pow2(k)
  {
    hide Peek, Pow2;
    PeekByte(src, pos);
    PeekJoin(src, p, k, 8);
  }

  /** The buffer before the last fill: the last whole one of the file, or at first what
      `memory` had there. */
  function LastWhole(file: seq<byte>, memory: seq<byte>): (r: seq<byte>)
    requires |memory| == INBUFSIZ
    ensures |r| == INBUFSIZ
  {
    var whole := |file| / INBUFSIZ * INBUFSIZ;
    if whole == 0 then memory else file[whole - INBUFSIZ..whole]
  }

  /** The bytes that the decoder gets before it gives up.  The last fill is short, or
      empty, but counts as whole: after the file come the rest of the buffer before. */
  function Delivered(file: seq<byte>, memory: seq<byte>): (r: seq<byte>)
    requires |memory| == INBUFSIZ
    ensures |file| < |r| == (|file| / INBUFSIZ + 1) * INBUFSIZ && r[..|file|] == file
  {
    file + LastWhole(file, memory)[|file| % INBUFSIZ..]
  }

  /** `inbuf`, its size, where the next fill reads, and whether there is one: the buffer
      is the part of what is delivered from `base` on, or nothing has been read. */
  ghost predicate Buffered(file: seq<byte>, memory: seq<byte>, inbuf: seq<byte>, insize: nat, at: nat, eof: bool, base: nat)
  {
    && |memory| == INBUFSIZ == |inbuf| && base % INBUFSIZ == 0
    && base + insize <= |Delivered(file, memory)|
    && (if insize == 0 then base == 0 && !eof && inbuf == memory
        else insize == INBUFSIZ && inbuf == Delivered(file, memory)[base..base + INBUFSIZ])
    && (eof <==> base + insize == |Delivered(file, memory)|) && (!eof ==> at == base + insize <= |file|)
  }

  /** How much the next read returns. */
  function Returned(file: seq<byte>, at: nat): (r: nat)
    requires at <= |file|
    ensures r <= INBUFSIZ && at + r <= |file| && (r < INBUFSIZ ==> at + r == |file|)
  {
    if |file| - at < INBUFSIZ then |file| - at else INBUFSIZ
  }

  /** One fill: of the file while it has a whole buffer more, then of its end over the
      buffer before. */
  lemma Refill(file: seq<byte>, memory: seq<byte>, inbuf: seq<byte>, insize: nat, at: nat, base: nat)
    requires Buffered(file, memory, inbuf, insize, at, false, base)
    ensures at == base + insize <= |file| && at + INBUFSIZ <= |Delivered(file, memory)|
    ensures var n := Returned(file, at);
            && |file[at..at + n] + inbuf[n..]| == INBUFSIZ == |inbuf|
            && Buffered(file, memory, file[at..at + n] + inbuf[n..], INBUFSIZ, at + n, n < INBUFSIZ, at)
            && Delivered(file, memory)[at] == (file[at..at + n] + inbuf[n..])[0]
  {
    hide LastWhole;
    var src, n := Delivered(file, memory), Returned(file, at);
    NextAt(base, insize);
    if n < INBUFSIZ {
      DivUnique(|file|, INBUFSIZ, at / INBUFSIZ, n);
      LastIs(file, memory, inbuf, insize, at, base);
      assert file[at..at + n] + inbuf[n..] == src[at..at + INBUFSIZ];
    } else {
      WholeFill(file, memory, at);
      assert file[at..at + n] + inbuf[n..] == src[at..at + INBUFSIZ];
    }
  }

  lemma BufferedEnd(file: seq<byte>, memory: seq<byte>, inbuf: seq<byte>, insize: nat, at: nat, eof: bool, base: nat)
    requires Buffered(file, memory, inbuf, insize, at, eof, base)
    ensures |memory| == INBUFSIZ && base + insize <= |Delivered(file, memory)|
    ensures eof <==> base + insize == |Delivered(file, memory)|
  {
    hide Delivered;
  }

  lemma NextAt(base: nat, insize: nat)
    requires base % INBUFSIZ == 0 && (insize == 0 || insize == INBUFSIZ)
    ensures (base + insize) % INBUFSIZ == 0
  {
  }

  /** Before the last fill the buffer is the last whole one. */
  lemma LastIs(file: seq<byte>, memory: seq<byte>, inbuf: seq<byte>, insize: nat, at: nat, base: nat)
    requires Buffered(file, memory, inbuf, insize, at, false, base) && at == |file| / INBUFSIZ * INBUFSIZ
    ensures inbuf == LastWhole(file, memory)
  {
    if insize != 0 {
      assert file[base..at] == Delivered(file, memory)[base..at];
    }
  }

  lemma WholeFill(file: seq<byte>, memory: seq<byte>, at: nat)
    requires |memory| == INBUFSIZ && at + INBUFSIZ <= |file|
    ensures at + INBUFSIZ < |Delivered(file, memory)|
    ensures Delivered(file, memory)[at..at + INBUFSIZ] == file[at..at + INBUFSIZ]
  {
  }

  class Reader {
    /** What the reads of the file return, which is whole blocks. */
    const file: seq<byte>
    /** The bytes that successive buffer fills deliver, over what was in the buffer. */
    ghost const src: seq<byte>
    ghost const memory: seq<byte>
    /** `inbuf`, the next byte in it, and its size; `at` is where the next fill reads,
        and `eof` a negative `block_number`. */
    var inbuf: seq<byte>
    var inptr: nat
    var insize: nat
    var at: nat
    var eof: bool
    /** Where in `src` the buffer starts. */
    ghost var base: nat
    /** The bit buffer and the number of bits in it. */
    var bb: nat
    var bk: nat

    /** The next byte to be fetched. */
    ghost function Pos(): (r: nat)
      reads this
    {
      base + inptr
    }

    /** The buffer is a part of `src`, or nothing has been read. */
    ghost predicate Filled()
      reads this`inbuf, this`inptr, this`insize, this`at, this`eof, this`base
    {
      && Buffered(file, memory, inbuf, insize, at, eof, base) && src == Delivered(file, memory) && inptr <= insize
    }

    ghost predicate Valid()
      reads this
    {
      && Filled() && inptr <= insize && base + insize <= |src|
      && bk <= 8 * Pos()
      && bb == Peek(src, 8 * Pos() - bk, bk)
      && (bk > 0 ==> inptr >= 1)
    }

    /** The position of the next unused bit. */
    ghost function P(): (r: nat)
      requires Valid()
      reads this
      ensures r + bk == 8 * Pos() <= 8 * |src|
    {
      8 * Pos() - bk
    }

    /** A file that has just been opened; the buffer still has anything. */
    constructor (bytes: seq<byte>, buffer: seq<byte>)
      requires |buffer| == INBUFSIZ
      ensures Valid() && file == bytes && src == Delivered(bytes, buffer) && P() == 0 && bk == 0 && Pos() == 0
    {
      file, src, memory := bytes, Delivered(bytes, buffer), buffer;
      inbuf, inptr, insize, at, eof := buffer, 0, 0, 0, false;
      base, bb, bk := 0, 0, 0;
    }

    /** `fill_inbuf`: the next read of the file goes over the buffer; a short one is the
        last, and counts as whole. */
    method FillInbuf() returns (ok: bool, b: byte)
      requires Filled() && inptr == insize
      modifies this`inbuf, this`inptr, this`insize, this`at, this`eof, this`base
      ensures Filled() && inptr <= insize && base + insize <= |src|
      ensures ok <==> old(Pos()) < |src|
      ensures ok ==> b == src[old(Pos())] && Pos() == old(Pos()) + 1 && inptr == 1
      ensures !ok ==> Pos() == old(Pos()) && inptr == old(inptr)
    {
      hide Delivered, Returned, Buffered;
      BufferedEnd(file, memory, inbuf, insize, at, eof, base);
      if eof {
        return false, 0;
      }
      Refill(file, memory, inbuf, insize, at, base);
      var nread := Returned(file, at);
      inbuf := file[at..at + nread] + inbuf[nread..];
      base, at, eof := at, at + nread, nread != INBUFSIZ;
      insize := INBUFSIZ;
      inptr := 1;
      return true, inbuf[0];
    }

    /** `get_byte`: refill the buffer when it is used up. */
    method GetByte() returns (ok: bool, b: byte)
      requires Filled()
      modifies this`inbuf, this`inptr, this`insize, this`at, this`eof, this`base
      ensures Filled() && inptr <= insize && base + insize <= |src|
      ensures ok <==> old(Pos()) < |src|
      ensures ok ==> b == src[old(Pos())] && Pos() == old(Pos()) + 1 && inptr >= 1
      ensures !ok ==> Pos() == old(Pos()) && inptr == old(inptr)
    {
      if inptr < insize {
        assert src[base..base + INBUFSIZ][inptr] == src[base + inptr];
        ok, b, inptr := true, inbuf[inptr], inptr + 1;
      } else {
        ok, b := FillInbuf();
      }
    }

    /** NEEDBITS: fetch bytes until there are `n` bits.  No bit is skipped, and it
        fails only if the input does not have the bits. */
    method NeedBits(n: nat) returns (ok: bool)
      requires Valid()
      modifies this
      ensures Valid() && P() == old(P())
      ensures ok ==> n <= bk
      ensures !ok ==> 8 * |src| < P() + n
      ensures bk <= old(bk) || bk <= n + 7
      ensures old(bk) <= bk
    {
      hide Peek, Pow2, Filled;
      ok := true;
      while bk < n
        invariant Valid() && P() == old(P())
        invariant bk <= old(bk) || bk <= n + 7
        invariant old(bk) <= bk
        decreases n - bk
      {
        var b;
        ghost var p, pos, k := P(), Pos(), bk;
        ok, b := GetByte();
        if !ok {
          return;
        }
        PeekNextByte(src, p, k, pos);
        bb := bb + b * Pow2(bk);
        bk := bk + 8;
      }
    }

    /** DUMPBITS. */
    method DumpBits(n: nat)
      requires Valid() && n <= bk
      modifies this`bb, this`bk
      ensures Valid() && P() == old(P()) + n && bk == old(bk) - n
    {
      hide Peek, Shr, Filled;
      PeekShr(src, P(), bk, n);
      bb := Shr(bb, n);
      bk := bk - n;
    }

    /** The low `n` bits of the buffer are the coming `n` bits of the stream. */
    lemma LowIsPeek(n: nat)
      requires Valid() && n <= bk
      ensures Low(bb, n) == Peek(src, P(), n)
    {
      PeekLow(src, P(), bk, n);
    }

    /** NEEDBITS, the masked value, DUMPBITS: read a field of `n` bits. */
    method TakeBits(n: nat) returns (ok: bool, x: nat)
      requires Valid()
      modifies this
      ensures Valid()
      ensures ok <==> old(P()) + n <= 8 * |src|
      ensures ok ==> x == Peek(src, old(P()), n) && P() == old(P()) + n
      ensures old(bk) <= 15 && n <= 8 ==> bk <= 15
      ensures old(bk) <= 15 && n <= 16 && ok ==> bk <= 15
    {
      hide Peek, Low, Filled;
      x := 0;
      ok := NeedBits(n);
      if ok {
        LowIsPeek(n);
        x := Low(bb, n);
        DumpBits(n);
      }
    }

    /** The end of `inflate` (zip/inflate.c:815-818): give whole unused bytes back,
        so that the next byte read is the first one after the stream. */
    method Undo()
      requires Valid() && bk <= 15
      modifies this`inptr, this`bk
      ensures Filled() && inptr <= insize && base + insize <= |src|
      ensures Pos() == (old(P()) + 7) / 8
      ensures bk == old(bk) % 8 && inptr <= old(inptr) <= inptr + 1
    {
      hide Peek;
      while bk >= 8
        invariant bk <= old(bk) && 8 * Pos() - bk == old(P()) && inptr <= old(inptr)
        invariant bk >= 8 ==> inptr >= 1
        invariant (bk == old(bk) && inptr == old(inptr)) || (bk == old(bk) - 8 && inptr == old(inptr) - 1)
      {
        bk := bk - 8;
        inptr := inptr - 1;
      }
    }
  }
}
