/** `unzip` for a gzip member (zip/unzip.c:44-141): inflate, load and check the trailer. */
module Unzip {
  import opened Bits
  import opened BitStream
  import opened BitReader
  import opened DeflateSpec
  import opened DeflateValid
  import opened DeflateReach
  import opened Window
  import opened InflateData
  import Inflate
  import opened Crc32
  import opened Loader

  /** The ways `unzip` ends: back in the caller, in `unzip_error`, or, where `inflate`
      follows what was never set, in whatever comes of that. */
  datatype Verdict = Accepted | BadFormat | EndOfInput | CrcError | LengthError | Undefined

  /** LG: four bytes, low byte first. */
  function Long(b0: byte, b1: byte, b2: byte, b3: byte): (r: nat)
    ensures r < 0x1_0000_0000
  {
    b0 + 0x100 * b1 + 0x1_0000 * b2 + 0x100_0000 * b3
  }

  function LongAt(src: seq<byte>, i: nat): (r: nat)
    requires i + 4 <= |src|
    ensures r < 0x1_0000_0000
  {
    Long(src[i], src[i + 1], src[i + 2], src[i + 3])
  }

  /** It is the 32 bits from there on. */
  lemma LongIs(src: seq<byte>, i: nat)
    requires i + 4 <= |src|
    ensures LongAt(src, i) == Peek(src, 8 * i, 32)
  {
    hide Peek;
    PeekFour(src, i);
  }

  /** The CRC-32 and the length after the compressed data, which ends at bit `p`
      (section 2.3.1 of RFC 1952). */
  ghost predicate TrailerFits(src: seq<byte>, p: nat, data: seq<byte>)
  {
    var e := (p + 7) / 8;
    && e + 8 <= |src|
    && LongAt(src, e) == Crc(AsBits(data)) as nat
    && LongAt(src, e + 4) == |data|
  }

  /** The output of a stream that started with `seed` in the ring. */
  ghost function Produced(ref: Ref, seed: seq<byte>): (r: seq<byte>)
    requires ref.Ok? && |ref.hist| >= |seed|
  {
    ref.hist[|seed|..]
  }

  /** What `unzip` accepts: the data decodes, and the trailer is there and fits. */
  ghost predicate GoodMember(src: seq<byte>, i: nat, seed: seq<byte>)
    requires |seed| >= WSIZE
  {
    var ref := RefInflate(LENIENT, src, 8 * i, seed);
    ref.Ok? && TrailerFits(src, ref.p, Produced(ref, seed))
  }

  /** The reason for each verdict.  A member whose data and trailer are all there is judged
      by the CRC first and then by the length; without the trailer it is the end of the
      input, and so it can be where the data does not decode. */
  ghost predicate Judged(src: seq<byte>, i: nat, seed: seq<byte>, v: Verdict)
    requires |seed| >= WSIZE
  {
    match RefInflate(LENIENT, src, 8 * i, seed)
    case Bad => v == BadFormat || v == EndOfInput
    case Astray => v == Verdict.Undefined || v == EndOfInput
    case Ok(p, hist) =>
      var e, data := (p + 7) / 8, hist[|seed|..];
      if e + 8 > |src| then v == EndOfInput
      else if LongAt(src, e) != Crc(AsBits(data)) as nat then v == CrcError
      else if LongAt(src, e + 4) != |data| then v == LengthError
      else v == Accepted
  }

  // ----- the end of the file -----

  /** The byte after the trailer. */
  ghost function MemberEnd(src: seq<byte>, i: nat, seed: seq<byte>): (r: nat)
    requires |seed| >= WSIZE && RefInflate(LENIENT, src, 8 * i, seed).Ok?
  {
    (RefInflate(LENIENT, src, 8 * i, seed).p + 7) / 8 + 8
  }

  /** What the decoder gets is a good member whose trailer ends in the file if and only if
      the file is, and then with the same output: only members that end in the bytes after
      the file are accepted for what was in the buffer before. */
  lemma FileExact(file: seq<byte>, buffer: seq<byte>, i: nat, seed: seq<byte>)
    requires |buffer| == INBUFSIZ && |seed| >= WSIZE
    ensures var src := Delivered(file, buffer);
            && (GoodMember(file, i, seed) <==> GoodMember(src, i, seed) && MemberEnd(src, i, seed) <= |file|)
            && (GoodMember(file, i, seed) ==> RefInflate(LENIENT, src, 8 * i, seed) == RefInflate(LENIENT, file, 8 * i, seed))
  {
    hide GoodMember, MemberEnd, RefInflate, LastWhole;
    var src := Delivered(file, buffer);
    assert src == file + src[|file|..];
    MemberSame(file, src[|file|..], i, seed);
  }

  lemma MemberSame(a: seq<byte>, b: seq<byte>, i: nat, seed: seq<byte>)
    requires |seed| >= WSIZE
    ensures GoodMember(a, i, seed) <==> GoodMember(a + b, i, seed) && MemberEnd(a + b, i, seed) <= |a|
    ensures GoodMember(a, i, seed) ==> RefInflate(LENIENT, a + b, 8 * i, seed) == RefInflate(LENIENT, a, 8 * i, seed)
  {
    hide RefInflate, TrailerFits;
    InflateSame(LENIENT, a, b, 8 * i, seed);
    var ref := RefInflate(LENIENT, a + b, 8 * i, seed);
    if GoodMember(a, i, seed) {
      TrailerIn(a, ref.p, Produced(ref, seed));
    }
    if ref.Ok? && MemberEnd(a + b, i, seed) <= |a| {
      TrailerSame(a, b, ref.p, Produced(ref, seed));
    }
  }

  lemma TrailerIn(src: seq<byte>, p: nat, data: seq<byte>)
    requires TrailerFits(src, p, data)
    ensures (p + 7) / 8 + 8 <= |src|
  {
    hide Crc, AsBits;
  }

  lemma TrailerSame(a: seq<byte>, b: seq<byte>, p: nat, data: seq<byte>)
    requires (p + 7) / 8 + 8 <= |a|
    ensures TrailerFits(a + b, p, data) <==> TrailerFits(a, p, data)
  {
    hide Crc, AsBits, LongAt;
    LongSame(a, b, (p + 7) / 8);
    LongSame(a, b, (p + 7) / 8 + 4);
  }

  lemma LongSame(a: seq<byte>, b: seq<byte>, i: nat)
    requires i + 4 <= |a|
    ensures LongAt(a + b, i) == LongAt(a, i)
  {
  }

  /** A stored block without data, and nothing after it: with zeros in the buffer it is
      accepted, though it has no trailer. */
  lemma StaleAccepted(seed: seq<byte>)
    requires |seed| >= WSIZE
    ensures var file, buffer := [1, 0, 0, 255, 255], seq(INBUFSIZ, _ => 0);
            GoodMember(Delivered(file, buffer), 0, seed) && !GoodMember(file, 0, seed)
  {
    hide Peek, Delivered, LastWhole, LongAt, RefInflate, AsBits, Crc;
    var file, buffer := [1, 0, 0, 255, 255], seq(INBUFSIZ, _ => 0);
    var src := Delivered(file, buffer);
    assert src[..5] == file;
    forall k | 5 <= k < 13
      ensures src[k] == 0
    {
      ShortFile(file, buffer, k);
    }
    StoredIs(src, 0, seed);
    assert seed + src[5..5] == seed;
    assert LongAt(src, 5) == 0 && LongAt(src, 9) == 0 by {
      ZeroLong(src, 5);
      ZeroLong(src, 9);
    }
    assert Produced(Ok(40, seed), seed) == [];
    EmptyCrc();
    assert MemberEnd(src, 0, seed) == 13;
    FileExact(file, buffer, 0, seed);
  }

  lemma ShortFile(file: seq<byte>, buffer: seq<byte>, k: nat)
    requires |buffer| == INBUFSIZ && |file| <= k < INBUFSIZ
    ensures Delivered(file, buffer)[k] == buffer[k]
  {
  }

  lemma ZeroLong(src: seq<byte>, i: nat)
    requires i + 4 <= |src| && forall k :: i <= k < i + 4 ==> src[k] == 0
    ensures LongAt(src, i) == 0
  {
  }

  lemma EmptyCrc()
    ensures Crc(AsBits([])) as nat == 0
  {
  }

  /** One last stored block with `n` bytes. */
  lemma StoredIs(src: seq<byte>, n: nat, seed: seq<byte>)
    requires |seed| >= WSIZE && n < 256 && |src| >= 5 + n && src[..5] == [1, n, 0, 255 - n, 255]
    ensures RefInflate(LENIENT, src, 0, seed) == Ok(8 * (5 + n), seed + src[5..5 + n])
  {
    hide Peek, Pow2, RefStored, RefCodes, RefTrees;
    assert src[0] == 1 && src[1] == n && src[2] == 0 && src[3] == 255 - n && src[4] == 255 by {
      forall k | 0 <= k < 5
        ensures src[k] == src[..5][k]
      {
      }
    }
    FirstBits(src);
    StoredBlock(src, n, seed);
    assert RefBody(LENIENT, 0, src, 3, seed) == Ok(8 * (5 + n), seed + src[5..5 + n]);
  }

  lemma StoredBlock(src: seq<byte>, n: nat, hist: seq<byte>)
    requires n < 256 && |src| >= 5 + n && src[1] == n && src[2] == 0 && src[3] == 255 - n && src[4] == 255
    ensures RefStored(src, 3, hist) == Ok(8 * (5 + n), hist + src[5..5 + n])
  {
    hide Peek;
    PeekTwo(src, 1);
    PeekTwo(src, 3);
    assert Align(3) == 8;
  }

  /** A member with the letter `a` in a stored block. */
  const LETTER: seq<byte> := [1, 1, 0, 254, 255, 0x61, 0x43, 0xbe, 0xb7, 0xe8, 1, 0, 0, 0]

  /** It is accepted, for its CRC and its length. */
  lemma LetterAccepted(seed: seq<byte>)
    requires |seed| >= WSIZE
    ensures GoodMember(LETTER, 0, seed) && Produced(RefInflate(LENIENT, LETTER, 0, seed), seed) == [0x61]
    ensures Judged(LETTER, 0, seed, Accepted) && Judged(LETTER[9 := 0], 0, seed, CrcError) && Judged(LETTER[10 := 2], 0, seed, LengthError)
    ensures Judged(LETTER[..13], 0, seed, EndOfInput) && RefInflate(LENIENT, LETTER[3 := 0], 0, seed) == Bad
  {
    hide RefInflate, Judged, LongAt, GoodMember;
    LetterJudged(LETTER, seed);
    LetterJudged(LETTER[9 := 0], seed);
    LetterJudged(LETTER[10 := 2], seed);
    LetterJudged(LETTER[..13], seed);
    LetterLongs();
    LetterBroken(seed);
    LetterGood(seed);
  }

  lemma LetterLongs()
    ensures LongAt(LETTER, 6) == LongAt(LETTER[10 := 2], 6) == 0xe8b7be43 && LongAt(LETTER, 10) == 1
    ensures LongAt(LETTER[9 := 0], 6) == 0xb7be43 && LongAt(LETTER[10 := 2], 10) == 2
  {
  }

  lemma LetterJudged(src: seq<byte>, seed: seq<byte>)
    requires |seed| >= WSIZE && |src| > 5 && src[..6] == [1, 1, 0, 254, 255, 0x61]
    ensures Judged(src, 0, seed, if |src| < 14 then EndOfInput
                                 else if LongAt(src, 6) != 0xe8b7be43 then CrcError
                                 else if LongAt(src, 10) != 1 then LengthError
                                 else Accepted)
  {
    hide RefInflate, AsBits, Crc, LongAt;
    Letter(src, seed);
    LetterCrc();
  }

  lemma LetterGood(seed: seq<byte>)
    requires |seed| >= WSIZE && Judged(LETTER, 0, seed, Accepted)
    ensures GoodMember(LETTER, 0, seed) && Produced(RefInflate(LENIENT, LETTER, 0, seed), seed) == [0x61]
  {
    hide RefInflate, AsBits, Crc, LongAt;
    Letter(LETTER, seed);
  }

  lemma LetterCrc()
    ensures Crc(AsBits([0x61])) == 0xe8b7be43
  {
    hide AsBits, Crc;
    BitsOfOne(0x61);
    CrcOfA();
  }

  lemma BitsOfOne(b: byte)
    ensures AsBits([b]) == [b as bv8]
  {
  }

  lemma Letter(src: seq<byte>, seed: seq<byte>)
    requires |seed| >= WSIZE && |src| > 5 && src[..6] == [1, 1, 0, 254, 255, 0x61]
    ensures RefInflate(LENIENT, src, 0, seed) == Ok(48, seed + [0x61]) && (seed + [0x61])[|seed|..] == [0x61]
  {
    hide RefInflate;
    assert src[..5] == src[..6][..5];
    assert src[5..6] == [src[..6][5]];
    StoredIs(src, 1, seed);
  }

  lemma LetterBroken(seed: seq<byte>)
    requires |seed| >= WSIZE
    ensures RefInflate(LENIENT, LETTER[3 := 0], 0, seed) == Bad
  {
    hide Peek, RefCodes, RefTrees;
    var src := LETTER[3 := 0];
    FirstBits(src);
    PeekTwo(src, 1);
    PeekTwo(src, 3);
    assert Align(3) == 8;
  }

  lemma FirstBits(src: seq<byte>)
    requires |src| > 0 && src[0] == 1
    ensures Peek(src, 0, 1) == 1 && Peek(src, 1, 2) == 0
  {
    hide Peek;
    PeekByte(src, 0);
    PeekJoin(src, 0, 1, 7);
    PeekBound(src, 0, 1);
    PeekLow(src, 1, 7, 2);
    assert Pow2(1) == 2;
    assert Peek(src, 1, 7) == 0 && Low(0, 2) == 0;
  }

  // ----- the windows together -----

  lemma AsBitsConcat(a: seq<byte>, b: seq<byte>)
    ensures AsBits(a + b) == AsBits(a) + AsBits(b)
  {
  }

  /** What memory holds from the start of window `w` on. */
  function View(w: seq<byte>, stray: nat -> byte): (r: nat -> byte)
    ensures forall i :: 0 <= i < |w| ==> r(i) == w[i]
  {
    (i: nat) => if i < |w| then w[i] else stray(i)
  }

  function ViewsOf(windows: seq<seq<byte>>, stray: nat -> nat -> byte): (r: seq<nat -> byte>)
    ensures Views(windows, r)
  {
    if |windows| == 0 then []
    else
      var n := |windows| - 1;
      ViewsOf(windows[..n], stray) + [View(windows[n], stray(n))]
  }

  /** The CRC register, the length and the memory after all flushes. */
  ghost predicate AllFlushed(crc: bv32, bytesOut: nat, chunks: seq<Segment>, at: Place, memory: Memory,
                             windows: seq<seq<byte>>, stray: nat -> nat -> byte)
  {
    && crc == Feed(ONES, AsBits(Concat(windows)))
    && bytesOut == |Concat(windows)|
    && Sane(chunks, Place(0, 0, memory))
    && at == FlushAll(chunks, Place(0, 0, memory), windows, ViewsOf(windows, stray))
  }

  lemma NoneFlushed(chunks: seq<Segment>, memory: Memory, stray: nat -> nat -> byte)
    requires Sane(chunks, Place(0, 0, memory))
    ensures AllFlushed(ONES, 0, chunks, Place(0, 0, memory), memory, [], stray)
  {
  }

  /** One window more. */
  lemma FlushedNext(crc: bv32, bytesOut: nat, chunks: seq<Segment>, at: Place, memory: Memory,
                    windows: seq<seq<byte>>, stray: nat -> nat -> byte, w: seq<byte>, at': Place)
    requires Sane(chunks, at) && AllFlushed(crc, bytesOut, chunks, at, memory, windows, stray)
    requires at' == if |w| == 0 then at else Flushed(chunks, at, View(w, stray(|windows|)), |w|)
    ensures AllFlushed(Feed(crc, AsBits(w)), bytesOut + |w|, chunks, at', memory, windows + [w], stray)
  {
    hide Flushed, FlushAll, Feed, AsBits, ViewsOf, Concat, Sane;
    ConcatAppend(windows, w);
    AsBitsConcat(Concat(windows), w);
    FeedConcat(ONES, AsBits(Concat(windows)), AsBits(w));
    FlushedMore(chunks, Place(0, 0, memory), windows, stray, w);
  }

  /** The segments lie inside the data, in order of their addresses, and no window holds
      the end of one and the start of the next; for one segment that is always so. */
  predicate Loadable(chunks: seq<Segment>, windows: seq<seq<byte>>)
  {
    && Ascending(chunks) && AllApart(chunks, windows)
    && forall k :: 0 <= k < |chunks| ==> End(chunks[k]) <= |Concat(windows)|
  }

  lemma OneLoadable(chunks: seq<Segment>, windows: seq<seq<byte>>)
    requires |chunks| == 1 && End(chunks[0]) <= |Concat(windows)|
    ensures Loadable(chunks, windows)
  {
    hide Concat;
    OneIsApart(chunks, windows);
  }

  /** What it comes to: the CRC and the length of all output, and the segments in memory. */
  lemma AllFlushedMeans(crc: bv32, bytesOut: nat, chunks: seq<Segment>, at: Place, memory: Memory,
                        windows: seq<seq<byte>>, stray: nat -> nat -> byte)
    requires AllFlushed(crc, bytesOut, chunks, at, memory, windows, stray)
    ensures Invert(crc) == Crc(AsBits(Concat(windows))) && bytesOut == |Concat(windows)|
    ensures Loadable(chunks, windows) ==>
              forall k :: 0 <= k < |chunks| ==> SegmentIn(chunks[k], at.mem, Concat(windows))
  {
    hide FlushAll, Feed, AsBits, ViewsOf, Concat, Invert, SegmentIn, Sorted, Ascending, AllApart;
    if Loadable(chunks, windows) {
      SegmentsLoaded(chunks, memory, windows, ViewsOf(windows, stray));
    }
  }

  lemma FlushedMore(chunks: seq<Segment>, st: Place, windows: seq<seq<byte>>, stray: nat -> nat -> byte, w: seq<byte>)
    requires Sane(chunks, st)
    ensures FlushAll(chunks, st, windows + [w], ViewsOf(windows + [w], stray)) ==
            var before := FlushAll(chunks, st, windows, ViewsOf(windows, stray));
            if |w| == 0 then before else Flushed(chunks, before, View(w, stray(|windows|)), |w|)
  {
    hide Flushed, Sane;
    assert (windows + [w])[..|windows|] == windows;
  }

  /** Flush one window after another (zip/inflate.c:388, 435, 821). */
  method FlushWindows(out: Output, windows: seq<seq<byte>>, stray: nat -> nat -> byte)
    requires out.Valid() && out.chunk == 0 && out.fileOffset == 0 && out.bytesOut == 0 && out.register.crc == ONES
    modifies out, out.register
    ensures AllFlushed(out.register.crc, out.bytesOut, out.chunks, Place(out.chunk, out.fileOffset, out.mem),
                       old(out.mem), windows, stray)
  {
    hide Flushed, Feed, AsBits, AllFlushed, View;
    var n := 0;
    ghost var memory := out.mem;
    NoneFlushed(out.chunks, memory, stray);
    while n < |windows|
      invariant n <= |windows| && out.Valid()
      invariant AllFlushed(out.register.crc, out.bytesOut, out.chunks, Place(out.chunk, out.fileOffset, out.mem),
                           memory, windows[..n], stray)
    {
      ghost var crc, bytesOut, at := out.register.crc, out.bytesOut, Place(out.chunk, out.fileOffset, out.mem);
      assert windows[..n + 1] == windows[..n] + [windows[n]];
      out.FlushWindow(windows[n], View(windows[n], stray(n)));
      FlushedNext(crc, bytesOut, out.chunks, at, memory, windows[..n], stray, windows[n],
                  Place(out.chunk, out.fileOffset, out.mem));
      n := n + 1;
    }
    assert windows[..n] == windows;
  }

  /** `unzip` after `clear_bufs`, with the segments that the header in the first
      window describes.  `memory` is the ring before anything is put in it, and
      `stray` gives the bytes that follow each window.  `unset` says that tables were
      built with an element that was never set: the builder then reads `e` and `d` at
      some index, on valid members too, and the verdict is for when that does no harm. */
  method Unzip(rd: Reader, memory: array<byte>, out: Output, stray: nat -> nat -> byte)
    returns (v: Verdict, unset: bool, ghost windows: seq<seq<byte>>)
    requires rd.Valid() && rd.bk == 0 && memory.Length == WSIZE
    requires out.Valid() && out.chunk == 0 && out.fileOffset == 0 && out.bytesOut == 0
    modifies rd, memory, out, out.register
    ensures v == Accepted <==> GoodMember(rd.src, old(rd.Pos()), old(memory[..]))
    ensures GoodMember(rd.file, old(rd.Pos()), old(memory[..])) <==>
              v == Accepted && MemberEnd(rd.src, old(rd.Pos()), old(memory[..])) <= |rd.file|
    ensures v == Accepted ==> (unset <==> LoneBlocks(rd.src, old(8 * rd.Pos()), old(memory[..])))
    ensures Judged(rd.src, old(rd.Pos()), old(memory[..]), v)
    ensures v == Accepted ==>
              && Cut(windows) && AllFlushed(out.register.crc, out.bytesOut, out.chunks, Place(out.chunk, out.fileOffset, out.mem), old(out.mem), windows, stray)
              && Concat(windows) == Produced(RefInflate(LENIENT, rd.src, old(8 * rd.Pos()), old(memory[..])), old(memory[..]))
              && (Loadable(out.chunks, windows) ==>
                   forall k :: 0 <= k < |out.chunks| ==> SegmentIn(out.chunks[k], out.mem, Concat(windows)))
  {
    hide RefInflate, LoneBlocks, Concat, SegmentIn, Peek, RingOk, LongAt, AsBits, Feed, Sane, Sorted, AllFlushed, Loadable,
         Delivered, LastWhole, Cut, Crc;
    FileExact(rd.file, rd.memory, rd.Pos(), memory[..]);
    ghost var mem0 := out.mem;
    windows := [];
    out.register.Reset();
    var sl := new Slide(memory);
    ghost var seed := sl.seed;
    var st;
    st, unset := Inflate.Inflate(rd, sl);
    if st != Done {
      return if st == Eof then EndOfInput else if st.Undefined? then Verdict.Undefined else BadFormat, unset, windows;
    }
    FlushWindows(out, sl.windows, stray);
    windows := sl.windows;
    ghost var data := Concat(sl.windows);
    assert (seed + data)[|seed|..] == data;
    AllFlushedMeans(out.register.crc, out.bytesOut, out.chunks, Place(out.chunk, out.fileOffset, out.mem),
                    mem0, sl.windows, stray);
    var ok, crc, len;
    ok, crc := ReadLong(rd);
    if !ok {
      return EndOfInput, unset, windows;
    }
    ok, len := ReadLong(rd);
    if !ok {
      return EndOfInput, unset, windows;
    }
    if crc != Invert(out.register.crc) as nat {
      return CrcError, unset, windows;
    }
    if len != out.bytesOut {
      return LengthError, unset, windows;
    }
    return Accepted, unset, windows;
  }

  method ReadLong(rd: Reader) returns (ok: bool, x: nat)
    requires rd.Filled() && rd.Pos() <= |rd.src|
    modifies rd
    ensures rd.Filled() && rd.Pos() <= |rd.src|
    ensures ok <==> old(rd.Pos()) + 4 <= |rd.src|
    ensures ok ==> x == LongAt(rd.src, old(rd.Pos())) && rd.Pos() == old(rd.Pos()) + 4
  {
    hide Reader.Filled, Long;
    var buf: seq<byte> := [];
    var n := 0;
    while n < 4
      invariant n <= 4 && |buf| == n && rd.Pos() == old(rd.Pos()) + n
      invariant rd.Filled() && rd.Pos() <= |rd.src|
      invariant forall k :: 0 <= k < n ==> buf[k] == rd.src[old(rd.Pos()) + k]
    {
      var b;
      ok, b := rd.GetByte();
      if !ok {
        return false, 0;
      }
      buf := buf + [b];
      n := n + 1;
    }
    return true, Long(buf[0], buf[1], buf[2], buf[3]);
  }

  // ----- valid members -----

  /** A member that RFC 1952 calls valid: the data is valid by RFC 1951 and the
      trailer holds its CRC-32 and its length modulo 2^32. */
  ghost predicate ValidMember(src: seq<byte>, i: nat, seed: seq<byte>)
    requires |seed| == WSIZE
  {
    var ref := RefInflate(STRICT, src, 8 * i, seed);
    && ref.Ok?
    && var e := (ref.p + 7) / 8;
       && e + 8 <= |src|
       && LongAt(src, e) == Crc(AsBits(Produced(ref, seed))) as nat
       && LongAt(src, e + 4) == |Produced(ref, seed)| % 0x1_0000_0000
  }

  /** Whether a member is valid, and its output, do not depend on old memory. */
  lemma ValidAnySeed(src: seq<byte>, i: nat, seed: seq<byte>, seed': seq<byte>)
    requires |seed| == |seed'| == WSIZE && ValidMember(src, i, seed)
    ensures ValidMember(src, i, seed')
    ensures Produced(RefInflate(STRICT, src, 8 * i, seed'), seed') == Produced(RefInflate(STRICT, src, 8 * i, seed), seed)
  {
    hide RefInflate, LongAt, AsBits, Crc;
    assert seed + [] == seed && seed' + [] == seed';
    InflateSeed(src, 8 * i, seed, seed', []);
  }

  /** A valid member is accepted if and only if its dynamic blocks are such as the
      program takes and its output is shorter than 4 GiB: the program compares the whole
      length with the 32 bits of the trailer. */
  lemma ValidAccepted(src: seq<byte>, i: nat, seed: seq<byte>)
    requires |seed| == WSIZE && ValidMember(src, i, seed)
    ensures GoodMember(src, i, seed) <==>
              Within(src, 8 * i, seed) && |Produced(RefInflate(STRICT, src, 8 * i, seed), seed)| < 0x1_0000_0000
    ensures Within(src, 8 * i, seed) ==> RefInflate(LENIENT, src, 8 * i, seed) == RefInflate(STRICT, src, 8 * i, seed)
  {
    hide RefInflate, LongAt, AsBits, Crc, Within;
    InflateStrict(src, 8 * i, seed);
  }
}
