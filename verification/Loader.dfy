/** `flush_window` (zip/misc.c:254-315): copying the output to the segments of the
    kernel as it is produced, window by window. */
module Loader {
  import opened BitStream
  import opened Window
  import opened Crc32

  /** `chunks[i]` as `is_loadable_elf` fills it in (aboot.c:118-163). */
  datatype Segment = Segment(addr: nat, offset: nat, size: nat)

  type Memory = map<nat, byte>

  /** The segment being filled, the position in the file, and memory. */
  datatype Place = Place(chunk: nat, fileOffset: nat, mem: Memory)

  /** Segments in the order of the file, without overlap. */
  predicate Sorted(chunks: seq<Segment>)
  {
    forall i :: 0 <= i < |chunks| - 1 ==> chunks[i].offset + chunks[i].size <= chunks[i + 1].offset
  }

  /** The byte that goes to address `a` when `window + from` is copied to `dest`. */
  function Source(view: nat -> byte, from: nat, dest: nat, a: nat): (r: byte)
    requires dest <= a
  {
    view(from + (a - dest))
  }

  /** `memcpy(dest, window + from, n)`; `view` is memory from the window on, so it
      also gives the bytes past the window's end. */
  function CopyTo(mem: Memory, dest: nat, view: nat -> byte, from: nat, n: nat): (r: Memory)
  {
    mem + (map a | dest <= a < dest + n :: Source(view, from, dest, a))
  }

  /** One address after a copy. */
  lemma CopyToAt(mem: Memory, dest: nat, view: nat -> byte, from: nat, n: nat, a: nat)
    ensures var r := CopyTo(mem, dest, view, from, n);
            if dest <= a < dest + n then a in r && r[a] == view(from + (a - dest))
            else (a in r <==> a in mem) && (a in mem ==> r[a] == mem[a])
  {
  }

  function Min(a: int, b: int): (r: int)
  {
    if a <= b then a else b
  }

  ghost predicate Sane(chunks: seq<Segment>, st: Place)
  {
    && Sorted(chunks) && st.chunk <= |chunks|
    && (st.chunk < |chunks| ==> st.fileOffset <= chunks[st.chunk].offset + chunks[st.chunk].size)
  }

  /** Where in the window the current segment starts, and where in memory its next
      bytes go: a segment that starts later in the file is copied from its first
      byte, one that has begun is continued. */
  ghost function From(c: Segment, st: Place): (r: nat)
  {
    if st.fileOffset < c.offset then c.offset - st.fileOffset else 0
  }

  ghost function Dest(c: Segment, st: Place): (r: nat)
  {
    if st.fileOffset < c.offset then c.addr else c.addr + (st.fileOffset - c.offset)
  }

  ghost function Taken(c: Segment, st: Place, view: nat -> byte, n: nat): (r: Memory)
  {
    CopyTo(st.mem, Dest(c, st), view, From(c, st), n)
  }

  /** One round of the loop at lines 268-314: the window is used up, or the rest of
      it, `left` bytes of `outcnt`, is for the next segment. */
  datatype Outcome = Stop(at: Place) | Go(at: Place, left: nat)

  ghost function Round(c: Segment, st: Place, view: nat -> byte, left: nat): (r: Outcome)
    requires st.fileOffset <= c.offset + c.size
    ensures r.Stop? ==> r.at.chunk == st.chunk && r.at.fileOffset <= c.offset + c.size
    ensures r.Go? ==> r.at.chunk == st.chunk + 1 && r.at.fileOffset == c.offset + c.size
  {
    var n := c.offset + c.size - st.fileOffset;
    if From(c, st) >= left then Stop(Place(st.chunk, st.fileOffset + left, st.mem))
    else if n < left then Go(Place(st.chunk + 1, st.fileOffset + n, Taken(c, st, view, n)), left - n)
    else Stop(Place(st.chunk, st.fileOffset + left, Taken(c, st, view, left)))
  }

  /** What one flush does with the `left` bytes of a window. */
  ghost function Flushed(chunks: seq<Segment>, st: Place, view: nat -> byte, left: nat): (r: Place)
    requires Sane(chunks, st)
    ensures Sane(chunks, r)
    decreases |chunks| - st.chunk
  {
    if st.chunk == |chunks| then st
    else
      match Round(chunks[st.chunk], st, view, left)
      case Stop(at) => at
      case Go(at, rest) => Flushed(chunks, at, view, rest)
  }

  /** The definition, as facts to use where the function itself is hidden. */
  lemma FlushedStop(chunks: seq<Segment>, st: Place, view: nat -> byte, left: nat)
    requires Sane(chunks, st) && st.chunk < |chunks| && Round(chunks[st.chunk], st, view, left).Stop?
    ensures Flushed(chunks, st, view, left) == Round(chunks[st.chunk], st, view, left).at
  {
    hide Round, Sorted;
  }

  lemma FlushedGo(chunks: seq<Segment>, st: Place, view: nat -> byte, left: nat)
    requires Sane(chunks, st) && st.chunk < |chunks| && Round(chunks[st.chunk], st, view, left).Go?
    ensures var r := Round(chunks[st.chunk], st, view, left);
            Sane(chunks, r.at) && Flushed(chunks, st, view, left) == Flushed(chunks, r.at, view, r.left)
  {
    hide Round;
  }

  lemma FlushedDone(chunks: seq<Segment>, st: Place, view: nat -> byte, left: nat)
    requires Sane(chunks, st) && st.chunk == |chunks|
    ensures Flushed(chunks, st, view, left) == st
  {
  }

  // ----- one window -----

  function End(c: Segment): (r: nat)
  {
    c.offset + c.size
  }

  ghost predicate ByteLoaded(seg: Segment, mem: Memory, file: seq<byte>, i: nat)
  {
    seg.addr + i in mem && seg.offset + i < |file| && mem[seg.addr + i] == file[seg.offset + i]
  }

  /** All bytes of a segment are in memory. */
  ghost predicate SegmentIn(seg: Segment, mem: Memory, data: seq<byte>)
  {
    forall i :: 0 <= i < seg.size ==> ByteLoaded(seg, mem, data, i)
  }

  /** Of the first `f` bytes of the file, those of the segment are. */
  ghost predicate PartIn(seg: Segment, mem: Memory, file: seq<byte>, f: nat)
  {
    forall i :: 0 <= i < seg.size && seg.offset + i < f ==> ByteLoaded(seg, mem, file, i)
  }

  /** Segments in the order of their addresses, without overlap. */
  predicate Ascending(chunks: seq<Segment>)
  {
    forall i, j :: 0 <= i < j < |chunks| ==> chunks[i].addr + chunks[i].size <= chunks[j].addr
  }

  /** After `f` bytes of the file: the segments before the current one are in memory, and
      of the current one what there has been of it. */
  ghost predicate Good(chunks: seq<Segment>, st: Place, file: seq<byte>, f: nat)
  {
    && Sane(chunks, st)
    && (forall j :: 0 <= j < st.chunk ==> SegmentIn(chunks[j], st.mem, file) && End(chunks[j]) <= f)
    && (st.chunk < |chunks| ==> st.fileOffset == f && PartIn(chunks[st.chunk], st.mem, file, f))
  }

  /** A window of `n` bytes from byte `f` of the file on does not hold both the end of a
      segment, away from its own start, and the start of the next one. */
  predicate Apart(chunks: seq<Segment>, f: nat, n: nat)
  {
    forall k :: 0 <= k < |chunks| - 1 && f < End(chunks[k]) < f + n ==> f + n <= chunks[k + 1].offset
  }

  /** What the window has, as far as the file goes. */
  ghost predicate Shows(view: nat -> byte, file: seq<byte>, f: nat, n: nat)
  {
    f + n <= |file| && forall i :: 0 <= i < n ==> view(i) == file[f + i]
  }

  /** One address after one round. */
  lemma CopiedAt(seg: Segment, st: Place, view: nat -> byte, n: nat, a: nat)
    requires st.fileOffset <= seg.offset + seg.size
    ensures var r := Round(seg, st, view, n).at.mem;
            var len := seg.offset + seg.size - st.fileOffset;
            if From(seg, st) < n && Dest(seg, st) <= a < Dest(seg, st) + (if len < n then len else n)
            then a in r && r[a] == view(From(seg, st) + (a - Dest(seg, st)))
            else (a in r <==> a in st.mem) && (a in r ==> r[a] == st.mem[a])
  {
    hide CopyTo, From, Dest;
    var len := seg.offset + seg.size - st.fileOffset;
    CopyToAt(st.mem, Dest(seg, st), view, From(seg, st), if len < n then len else n, a);
  }

  /** One round and a byte of the segment: if the window has it, it goes where it
      belongs; if an earlier one had it, it stays. */
  lemma RoundByte(c: Segment, st: Place, file: seq<byte>, view: nat -> byte, n: nat, i: nat)
    requires st.fileOffset <= End(c) && Shows(view, file, st.fileOffset, n)
    requires i < c.size && c.offset + i < st.fileOffset + n
    requires c.offset + i < st.fileOffset ==> ByteLoaded(c, st.mem, file, i)
    ensures ByteLoaded(c, Round(c, st, view, n).at.mem, file, i)
  {
    hide Round;
    CopiedAt(c, st, view, n, c.addr + i);
    if c.offset + i >= st.fileOffset {
      assert view(c.offset + i - st.fileOffset) == file[c.offset + i];
    }
  }

  lemma RoundPart(c: Segment, st: Place, file: seq<byte>, view: nat -> byte, n: nat)
    requires st.fileOffset <= End(c) && Shows(view, file, st.fileOffset, n)
    requires PartIn(c, st.mem, file, st.fileOffset)
    ensures PartIn(c, Round(c, st, view, n).at.mem, file, st.fileOffset + n)
  {
    hide Round, ByteLoaded, Shows;
    forall i | 0 <= i < c.size && c.offset + i < st.fileOffset + n
      ensures ByteLoaded(c, Round(c, st, view, n).at.mem, file, i)
    {
      RoundByte(c, st, file, view, n, i);
    }
  }

  /** Segments at lower addresses stay: stray bytes go to higher ones. */
  lemma RoundBelow(c: Segment, st: Place, file: seq<byte>, view: nat -> byte, n: nat, d: Segment)
    requires st.fileOffset <= End(c) && d.addr + d.size <= c.addr && SegmentIn(d, st.mem, file)
    ensures SegmentIn(d, Round(c, st, view, n).at.mem, file)
  {
    hide Round;
    forall i | 0 <= i < d.size
      ensures ByteLoaded(d, Round(c, st, view, n).at.mem, file, i)
    {
      assert ByteLoaded(d, st.mem, file, i);
      CopiedAt(c, st, view, n, d.addr + i);
    }
  }

  lemma RoundIs(c: Segment, st: Place, view: nat -> byte, n: nat)
    requires st.fileOffset <= End(c)
    ensures var r := Round(c, st, view, n);
            && (End(c) >= st.fileOffset + n ==> r.Stop? && r.at.chunk == st.chunk && r.at.fileOffset == st.fileOffset + n)
            && (st.fileOffset + n <= c.offset ==> r.Stop? && r.at == Place(st.chunk, st.fileOffset + n, st.mem))
            && (End(c) < st.fileOffset + n ==>
                 r.Go? && r.at.chunk == st.chunk + 1 && r.at.fileOffset == End(c) && r.left == n - (End(c) - st.fileOffset))
  {
    hide CopyTo;
  }

  lemma PartAll(c: Segment, mem: Memory, file: seq<byte>, f: nat)
    requires PartIn(c, mem, file, f) && End(c) <= f
    ensures SegmentIn(c, mem, file)
  {
    hide ByteLoaded;
  }

  lemma PartNone(c: Segment, mem: Memory, file: seq<byte>, f: nat)
    requires f <= c.offset
    ensures PartIn(c, mem, file, f)
  {
  }

  /** One round for the current segment: all segments up to it are as they should be. */
  lemma RoundGood(chunks: seq<Segment>, st: Place, file: seq<byte>, view: nat -> byte, n: nat)
    requires Sorted(chunks) && Ascending(chunks) && st.chunk < |chunks| && Good(chunks, st, file, st.fileOffset)
    requires Shows(view, file, st.fileOffset, n)
    ensures var m := Round(chunks[st.chunk], st, view, n).at.mem;
            && PartIn(chunks[st.chunk], m, file, st.fileOffset + n)
            && forall j :: 0 <= j < st.chunk ==> SegmentIn(chunks[j], m, file)
  {
    hide Round, Shows, PartIn, SegmentIn, Sorted;
    var c := chunks[st.chunk];
    RoundPart(c, st, file, view, n);
    forall j | 0 <= j < st.chunk
      ensures SegmentIn(chunks[j], Round(c, st, view, n).at.mem, file)
    {
      RoundBelow(c, st, file, view, n, chunks[j]);
    }
  }

  /** The current segment goes on beyond the window, or ends with it. */
  lemma WindowInside(chunks: seq<Segment>, st: Place, file: seq<byte>, f: nat, view: nat -> byte, n: nat)
    requires Sorted(chunks) && Ascending(chunks) && Good(chunks, st, file, f) && Shows(view, file, f, n)
    requires st.chunk < |chunks| && f + n <= End(chunks[st.chunk])
    ensures Sane(chunks, st) && Good(chunks, Flushed(chunks, st, view, n), file, f + n)
  {
    hide Flushed, Round, Shows, PartIn, SegmentIn, Sorted, Ascending;
    RoundIs(chunks[st.chunk], st, view, n);
    RoundGood(chunks, st, file, view, n);
    FlushedStop(chunks, st, view, n);
  }

  lemma OrderAt(chunks: seq<Segment>, k: nat)
    requires Sorted(chunks) && k + 1 < |chunks|
    ensures End(chunks[k]) <= chunks[k + 1].offset
  {
  }

  lemma GoodNext(chunks: seq<Segment>, st: Place, file: seq<byte>, view: nat -> byte, n: nat)
    requires Sorted(chunks) && Ascending(chunks) && Good(chunks, st, file, st.fileOffset)
    requires Shows(view, file, st.fileOffset, n)
    requires st.chunk < |chunks| && End(chunks[st.chunk]) < st.fileOffset + n
    ensures Sane(chunks, st)
    ensures var r := Round(chunks[st.chunk], st, view, n); r.Go? && Good(chunks, r.at, file, End(chunks[st.chunk]))
    ensures Flushed(chunks, st, view, n) ==
            var r := Round(chunks[st.chunk], st, view, n); Flushed(chunks, r.at, view, r.left)
  {
    hide Flushed, Round, Shows, PartIn, SegmentIn, Ascending;
    var k := st.chunk;
    RoundIs(chunks[k], st, view, n);
    RoundGood(chunks, st, file, view, n);
    FlushedGo(chunks, st, view, n);
    var r := Round(chunks[k], st, view, n);
    PartAll(chunks[k], r.at.mem, file, st.fileOffset + n);
    if k + 1 < |chunks| {
      OrderAt(chunks, k);
      PartNone(chunks[k + 1], r.at.mem, file, End(chunks[k]));
    }
  }

  /** All segments are in memory: nothing changes any more. */
  lemma GoodRest(chunks: seq<Segment>, st: Place, file: seq<byte>, f: nat, f': nat)
    requires Good(chunks, st, file, f) && st.chunk == |chunks| && f <= f'
    ensures Good(chunks, st, file, f')
  {
    hide SegmentIn, Sorted;
  }

  /** The next segment starts beyond the window. */
  lemma GoodLater(chunks: seq<Segment>, st: Place, file: seq<byte>, e: nat, view: nat -> byte, left: nat)
    requires Sorted(chunks) && Good(chunks, st, file, e) && st.chunk < |chunks| && e + left <= chunks[st.chunk].offset
    ensures Sane(chunks, st) && Good(chunks, Flushed(chunks, st, view, left), file, e + left)
  {
    hide Flushed, Round, SegmentIn, PartIn, Sorted;
    RoundIs(chunks[st.chunk], st, view, left);
    FlushedStop(chunks, st, view, left);
    PartNone(chunks[st.chunk], st.mem, file, e + left);
  }

  /** One window, in which no segment starts after another has ended: what has been read
      of the segments is in memory, stray bytes notwithstanding. */
  lemma {:induction false} WindowLoads(chunks: seq<Segment>, st: Place, file: seq<byte>, f: nat, view: nat -> byte, n: nat)
    requires Sorted(chunks) && Ascending(chunks) && Apart(chunks, f, n)
    requires Good(chunks, st, file, f) && Shows(view, file, f, n)
    ensures Sane(chunks, st) && Good(chunks, Flushed(chunks, st, view, n), file, f + n)
    decreases |chunks| - st.chunk
  {
    hide Flushed, Round, Shows, PartIn, SegmentIn, Sorted, Ascending;
    var k := st.chunk;
    if k == |chunks| {
      FlushedDone(chunks, st, view, n);
      GoodRest(chunks, st, file, f, f + n);
    } else if f + n <= End(chunks[k]) {
      WindowInside(chunks, st, file, f, view, n);
    } else {
      GoodNext(chunks, st, file, view, n);
      RoundIs(chunks[k], st, view, n);
      var r := Round(chunks[k], st, view, n);
      if End(chunks[k]) == f {
        WindowLoads(chunks, r.at, file, f, view, n);
      } else if k + 1 == |chunks| {
        FlushedDone(chunks, r.at, view, r.left);
        GoodRest(chunks, r.at, file, End(chunks[k]), f + n);
      } else {
        GoodLater(chunks, r.at, file, End(chunks[k]), view, r.left);
      }
    }
  }

  // ----- stray bytes -----

  /** With one segment a flush is one round. */
  lemma OneSegment(seg: Segment, st: Place, view: nat -> byte, n: nat)
    requires Sane([seg], st) && st.chunk == 0
    ensures Flushed([seg], st, view, n) == Round(seg, st, view, n).at
  {
    hide Flushed, Round, Sorted;
    var chunks := [seg];
    assert chunks[0] == seg;
    var r := Round(seg, st, view, n);
    if r.Stop? {
      FlushedStop(chunks, st, view, n);
    } else {
      FlushedGo(chunks, st, view, n);
      FlushedDone(chunks, r.at, view, r.left);
    }
  }

  /** The bytes outside the segment that a flush overwrites: only when the segment
      starts inside the window and is smaller than what the window still holds. */
  lemma Overshoot(seg: Segment, st: Place, view: nat -> byte, n: nat, a: nat)
    requires Sane([seg], st) && n > 0 && (a < seg.addr || seg.addr + seg.size <= a)
    ensures var mem := Flushed([seg], st, view, n).mem;
            var gap := seg.offset - st.fileOffset;
            if st.chunk == 0 && 0 < gap < n && seg.addr + seg.size <= a < seg.addr + Min(gap + seg.size, n)
            then a in mem && mem[a] == view(gap + (a - seg.addr))
            else (a in mem <==> a in st.mem) && (a in mem ==> mem[a] == st.mem[a])
  {
    hide Flushed, CopyTo, Round;
    if st.chunk == 0 {
      OneSegment(seg, st, view, n);
      CopiedAt(seg, st, view, n, a);
    } else {
      FlushedDone([seg], st, view, n);
    }
  }

  // ----- all windows -----

  ghost predicate Views(windows: seq<seq<byte>>, views: seq<nat -> byte>)
  {
    && |views| == |windows|
    && (forall j, i :: 0 <= j < |windows| && 0 <= i < |windows[j]| ==> views[j](i) == windows[j][i])
  }

  /** All windows flushed in order; an empty one is skipped (lines 256-258). */
  ghost function FlushAll(chunks: seq<Segment>, st: Place, windows: seq<seq<byte>>, views: seq<nat -> byte>): (r: Place)
    requires |views| == |windows| && Sane(chunks, st)
    ensures Sane(chunks, r)
    decreases |windows|
  {
    if |windows| == 0 then st
    else
      var n := |windows| - 1;
      var before := FlushAll(chunks, st, windows[..n], views[..n]);
      if |windows[n]| == 0 then before else Flushed(chunks, before, views[n], |windows[n]|)
  }

  /** No window holds the end of a segment and the start of the next. */
  predicate AllApart(chunks: seq<Segment>, windows: seq<seq<byte>>)
  {
    |windows| == 0 ||
    (var n := |windows| - 1;
     AllApart(chunks, windows[..n]) && Apart(chunks, |Concat(windows[..n])|, |windows[n]|))
  }

  lemma {:induction false} OneIsApart(chunks: seq<Segment>, windows: seq<seq<byte>>)
    requires |chunks| <= 1
    ensures AllApart(chunks, windows)
    decreases |windows|
  {
    hide Concat;
    if |windows| > 0 {
      OneIsApart(chunks, windows[..|windows| - 1]);
    }
  }

  lemma GoodStart(chunks: seq<Segment>, mem: Memory, file: seq<byte>)
    requires Sorted(chunks)
    ensures Good(chunks, Place(0, 0, mem), file, 0)
  {
  }

  lemma WindowOf(windows: seq<seq<byte>>, views: seq<nat -> byte>, file: seq<byte>)
    requires |windows| > 0 && Views(windows, views) && |Concat(windows)| <= |file| && file[..|Concat(windows)|] == Concat(windows)
    ensures var n := |windows| - 1;
            && Concat(windows) == Concat(windows[..n]) + windows[n]
            && file[..|Concat(windows[..n])|] == Concat(windows[..n])
            && Shows(views[n], file, |Concat(windows[..n])|, |windows[n]|)
  {
    var n := |windows| - 1;
    var f := |Concat(windows[..n])|;
    assert Concat(windows) == Concat(windows[..n]) + windows[n];
    forall i | 0 <= i < |windows[n]|
      ensures views[n](i) == file[f + i]
    {
      assert file[..|Concat(windows)|][f + i] == windows[n][i];
    }
  }

  lemma {:induction false} FlushAllLoads(chunks: seq<Segment>, mem: Memory, windows: seq<seq<byte>>, views: seq<nat -> byte>, file: seq<byte>)
    requires Sorted(chunks) && Ascending(chunks) && AllApart(chunks, windows)
    requires Views(windows, views) && |Concat(windows)| <= |file| && file[..|Concat(windows)|] == Concat(windows)
    ensures Sane(chunks, Place(0, 0, mem))
    ensures Good(chunks, FlushAll(chunks, Place(0, 0, mem), windows, views), file, |Concat(windows)|)
    decreases |windows|
  {
    hide Flushed, Good, Sorted, Ascending, Apart, Shows;
    if |windows| == 0 {
      GoodStart(chunks, mem, file);
    } else {
      var n := |windows| - 1;
      WindowOf(windows, views, file);
      FlushAllLoads(chunks, mem, windows[..n], views[..n], file);
      if |windows[n]| > 0 {
        WindowLoads(chunks, FlushAll(chunks, Place(0, 0, mem), windows[..n], views[..n]), file, |Concat(windows[..n])|, views[n], |windows[n]|);
      }
    }
  }

  /** Every segment is in memory when all windows are flushed: for segments in order that
      lie inside the file, however it is cut into windows, as long as no window holds the
      end of one and the start of the next. */
  lemma SegmentsLoaded(chunks: seq<Segment>, mem: Memory, windows: seq<seq<byte>>, views: seq<nat -> byte>)
    requires Sorted(chunks) && Ascending(chunks) && AllApart(chunks, windows) && Views(windows, views)
    requires forall k :: 0 <= k < |chunks| ==> End(chunks[k]) <= |Concat(windows)|
    ensures Sane(chunks, Place(0, 0, mem))
    ensures forall k :: 0 <= k < |chunks| ==>
              SegmentIn(chunks[k], FlushAll(chunks, Place(0, 0, mem), windows, views).mem, Concat(windows))
  {
    hide Concat, FlushAll, SegmentIn, PartIn, AllApart;
    var data := Concat(windows);
    FlushAllLoads(chunks, mem, windows, views, data);
    var st := FlushAll(chunks, Place(0, 0, mem), windows, views);
    forall k | 0 <= k < |chunks|
      ensures SegmentIn(chunks[k], st.mem, data)
    {
      LastReached(chunks, st, data, k);
    }
  }

  /** At the end of the file the current segment is the last but empty ones. */
  lemma LastReached(chunks: seq<Segment>, st: Place, data: seq<byte>, k: nat)
    requires Good(chunks, st, data, |data|) && k < |chunks| && forall j :: 0 <= j < |chunks| ==> End(chunks[j]) <= |data|
    ensures SegmentIn(chunks[k], st.mem, data)
  {
    hide ByteLoaded;
    if k >= st.chunk {
      PartAll(chunks[st.chunk], st.mem, data, |data|);
      SortedEnds(chunks, st.chunk, k);
    }
  }

  lemma {:induction false} SortedEnds(chunks: seq<Segment>, i: nat, k: nat)
    requires Sorted(chunks) && i <= k < |chunks|
    ensures i < k ==> End(chunks[i]) <= chunks[k].offset
    decreases k - i
  {
    if i + 1 < k {
      SortedEnds(chunks, i, k - 1);
    }
  }

  // ----- why windows must keep segments apart -----

  /** Segment `q` has been begun, or is over. */
  ghost predicate Past(chunks: seq<Segment>, st: Place, q: nat)
    requires q < |chunks|
  {
    st.chunk > q || (st.chunk == q && st.fileOffset > chunks[q].offset)
  }

  /** The first byte of `q` is in memory, as `x`. */
  ghost predicate FirstByte(chunks: seq<Segment>, st: Place, q: nat, x: byte)
    requires q < |chunks|
  {
    Past(chunks, st, q) && chunks[q].addr in st.mem && st.mem[chunks[q].addr] == x
  }

  lemma RoundKeepsFirst(chunks: seq<Segment>, st: Place, view: nat -> byte, n: nat, q: nat, x: byte)
    requires Sane(chunks, st) && Ascending(chunks) && st.chunk < |chunks| && q < |chunks| && chunks[q].size > 0
    requires FirstByte(chunks, st, q, x)
    ensures FirstByte(chunks, Round(chunks[st.chunk], st, view, n).at, q, x)
  {
    hide Round, Sorted;
    var c := chunks[st.chunk];
    RoundIs(c, st, view, n);
    CopiedAt(c, st, view, n, chunks[q].addr);
  }

  /** Later windows do not come back to it. */
  lemma {:induction false} FlushKeepsFirst(chunks: seq<Segment>, st: Place, view: nat -> byte, n: nat, q: nat, x: byte)
    requires Sane(chunks, st) && Ascending(chunks) && q < |chunks| && chunks[q].size > 0
    requires FirstByte(chunks, st, q, x)
    ensures FirstByte(chunks, Flushed(chunks, st, view, n), q, x)
    decreases |chunks| - st.chunk
  {
    hide Flushed, Round, Sorted, Ascending, FirstByte;
    if st.chunk == |chunks| {
      FlushedDone(chunks, st, view, n);
    } else {
      RoundKeepsFirst(chunks, st, view, n, q, x);
      var r := Round(chunks[st.chunk], st, view, n);
      if r.Stop? {
        FlushedStop(chunks, st, view, n);
      } else {
        FlushedGo(chunks, st, view, n);
        FlushKeepsFirst(chunks, r.at, view, r.left, q, x);
      }
    }
  }

  lemma {:induction false} FlushAllKeepsFirst(chunks: seq<Segment>, st: Place, windows: seq<seq<byte>>, views: seq<nat -> byte>,
                                              m: nat, q: nat, x: byte)
    requires |views| == |windows| && m <= |windows| && Sane(chunks, st) && Ascending(chunks) && q < |chunks| && chunks[q].size > 0
    requires FirstByte(chunks, FlushAll(chunks, st, windows[..m], views[..m]), q, x)
    ensures FirstByte(chunks, FlushAll(chunks, st, windows, views), q, x)
    decreases |windows|
  {
    hide Flushed, Sorted, Ascending, FirstByte;
    if m == |windows| {
      assert windows[..m] == windows && views[..m] == views;
    } else {
      var n := |windows| - 1;
      assert windows[..n][..m] == windows[..m] && views[..n][..m] == views[..m];
      FlushAllKeepsFirst(chunks, st, windows[..n], views[..n], m, q, x);
      if |windows[n]| > 0 {
        FlushKeepsFirst(chunks, FlushAll(chunks, st, windows[..n], views[..n]), views[n], |windows[n]|, q, x);
      }
    }
  }

  /** Segment `k` ends in a window, away from its start, and the next one starts in it. */
  ghost predicate Clash(chunks: seq<Segment>, f: nat, n: nat, k: nat)
  {
    k + 1 < |chunks| && f < End(chunks[k]) < f + n && chunks[k + 1].offset < f + n
  }

  lemma {:induction false} FirstClash(chunks: seq<Segment>, f: nat, n: nat, k0: nat) returns (k: nat)
    requires Clash(chunks, f, n, k0)
    ensures Clash(chunks, f, n, k) && forall j :: 0 <= j < k ==> !Clash(chunks, f, n, j)
    decreases k0
  {
    if j :| 0 <= j < k0 && Clash(chunks, f, n, j) {
      k := FirstClash(chunks, f, n, j);
    } else {
      k := k0;
    }
  }

  /** Then the first byte of the next one is taken from too early in the window. */
  lemma {:induction false} WindowMisses(chunks: seq<Segment>, st: Place, file: seq<byte>, f: nat, view: nat -> byte, n: nat, k: nat)
    requires Sorted(chunks) && Ascending(chunks) && Good(chunks, st, file, f) && Shows(view, file, f, n)
    requires Clash(chunks, f, n, k) && chunks[k + 1].size > 0 && forall j :: 0 <= j < k ==> !Clash(chunks, f, n, j)
    ensures Sane(chunks, st) && End(chunks[k]) <= chunks[k + 1].offset
    ensures FirstByte(chunks, Flushed(chunks, st, view, n), k + 1, view(chunks[k + 1].offset - End(chunks[k])))
    decreases |chunks| - st.chunk
  {
    hide Flushed, Round, Shows, PartIn, SegmentIn, Ascending, FirstByte;
    OrderAt(chunks, k);
    var c := st.chunk;
    assert c <= k;
    if c < k {
      SortedEnds(chunks, c, k);
      OrderAt(chunks, c);
      SortedEnds(chunks, c + 1, k);
      assert !Clash(chunks, f, n, c);
      GoodNext(chunks, st, file, view, n);
      RoundIs(chunks[c], st, view, n);
      var r := Round(chunks[c], st, view, n);
      WindowMisses(chunks, r.at, file, f, view, n, k);
    } else {
      RoundIs(chunks[k], st, view, n);
      FlushedGo(chunks, st, view, n);
      var r := Round(chunks[k], st, view, n);
      NextTaken(chunks, r.at, view, r.left);
    }
  }

  /** A segment that begins where the one before ended, in what is left of a window. */
  lemma NextTaken(chunks: seq<Segment>, st: Place, view: nat -> byte, left: nat)
    requires Sane(chunks, st) && Ascending(chunks) && st.chunk < |chunks| && chunks[st.chunk].size > 0
    requires st.fileOffset <= chunks[st.chunk].offset < st.fileOffset + left
    ensures FirstByte(chunks, Flushed(chunks, st, view, left), st.chunk, view(chunks[st.chunk].offset - st.fileOffset))
  {
    hide Flushed, Round, Sorted, Ascending;
    var q := st.chunk;
    var c := chunks[q];
    RoundIs(c, st, view, left);
    CopiedAt(c, st, view, left, c.addr);
    var r := Round(c, st, view, left);
    if r.Stop? {
      FlushedStop(chunks, st, view, left);
      StopAt(c, st, view, left);
    } else {
      FlushedGo(chunks, st, view, left);
      FlushKeepsFirst(chunks, r.at, view, r.left, q, view(c.offset - st.fileOffset));
    }
  }

  lemma StopAt(c: Segment, st: Place, view: nat -> byte, left: nat)
    requires st.fileOffset <= End(c) && Round(c, st, view, left).Stop?
    ensures Round(c, st, view, left).at.fileOffset == st.fileOffset + left
  {
    hide CopyTo;
  }

  // ----- the same cutting of another file -----

  ghost predicate SameCut(a: seq<seq<byte>>, b: seq<seq<byte>>)
  {
    |a| == |b| && forall j :: 0 <= j < |a| ==> |a[j]| == |b[j]|
  }

  lemma {:induction false} SameCutApart(chunks: seq<Segment>, a: seq<seq<byte>>, b: seq<seq<byte>>)
    requires SameCut(a, b)
    ensures |Concat(a)| == |Concat(b)| && (AllApart(chunks, a) <==> AllApart(chunks, b))
    decreases |a|
  {
    hide Apart;
    if |a| > 0 {
      SameCutApart(chunks, a[..|a| - 1], b[..|b| - 1]);
    }
  }

  function CutLike(file: seq<byte>, cut: seq<seq<byte>>): (r: seq<seq<byte>>)
    requires |file| == |Concat(cut)|
    ensures SameCut(r, cut) && Concat(r) == file
    decreases |cut|
  {
    if |cut| == 0 then []
    else
      var n := |cut| - 1;
      var f := |Concat(cut[..n])|;
      var front := CutLike(file[..f], cut[..n]);
      ConcatAppend(front, file[f..]);
      front + [file[f..]]
  }

  function PlainViews(windows: seq<seq<byte>>): (r: seq<nat -> byte>)
    ensures Views(windows, r)
  {
    if |windows| == 0 then []
    else
      var w := windows[|windows| - 1];
      PlainViews(windows[..|windows| - 1]) + [(i: nat) => if i < |w| then w[i] else 0]
  }

  ghost predicate AllLoaded(chunks: seq<Segment>, mem: Memory, windows: seq<seq<byte>>, views: seq<nat -> byte>)
    requires |views| == |windows| && Sane(chunks, Place(0, 0, mem))
  {
    forall k :: 0 <= k < |chunks| ==> SegmentIn(chunks[k], FlushAll(chunks, Place(0, 0, mem), windows, views).mem, Concat(windows))
  }

  /** Whatever the file holds, all segments are loaded. */
  ghost predicate LoadsAny(chunks: seq<Segment>, mem: Memory, cut: seq<seq<byte>>)
    requires Sane(chunks, Place(0, 0, mem))
  {
    forall windows, views :: SameCut(windows, cut) && Views(windows, views) ==> AllLoaded(chunks, mem, windows, views)
  }

  lemma {:induction false} FirstBadWindow(chunks: seq<Segment>, cut: seq<seq<byte>>) returns (m: nat)
    requires !AllApart(chunks, cut)
    ensures m < |cut| && AllApart(chunks, cut[..m]) && !Apart(chunks, |Concat(cut[..m])|, |cut[m]|)
    decreases |cut|
  {
    hide Concat, Apart;
    var n := |cut| - 1;
    if AllApart(chunks, cut[..n]) {
      m := n;
    } else {
      m := FirstBadWindow(chunks, cut[..n]);
      assert cut[..n][..m] == cut[..m];
    }
  }

  /** A file that is zero but for the first byte of one segment. */
  function Spot(size: nat, p: nat): (r: seq<byte>)
    ensures |r| == size && forall i :: 0 <= i < size ==> r[i] == if i == p then 1 else 0
  {
    seq(size, i => if i == p then 1 else 0)
  }

  lemma PrefixOf(windows: seq<seq<byte>>, m: nat)
    requires m < |windows|
    ensures |Concat(windows[..m])| + |windows[m]| <= |Concat(windows)|
    ensures Concat(windows)[..|Concat(windows[..m])|] == Concat(windows[..m])
    ensures Concat(windows)[|Concat(windows[..m])|..|Concat(windows[..m])| + |windows[m]|] == windows[m]
    decreases |windows|
  {
    var n := |windows| - 1;
    if m < n {
      assert windows[..n][..m] == windows[..m];
      PrefixOf(windows[..n], m);
    }
  }

  lemma ClashFails(chunks: seq<Segment>, mem: Memory, cut: seq<seq<byte>>)
    requires Sorted(chunks) && Ascending(chunks) && !AllApart(chunks, cut)
    requires forall k :: 0 <= k < |chunks| ==> chunks[k].size > 0 && End(chunks[k]) <= |Concat(cut)|
    ensures Sane(chunks, Place(0, 0, mem)) && !LoadsAny(chunks, mem, cut)
  {
    hide Concat, FlushAll, Sorted, Ascending, AllApart, Good, SegmentIn, Spot, CutLike, PlainViews;
    var m := FirstBadWindow(chunks, cut);
    var f, n := |Concat(cut[..m])|, |cut[m]|;
    var k0 :| 0 <= k0 < |chunks| - 1 && f < End(chunks[k0]) < f + n && f + n > chunks[k0 + 1].offset;
    var k := FirstClash(chunks, f, n, k0);
    var q := k + 1;
    var file := Spot(|Concat(cut)|, chunks[q].offset);
    var windows := CutLike(file, cut);
    var views := PlainViews(windows);
    SaneStart(chunks, mem);
    MissedByte(chunks, mem, windows, views, cut, m, k, file);
    assert !AllLoaded(chunks, mem, windows, views);
  }

  lemma SaneStart(chunks: seq<Segment>, mem: Memory)
    requires Sorted(chunks)
    ensures Sane(chunks, Place(0, 0, mem))
  {
  }

  lemma MissedByte(chunks: seq<Segment>, mem: Memory, windows: seq<seq<byte>>, views: seq<nat -> byte>, cut: seq<seq<byte>>,
                   m: nat, k: nat, file: seq<byte>)
    requires Sorted(chunks) && Ascending(chunks) && SameCut(windows, cut) && Views(windows, views) && Concat(windows) == file
    requires m < |cut| && AllApart(chunks, cut[..m]) && k + 1 < |chunks| && chunks[k + 1].size > 0
    requires var f, n := |Concat(cut[..m])|, |cut[m]|;
             Clash(chunks, f, n, k) && forall j :: 0 <= j < k ==> !Clash(chunks, f, n, j)
    requires chunks[k + 1].offset < |file| && file == Spot(|file|, chunks[k + 1].offset)
    ensures Sane(chunks, Place(0, 0, mem))
    ensures !SegmentIn(chunks[k + 1], FlushAll(chunks, Place(0, 0, mem), windows, views).mem, Concat(windows))
  {
    hide Concat, Flushed, FlushAll, Sorted, Ascending, AllApart, Good;
    var ws, vs := windows[..m], views[..m];
    SameCutApart(chunks, ws, cut[..m]);
    PrefixOf(windows, m);
    FlushAllLoads(chunks, mem, ws, vs, file);
    var f, n := |Concat(ws)|, |windows[m]|;
    ShowsSlice(windows, views, file, m);
    var st := FlushAll(chunks, Place(0, 0, mem), ws, vs);
    WindowMisses(chunks, st, file, f, views[m], n, k);
    var q := k + 1;
    var x := views[m](chunks[q].offset - End(chunks[k]));
    assert x == file[f + (chunks[q].offset - End(chunks[k]))] == 0;
    FlushAllNext(chunks, Place(0, 0, mem), windows, views, m);
    FlushAllKeepsFirst(chunks, Place(0, 0, mem), windows, views, m + 1, q, 0);
    assert !ByteLoaded(chunks[q], FlushAll(chunks, Place(0, 0, mem), windows, views).mem, file, 0);
  }

  lemma ShowsSlice(windows: seq<seq<byte>>, views: seq<nat -> byte>, file: seq<byte>, m: nat)
    requires Views(windows, views) && Concat(windows) == file && m < |windows|
    ensures Shows(views[m], file, |Concat(windows[..m])|, |windows[m]|)
  {
    hide Concat;
    PrefixOf(windows, m);
    var f := |Concat(windows[..m])|;
    forall i | 0 <= i < |windows[m]|
      ensures views[m](i) == file[f + i]
    {
      assert file[f..f + |windows[m]|][i] == windows[m][i];
    }
  }

  lemma FlushAllNext(chunks: seq<Segment>, st: Place, windows: seq<seq<byte>>, views: seq<nat -> byte>, m: nat)
    requires m < |windows| == |views| && Sane(chunks, st) && |windows[m]| > 0
    ensures FlushAll(chunks, st, windows[..m + 1], views[..m + 1]) ==
            Flushed(chunks, FlushAll(chunks, st, windows[..m], views[..m]), views[m], |windows[m]|)
  {
    hide Flushed, Sane;
    assert windows[..m + 1][..m] == windows[..m] && views[..m + 1][..m] == views[..m];
  }

  /** All segments are loaded, whatever the file holds, if and only if no window holds the
      end of one, away from its start, and the start of the next. */
  lemma LoadedExact(chunks: seq<Segment>, mem: Memory, cut: seq<seq<byte>>)
    requires Sorted(chunks) && Ascending(chunks)
    requires forall k :: 0 <= k < |chunks| ==> chunks[k].size > 0 && End(chunks[k]) <= |Concat(cut)|
    ensures Sane(chunks, Place(0, 0, mem))
    ensures LoadsAny(chunks, mem, cut) <==> AllApart(chunks, cut)
  {
    hide Concat, FlushAll, Sorted, Ascending, AllApart, SegmentIn;
    SaneStart(chunks, mem);
    if AllApart(chunks, cut) {
      forall windows, views | SameCut(windows, cut) && Views(windows, views)
        ensures AllLoaded(chunks, mem, windows, views)
      {
        SameCutApart(chunks, windows, cut);
        SegmentsLoaded(chunks, mem, windows, views);
      }
    } else {
      ClashFails(chunks, mem, cut);
    }
  }

  // ----- two segments in one window -----

  /** A window of `n` bytes that holds the end of `a` and the start of `b`: byte `i` of
      `b` is taken from where it would be if the window began at the end of `a`. */
  lemma SecondSegmentFrom(a: Segment, b: Segment, st: Place, view: nat -> byte, n: nat, i: nat)
    requires Sane([a, b], st) && st.chunk == 0 && End(a) < st.fileOffset + n
    requires i < b.size && b.offset + i < st.fileOffset + n
    ensures End(a) <= b.offset
    ensures var m := Flushed([a, b], st, view, n).mem;
            b.addr + i in m && m[b.addr + i] == view(b.offset - End(a) + i)
  {
    hide Flushed, CopyTo, Round;
    var chunks := [a, b];
    assert chunks[0] == a && chunks[1] == b;
    FirstRound(a, st, view, n);
    FlushedGo(chunks, st, view, n);
    var r1 := Round(a, st, view, n);
    var r2 := Round(b, r1.at, view, r1.left);
    CopiedAt(b, r1.at, view, r1.left, b.addr + i);
    if r2.Stop? {
      FlushedStop(chunks, r1.at, view, r1.left);
    } else {
      FlushedGo(chunks, r1.at, view, r1.left);
      FlushedDone(chunks, r2.at, view, r2.left);
    }
  }

  lemma FirstRound(a: Segment, st: Place, view: nat -> byte, n: nat)
    requires st.fileOffset <= End(a) < st.fileOffset + n
    ensures var r := Round(a, st, view, n);
            r.Go? && r.at.chunk == st.chunk + 1 && r.at.fileOffset == End(a) && r.left == n - (End(a) - st.fileOffset)
  {
    hide CopyTo;
  }

  /** Byte `i` of `b` is the one that a window which begins at `f` has for it. */
  ghost predicate ByteRight(b: Segment, mem: Memory, view: nat -> byte, f: nat, i: nat)
  {
    b.addr + i in mem && f <= b.offset + i && mem[b.addr + i] == view(b.offset + i - f)
  }

  /** What this window has of `b` comes out right. */
  ghost predicate SecondRight(a: Segment, b: Segment, st: Place, view: nat -> byte, n: nat)
    requires Sane([a, b], st)
  {
    forall i :: 0 <= i < b.size && b.offset + i < st.fileOffset + n ==>
                  ByteRight(b, Flushed([a, b], st, view, n).mem, view, st.fileOffset, i)
  }

  function OneAt(k: nat): (r: nat -> byte)
    ensures forall x: nat :: r(x) == if x == k then 1 else 0
  {
    (x: nat) => if x == k then 1 else 0
  }

  lemma InOrder(a: Segment, b: Segment, st: Place)
    requires Sane([a, b], st) && st.chunk == 0
    ensures st.fileOffset <= End(a) <= b.offset
  {
    assert [a, b][0] == a && [a, b][1] == b;
  }

  /** Whatever the bytes are, the second segment comes out right: that holds if and
      only if the first one had ended before this window. */
  lemma SecondSegmentExact(a: Segment, b: Segment, st: Place, n: nat)
    requires Sane([a, b], st) && st.chunk == 0 && End(a) < st.fileOffset + n
    requires b.size > 0 && b.offset < st.fileOffset + n
    ensures (forall view: nat -> byte :: SecondRight(a, b, st, view, n)) <==> End(a) == st.fileOffset
  {
    hide Flushed, Sane, OneAt, End;
    InOrder(a, b, st);
    if End(a) != st.fileOffset {
      var view := OneAt(b.offset - st.fileOffset);
      SecondSegmentFrom(a, b, st, view, n, 0);
      assert !ByteRight(b, Flushed([a, b], st, view, n).mem, view, st.fileOffset, 0);
      assert !SecondRight(a, b, st, view, n);
    } else {
      forall view: nat -> byte
        ensures SecondRight(a, b, st, view, n)
      {
        SecondRightAll(a, b, st, view, n);
      }
    }
  }

  lemma SecondRightAll(a: Segment, b: Segment, st: Place, view: nat -> byte, n: nat)
    requires Sane([a, b], st) && st.chunk == 0 && End(a) == st.fileOffset && n > 0
    ensures SecondRight(a, b, st, view, n)
  {
    hide Flushed, Sane, End;
    InOrder(a, b, st);
    var m := Flushed([a, b], st, view, n).mem;
    forall i | 0 <= i < b.size && b.offset + i < st.fileOffset + n
      ensures ByteRight(b, m, view, st.fileOffset, i)
    {
      SecondSegmentFrom(a, b, st, view, n, i);
    }
  }

  /** A concrete kernel: two one-byte segments next to each other. */
  lemma TwoSegmentsGoWrong()
    ensures var a, b, st := Segment(100, 0, 1), Segment(200, 1, 1), Place(0, 0, map[]);
            Sane([a, b], st) && !SecondRight(a, b, st, OneAt(1), 2)
  {
    hide Flushed, OneAt;
    var a, b, st := Segment(100, 0, 1), Segment(200, 1, 1), Place(0, 0, map[]);
    SecondSegmentFrom(a, b, st, OneAt(1), 2, 0);
    assert !ByteRight(b, Flushed([a, b], st, OneAt(1), 2).mem, OneAt(1), 0, 0);
  }

  // ----- the routine -----

  function AsBits(s: seq<byte>): (r: seq<bv8>)
    ensures |r| == |s|
  {
    seq(|s|, i requires 0 <= i < |s| => s[i] as bv8)
  }

  class Output {
    const chunks: seq<Segment>
    const register: Register
    var chunk: nat
    var fileOffset: nat
    var mem: Memory
    var bytesOut: nat

    ghost predicate Valid()
      reads this
    {
      Sane(chunks, Place(chunk, fileOffset, mem))
    }

    /** `clear_bufs`, with the segments found in the first window. */
    constructor (segs: seq<Segment>, memory: Memory)
      requires Sorted(segs)
      ensures Valid() && chunks == segs && chunk == 0 && fileOffset == 0 && mem == memory && bytesOut == 0
      ensures fresh(register) && register.crc == ONES
    {
      chunks := segs;
      register := new Register();
      chunk, fileOffset, mem, bytesOut := 0, 0, memory, 0;
    }

    /** Lines 254-315 for a window whose `outcnt` bytes are `data`. */
    method FlushWindow(data: seq<byte>, view: nat -> byte)
      requires Valid() && forall i :: 0 <= i < |data| ==> view(i) == data[i]
      modifies this, register
      ensures Valid()
      ensures register.crc == Feed(old(register.crc), AsBits(data)) && bytesOut == old(bytesOut) + |data|
      ensures |data| > 0 ==>
                Place(chunk, fileOffset, mem) == Flushed(chunks, old(Place(chunk, fileOffset, mem)), view, |data|)
      ensures |data| == 0 ==> chunk == old(chunk) && fileOffset == old(fileOffset) && mem == old(mem)
    {
      hide Feed, AsBits, Flushed;
      if |data| == 0 {
        FeedNothing(register.crc, AsBits(data));
        return;
      }
      var _ := register.Update(AsBits(data));
      bytesOut := bytesOut + |data|;
      Scatter(|data|, view);
    }

    /** Lines 268-314. */
    method Scatter(outcnt: nat, view: nat -> byte)
      requires Valid()
      modifies this`chunk, this`fileOffset, this`mem
      ensures Valid()
      ensures Place(chunk, fileOffset, mem) == Flushed(chunks, old(Place(chunk, fileOffset, mem)), view, outcnt)
    {
      hide CopyTo, Flushed, Round, Sorted;
      var left: nat := outcnt;
      ghost var goal := Flushed(chunks, Place(chunk, fileOffset, mem), view, outcnt);
      while chunk < |chunks|
        invariant Valid() && goal == Flushed(chunks, Place(chunk, fileOffset, mem), view, left)
        decreases |chunks| - chunk
      {
        ghost var st, left0 := Place(chunk, fileOffset, mem), left;
        var more;
        more, left := ScatterOne(left, view);
        if !more {
          FlushedStop(chunks, st, view, left0);
          return;
        }
        FlushedGo(chunks, st, view, left0);
      }
      FlushedDone(chunks, Place(chunk, fileOffset, mem), view, left);
    }

    /** One round of that loop, with what is left of `outcnt`. */
    method ScatterOne(left: nat, view: nat -> byte) returns (more: bool, rest: nat)
      requires chunk < |chunks| && fileOffset <= chunks[chunk].offset + chunks[chunk].size
      modifies this`chunk, this`fileOffset, this`mem
      ensures var r := Round(old(chunks[chunk]), old(Place(chunk, fileOffset, mem)), view, left);
              && r.at == Place(chunk, fileOffset, mem) && more == r.Go? && (more ==> rest == r.left)
    {
      hide CopyTo;
      more, rest := false, left;
      var c := chunks[chunk];
      var at := fileOffset - c.offset;
      var from, dest := 0, c.addr + at;
      if at < 0 {
        from, dest := -at, c.addr;
      }
      if from >= left {
        fileOffset := fileOffset + left;
        return;
      }
      var n := c.offset + c.size - fileOffset;
      if n > left {
        n := left;
      }
      mem := CopyTo(mem, dest, view, from, n);
      fileOffset := fileOffset + n;
      if n < left {
        rest := left - n;
        chunk := chunk + 1;
        more := true;
      }
    }
  }

  lemma FeedNothing(c: bv32, s: seq<bv8>)
    requires |s| == 0
    ensures Feed(c, s) == c
  {
  }
}
