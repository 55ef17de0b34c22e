/** The boot loader's own ext2 reader: block lookup with two cached index blocks
    (fs/ext2.c:206-298). */
module ExtReader {
  import opened Bits
  import opened BitStream
  import opened PointerCache

  const NDIR: nat := 12
  const IND: nat := 12
  const DIND: nat := 13
  const TIND: nat := 14
  const NROOT: nat := 15

  /** The reader holds block numbers in an `int`, and multiplies in 64 bits. */
  predicate Ext(d: Dev)
  {
    Sized(d) && d.rule == Signed(d.bs)
  }

  /** The pointers in an inode. */
  predicate IsRoot(root: seq<nat>)
  {
    |root| == NROOT && forall i :: 0 <= i < NROOT ==> root[i] < WORD
  }

  /** `directlim`, `ind1lim` and `ind2lim`. */
  const DIRECTLIM: nat := NDIR - 1

  function Ind1lim(d: Dev): (r: nat)
    requires Sized(d)
  {
    Ptrs(d) + DIRECTLIM
  }

  function Ind2lim(d: Dev): (r: nat)
    requires Sized(d)
  {
    Ptrs(d) * Ptrs(d) + DIRECTLIM
  }

  /** The two indices of a block in the double-indirect range. */
  function HighIndex(d: Dev, off: nat): (r: nat)
    requires Sized(d) && Ind1lim(d) < off <= Ind2lim(d)
    ensures r < Ptrs(d)
  {
    HighFits(Ptrs(d), off - (Ind1lim(d) + 1));
    (off - (Ind1lim(d) + 1)) / Ptrs(d)
  }

  function LowIndex(d: Dev, off: nat): (r: nat)
    requires Sized(d) && Ind1lim(d) < off
    ensures r < Ptrs(d)
  {
    (off - (Ind1lim(d) + 1)) % Ptrs(d)
  }

  lemma HighFits(n: nat, x: nat)
    requires n > 0 && x < n * n
    ensures x / n < n
  {
    BlockOf(0, n, n, x);
  }

  // ----- the file as ext2 has it -----

  /** A pointer in block `b`; zero if there is no such block. */
  function PtrIn(d: Dev, b: nat, k: nat): (r: nat)
  {
    if b == 0 then 0
    else
      match Found(d, b)
      case Unreadable => 0
      case Contents(data) => Ptr(data, k)
  }

  /** The number of blocks below a pointer with `level` levels of index blocks. */
  function Span(d: Dev, level: nat): (r: nat)
    requires Sized(d)
    ensures r > 0
  {
    if level == 0 then 1 else
      SpanPositive(Ptrs(d), Span(d, level - 1));
      Ptrs(d) * Span(d, level - 1)
  }

  lemma SpanPositive(a: nat, b: nat)
    requires a > 0 && b > 0
    ensures a * b > 0
  {
  }

  /** Block `x` of those. */
  function Under(d: Dev, b: nat, level: nat, x: nat): (r: nat)
    requires Sized(d) && x < Span(d, level)
    decreases level
  {
    if level == 0 then b
    else
      BlockOf(0, Span(d, level - 1), Ptrs(d), x);
      Under(d, PtrIn(d, b, x / Span(d, level - 1)), level - 1, x % Span(d, level - 1))
  }

  /** The block that holds a block of the file: twelve direct pointers, then three
      trees. */
  function Mapped(d: Dev, root: seq<nat>, off: nat): (r: nat)
    requires Sized(d) && |root| == NROOT
  {
    var s1, s2, s3 := Span(d, 1), Span(d, 2), Span(d, 3);
    if off < NDIR then root[off]
    else if off < NDIR + s1 then Under(d, root[IND], 1, off - NDIR)
    else if off < NDIR + s1 + s2 then Under(d, root[DIND], 2, off - NDIR - s1)
    else if off < NDIR + s1 + s2 + s3 then Under(d, root[TIND], 3, off - NDIR - s1 - s2)
    else 0
  }

  /** The same where block numbers are what they are. */
  function FileBlock(d: Dev, root: seq<nat>, off: nat): (r: nat)
    requires Sized(d) && |root| == NROOT
  {
    Mapped(Ideal(d), root, off)
  }

  // ----- the routine's own map -----

  /** The pointer that a lookup starts from, and the indices that it takes. */
  function From(d: Dev, root: seq<nat>, off: nat): (r: nat)
    requires Sized(d) && |root| == NROOT
  {
    if off <= DIRECTLIM then root[off]
    else if off <= Ind1lim(d) then root[IND]
    else if off <= Ind2lim(d) then root[DIND]
    else 0
  }

  function Way(d: Dev, off: nat): (r: seq<nat>)
    requires Sized(d)
    ensures Fits(d, r) && |r| <= 2
  {
    if off <= DIRECTLIM then []
    else if off <= Ind1lim(d) then [off - (DIRECTLIM + 1)]
    else if off <= Ind2lim(d) then [HighIndex(d, off), LowIndex(d, off)]
    else []
  }

  /** A block that cannot be found is a hole. */
  function OrHole(a: Answer): (r: nat)
  {
    if a.Block? then a.b else 0
  }

  /** What `ext2_blkno` finds, looked up afresh. */
  function MapBlock(d: Dev, root: seq<nat>, off: nat): (r: nat)
    requires Sized(d) && |root| == NROOT
  {
    OrHole(Walk(d, From(d, root, off), Way(d, off)))
  }

  lemma WalkSingle(d: Dev, b: nat, k: nat)
    ensures OrHole(Walk(d, b, [k])) == PtrIn(d, b, k)
  {
    hide Found, Ptr;
    assert [k][1..] == [];
  }

  lemma WalkDouble(d: Dev, b: nat, h: nat, l: nat)
    ensures OrHole(Walk(d, b, [h, l])) == PtrIn(d, PtrIn(d, b, h), l)
  {
    hide Found, Ptr;
    assert [h, l][1..] == [l] && [h, l][0] == h;
    var found := Found(d, b);
    if b != 0 && found.Contents? {
      assert Walk(d, b, [h, l]) == Walk(d, Ptr(found.data, h), [l]);
      WalkSingle(d, Ptr(found.data, h), l);
    }
  }

  lemma SpanOne(d: Dev)
    requires Sized(d)
    ensures Span(d, 0) == 1 && Span(d, 1) == Ptrs(d) && Span(d, 2) == Ptrs(d) * Ptrs(d)
  {
    assert Span(d, 0) == 1;
    assert Span(d, 1) == Ptrs(d) * Span(d, 0);
    assert Span(d, 2) == Ptrs(d) * Span(d, 1);
  }

  lemma UnderOne(d: Dev, b: nat, x: nat)
    requires Sized(d) && x < Ptrs(d)
    ensures x < Span(d, 1) && Under(d, b, 1, x) == PtrIn(d, b, x)
  {
    hide PtrIn;
    SpanOne(d);
    assert x / 1 == x && x % 1 == 0;
    assert Under(d, PtrIn(d, b, x), 0, 0) == PtrIn(d, b, x);
  }

  lemma UnderTwo(d: Dev, b: nat, x: nat)
    requires Sized(d) && x < Ptrs(d) * Ptrs(d)
    ensures x / Ptrs(d) < Ptrs(d) && x < Span(d, 2)
    ensures Under(d, b, 2, x) == PtrIn(d, PtrIn(d, b, x / Ptrs(d)), x % Ptrs(d))
  {
    hide PtrIn;
    SpanOne(d);
    HighFits(Ptrs(d), x);
    UnderOne(d, PtrIn(d, b, x / Ptrs(d)), x % Ptrs(d));
  }

  /** The index blocks on the way have numbers below 2^31. */
  predicate NearIndex(d: Dev, root: seq<nat>, off: nat)
    requires Sized(d) && |root| == NROOT
  {
    NearWay(d, From(d, root, off), Way(d, off))
  }

  /** The routine's limit is one index block short of the end of the double-indirect
      tree: up to it the lookup is right, and beyond it gives a hole. */
  lemma MapExact(d: Dev, root: seq<nat>, off: nat)
    requires Ext(d) && IsRoot(root)
    ensures off <= Ind2lim(d) && NearIndex(d, root, off) ==> MapBlock(d, root, off) == FileBlock(d, root, off)
    ensures off > Ind2lim(d) ==> MapBlock(d, root, off) == 0
    ensures Ind2lim(d) + 1 + Ptrs(d) == NDIR + Span(d, 1) + Span(d, 2)
  {
    hide PtrIn, Under, Ptrs, Walk, NearWay;
    SpanOne(d);
    if off > Ind2lim(d) || off <= DIRECTLIM {
      assert Walk(d, From(d, root, off), []) == Block(From(d, root, off)) by {
        WalkNone(d, From(d, root, off));
      }
    } else if NearIndex(d, root, off) {
      NearWalk(d, From(d, root, off), Way(d, off));
      IdealMapped(Ideal(d), root, off);
    }
  }

  lemma WalkNone(d: Dev, b: nat)
    ensures Walk(d, b, []) == Block(b)
  {
  }

  lemma IdealMapped(d: Dev, root: seq<nat>, off: nat)
    requires Sized(d) && |root| == NROOT && NDIR <= off <= Ind2lim(d)
    ensures OrHole(Walk(d, From(d, root, off), Way(d, off))) == Mapped(d, root, off)
  {
    hide PtrIn, Under, Ptrs, Walk;
    SpanOne(d);
    if off < NDIR + Ptrs(d) {
      UnderOne(d, root[IND], off - NDIR);
      WalkSingle(d, root[IND], off - NDIR);
    } else {
      UnderTwo(d, root[DIND], off - (Ind1lim(d) + 1));
      WalkDouble(d, root[DIND], HighIndex(d, off), LowIndex(d, off));
    }
  }

  // ----- the routine -----

  /** Block `b` can be read, and no spoiled buffer passes for it. */
  ghost predicate Clear(d: Dev, c: Cached, b: nat)
  {
    b == 0 || (Found(d, b).Contents? && !(c.spoiled && c.blkno == b))
  }

  /** So it is with all index blocks of a file. */
  ghost predicate Ready(d: Dev, root: seq<nat>, ind: Cached, dind: Cached)
    requires Sized(d) && |root| == NROOT
  {
    && Clear(d, ind, root[IND]) && Clear(d, dind, root[DIND])
    && forall k :: 0 <= k < Ptrs(d) ==> Clear(d, ind, PtrIn(d, root[DIND], k))
  }

  class Reader {
    const dev: Dev
    /** `cached_iblkno` and `iblkbuf`, and the other two. */
    var ind: Cached
    var dind: Cached

    ghost predicate Valid()
      reads this
    {
      Ext(dev) && True(dev, ind) && True(dev, dind)
    }

    /** The buffers that a lookup with so many levels goes through. */
    function Bufs(levels: nat): (r: seq<Cached>)
      requires levels <= 2
      reads this
      ensures |r| == levels
    {
      [ind, dind][..levels]
    }

    /** A mount gets new buffers and leaves the numbers as they are, so that the buffers
        have anything under the numbers of the partition before. */
    constructor (d: Dev, iblkno: nat, diblkno: nat, memory: seq<byte>)
      requires Ext(d) && |memory| == d.bs
      ensures Valid() && dev == d && ind == Cached(iblkno, memory, true) && dind == Cached(diblkno, memory, true)
    {
      dev, ind, dind := d, Cached(iblkno, memory, true), Cached(diblkno, memory, true);
    }

    /** Bring an index block into a buffer, unless its number is there. */
    method Bring(c: Cached, b: nat, junk: seq<byte>) returns (ok: bool, c': Cached)
      requires Ext(dev)
      ensures (ok, c') == Fetch(dev, c, b, junk)
    {
      if c.blkno == b {
        return true, c;
      }
      var buf;
      ok, buf := ReadAt(dev, Place(dev, b), dev.bs, junk);
      c' := if ok then Cached(b, buf, false) else Cached(c.blkno, buf, true);
    }

    /** The pointer in index block `b`, through the buffer for single-indirect ones. */
    method PointerIn(b: nat, k: nat, junk: seq<byte>) returns (r: nat)
      requires Ext(dev)
      modifies this`ind
      ensures var l := Lookup(dev, [old(ind)], b, [k], junk); r == OrHole(l.0) && [ind] == l.1
    {
      hide Ptr, Fetch, Lookup;
      if b == 0 {
        LookupHole(dev, [ind], [k], junk);
        return 0;
      }
      LookupOne(dev, ind, b, k, junk);
      var ok;
      ok, ind := Bring(ind, b, junk);
      if !ok {
        return 0;
      }
      return Ptr(ind.buf, k);
    }

    /** `ext2_blkno`: the lookup through the buffers, a failure being a hole. */
    method Blkno(root: seq<nat>, off: nat, junk: seq<byte>) returns (r: int)
      requires Valid() && IsRoot(root) && |junk| == dev.bs
      modifies this
      ensures Valid()
      ensures var w := Way(dev, off);
              var l := Lookup(dev, old(Bufs(|w|)), From(dev, root, off), w, junk);
              && r == Wrap32(OrHole(l.0)) && Bufs(2) == l.1 + old(Bufs(2))[|w|..]
      ensures !old(Uses(dev, Bufs(|Way(dev, off)|), From(dev, root, off), Way(dev, off))) ==> r == Wrap32(MapBlock(dev, root, off))
      ensures old(Ready(dev, root, ind, dind)) ==> Ready(dev, root, ind, dind) && r == Wrap32(MapBlock(dev, root, off))
    {
      hide Found, Ptr, Fetch, Lookup, Uses, HighIndex, LowIndex, Ind2lim, Wrap32, MapBlock, Ready, True;
      Served(dev, root, off, ind, dind, junk);
      Slices(ind, dind);
      if off <= DIRECTLIM {
        LookupNone(dev, root[off], junk);
        return Wrap32(root[off]);
      }
      if off <= Ind1lim(dev) {
        var b := PointerIn(root[IND], off - (DIRECTLIM + 1), junk);
        assert [ind] + [dind] == [ind, dind];
        return Wrap32(b);
      }
      if off > Ind2lim(dev) {
        LookupNone(dev, 0, junk);
        return Wrap32(0);
      }
      if root[DIND] == 0 {
        LookupHole(dev, [ind, dind], Way(dev, off), junk);
        return Wrap32(0);
      }
      LookupTwo(dev, ind, dind, root[DIND], HighIndex(dev, off), LowIndex(dev, off), junk);
      var ok;
      ok, dind := Bring(dind, root[DIND], junk);
      if !ok {
        return Wrap32(0);
      }
      var b := PointerIn(Ptr(dind.buf, HighIndex(dev, off)), LowIndex(dev, off), junk);
      return Wrap32(b);
    }
  }

  lemma Slices(a: Cached, b: Cached)
    ensures [a, b][..1] == [a] && [a, b][..2] == [a, b] && [a, b][0..] == [a, b] && [a, b][1..] == [b]
    ensures forall s: seq<Cached> :: s + [a, b][2..] == s
  {
  }

  lemma LookupNone(d: Dev, b: nat, junk: seq<byte>)
    ensures Lookup(d, [], b, [], junk) == (Block(b), [])
  {
  }

  lemma LookupHole(d: Dev, bufs: seq<Cached>, digits: seq<nat>, junk: seq<byte>)
    requires |bufs| == |digits|
    ensures Lookup(d, bufs, 0, digits, junk) == (Block(0), bufs)
  {
  }

  lemma LookupTwo(d: Dev, ind: Cached, dind: Cached, b: nat, h: nat, l: nat, junk: seq<byte>)
    requires b != 0
    ensures var (ok, f) := Fetch(d, dind, b, junk);
            var rest := Lookup(d, [ind], Ptr(f.buf, h), [l], junk);
            Lookup(d, [ind, dind], b, [h, l], junk) == if ok then (rest.0, rest.1 + [f]) else (Failed, [ind, f])
  {
    hide Fetch, Ptr;
    var (ok, f) := Fetch(d, dind, b, junk);
    assert [ind, dind][..1] == [ind] && [h, l][1..] == [l] && [ind] + [f] == [ind, f];
  }

  /** What a lookup does for the routine and its buffers. */
  lemma Served(d: Dev, root: seq<nat>, off: nat, ind: Cached, dind: Cached, junk: seq<byte>)
    requires Ext(d) && IsRoot(root) && True(d, ind) && True(d, dind) && |junk| == d.bs
    ensures var w, bufs := Way(d, off), [ind, dind];
            var l := Lookup(d, bufs[..|w|], From(d, root, off), w, junk);
            && (!Uses(d, bufs[..|w|], From(d, root, off), w) ==> OrHole(l.0) == MapBlock(d, root, off))
            && var after := l.1 + bufs[|w|..];
               && True(d, after[0]) && True(d, after[1])
               && (Ready(d, root, ind, dind) ==> Ready(d, root, after[0], after[1]) && OrHole(l.0) == MapBlock(d, root, off))
  {
    hide Found, Ptr, Lookup, Uses, Walk, True, Way, From, PtrIn;
    var w, bufs := Way(d, off), [ind, dind];
    var start := From(d, root, off);
    LookupKeeps(d, bufs[..|w|], start, w, junk);
    assert AllTrue(d, Lookup(d, bufs[..|w|], start, w, junk).1 + bufs[|w|..]);
    if !Uses(d, bufs[..|w|], start, w) {
      LookupRight(d, bufs[..|w|], start, w, junk);
    }
    if Ready(d, root, ind, dind) {
      ReadyRight(d, root, off, ind, dind);
      LookupRefills(d, bufs[..|w|], start, w, junk);
    }
  }

  /** A file whose index blocks are ready is looked up without a failure. */
  lemma ReadyRight(d: Dev, root: seq<nat>, off: nat, ind: Cached, dind: Cached)
    requires Ext(d) && IsRoot(root) && Ready(d, root, ind, dind) && True(d, dind)
    ensures var w := Way(d, off);
            && !Uses(d, [ind, dind][..|w|], From(d, root, off), w)
            && Walk(d, From(d, root, off), w) != Failed
  {
    hide Ptr, HighIndex, LowIndex, Ind2lim, Found;
    if DIRECTLIM < off <= Ind1lim(d) {
      ClearOne(d, ind, root[IND], off - (DIRECTLIM + 1));
      assert [ind, dind][..1] == [ind];
    } else if Ind1lim(d) < off <= Ind2lim(d) {
      var b, h, l := root[DIND], HighIndex(d, off), LowIndex(d, off);
      ClearOne(d, ind, PtrIn(d, b, h), l);
      ClearTwo(d, ind, dind, b, h, l);
      assert [ind, dind][..2] == [ind, dind];
    }
  }

  lemma ClearOne(d: Dev, c: Cached, b: nat, k: nat)
    requires Clear(d, c, b)
    ensures !Uses(d, [c], b, [k]) && Walk(d, b, [k]) != Failed
  {
    hide Ptr, Found;
    assert [k][1..] == [] && [c][..0] == [];
  }

  lemma ClearTwo(d: Dev, ind: Cached, dind: Cached, b: nat, h: nat, l: nat)
    requires Clear(d, dind, b) && True(d, dind)
    requires !Uses(d, [ind], PtrIn(d, b, h), [l]) && Walk(d, PtrIn(d, b, h), [l]) != Failed
    ensures !Uses(d, [ind, dind], b, [h, l]) && Walk(d, b, [h, l]) != Failed
  {
    hide Ptr, Found;
    assert [h, l][1..] == [l] && [ind, dind][..1] == [ind] && [h, l][0] == h;
    if b != 0 {
      var data := Found(d, b).data;
      assert PtrIn(d, b, h) == Ptr(data, h);
      assert dind.blkno == b ==> dind.buf == data;
    }
  }
}
