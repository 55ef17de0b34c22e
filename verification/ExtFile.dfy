/** `ext2_breadi`: reading a range of blocks of a file, joining blocks that are
    neighbours on the device (fs/ext2.c:348-395). */
module ExtFile {
  import opened Bits
  import opened BitStream
  import opened PointerCache
  import opened ExtReader

  function Zeros(n: nat): (r: seq<byte>)
    ensures |r| == n && forall i :: 0 <= i < n ==> r[i] == 0
  {
    seq(n, _ => 0)
  }

  /** A file on the device, as its inode gives it. */
  datatype File = File(dev: Dev, root: seq<nat>)

  predicate Proper(f: File)
  {
    Ext(f.dev) && IsRoot(f.root)
  }

  /** The number that `ext2_blkno` returns for a block of the file. */
  function At(f: File, o: nat): (r: int)
    requires Proper(f)
  {
    Wrap32(MapBlock(f.dev, f.root, o))
  }

  function OrZeros(c: Contents, n: nat): (r: seq<byte>)
    requires c.Contents? ==> |c.data| == n
    ensures |r| == n
  {
    if c.Contents? then c.data else Zeros(n)
  }

  /** `n` blocks from where the routine takes block `b` to be. */
  function Stretch(d: Dev, b: int, n: nat): (r: Contents)
    ensures r.Contents? ==> |r.data| == Size(d, n)
  {
    BytesAt(d.disk, d.start + b * d.bs, Size(d, n))
  }

  /** The length of `n` blocks. */
  function Size(d: Dev, n: nat): (r: nat)
    ensures r == n * d.bs && (n == 1 ==> r == d.bs)
  {
    MulMono(d.bs, 0, n);
    n * d.bs
  }

  function Raw(d: Dev, b: int): (r: seq<byte>)
    ensures |r| == d.bs
  {
    OrZeros(Stretch(d, b, 1), d.bs)
  }

  /** The contents of a block of the file; a hole is zeros. */
  function Content(f: File, o: nat): (r: seq<byte>)
    requires Proper(f)
    ensures |r| == f.dev.bs
  {
    var b := FileBlock(f.dev, f.root, o);
    if b == 0 then Zeros(f.dev.bs) else OrZeros(Found(Ideal(f.dev), b), f.dev.bs)
  }

  // ----- runs of neighbours -----

  /** The first block of the run that block `o` is in when the routine starts at `start`:
      in a run, each number is one more than the number before. */
  function Origin(f: File, start: nat, o: nat): (r: nat)
    requires Proper(f) && start <= o
    ensures start <= r <= o
    decreases o
  {
    if o > start && At(f, o) == At(f, o - 1) + 1 then Origin(f, start, o - 1) else o
  }

  /** A run that begins with a hole is taken for a hole, any other for data. */
  predicate FromDevice(f: File, start: nat, o: nat)
    requires Proper(f) && start <= o
  {
    At(f, Origin(f, start, o)) != 0
  }

  /** What the routine delivers for block `o`. */
  function Shown(f: File, start: nat, o: nat): (r: seq<byte>)
    requires Proper(f) && start <= o
    ensures |r| == f.dev.bs
  {
    if FromDevice(f, start, o) then Raw(f.dev, At(f, o)) else Zeros(f.dev.bs)
  }

  /** A block with data in a run that begins with a hole. */
  predicate Shadowed(f: File, start: nat, o: nat)
    requires Proper(f) && start <= o
  {
    At(f, o) != 0 && !FromDevice(f, start, o)
  }

  /** A hole in a run that begins with a block. */
  predicate Dug(f: File, start: nat, o: nat)
    requires Proper(f) && start <= o
  {
    At(f, o) == 0 && FromDevice(f, start, o)
  }

  /** Blocks `first`, ..., `first + n - 1` are neighbours on the device. */
  ghost predicate Together(f: File, first: nat, n: nat, dev_blkno: int)
    requires Proper(f)
  {
    forall i :: first <= i < first + n ==> At(f, i) == dev_blkno + (i - first)
  }

  lemma {:induction false} OriginRun(f: File, start: nat, o: nat)
    requires Proper(f) && start <= o
    ensures var h := Origin(f, start, o); Together(f, h, o - h + 1, At(f, h)) && Starts(f, start, h)
    decreases o
  {
    hide At;
    if o > start && At(f, o) == At(f, o - 1) + 1 {
      OriginRun(f, start, o - 1);
    }
  }

  /** A run begins at block `o`. */
  predicate Starts(f: File, start: nat, o: nat)
    requires Proper(f) && start <= o
  {
    o == start || At(f, o) != At(f, o - 1) + 1
  }

  lemma {:induction false} OriginOf(f: File, start: nat, first: nat, n: nat, b: int, o: nat)
    requires Proper(f) && start <= first <= o < first + n && Starts(f, start, first) && Together(f, first, n, b)
    ensures Origin(f, start, o) == first && At(f, o) == b + (o - first) && At(f, first) == b
    decreases o
  {
    hide At;
    if o > first {
      OriginOf(f, start, first, n, b, o - 1);
    }
  }

  /** The number of a block in the shadow of a hole is its distance from the hole, and so
      are those of the blocks between. */
  lemma ShadowedIs(f: File, start: nat, o: nat)
    requires Proper(f) && start <= o
    ensures Shadowed(f, start, o) <==> 1 <= At(f, o) <= o - start && Starts(f, start, o - At(f, o)) && Together(f, o - At(f, o), At(f, o) + 1, 0)
  {
    hide At;
    OriginRun(f, start, o);
    var h, k := Origin(f, start, o), At(f, o);
    assert At(f, o) == At(f, h) + (o - h);
    if 1 <= k <= o - start && Starts(f, start, o - k) && Together(f, o - k, k + 1, 0) {
      OriginOf(f, start, o - k, k + 1, 0, o);
    }
  }

  /** A hole is read from the device exactly when the block before it has the number -1. */
  lemma DugIs(f: File, start: nat, o: nat)
    requires Proper(f) && start <= o
    ensures Dug(f, start, o) <==> o > start && At(f, o) == 0 && At(f, o - 1) == -1
  {
    hide At;
    OriginRun(f, start, o);
    var h := Origin(f, start, o);
    assert At(f, o) == At(f, h) + (o - h);
    if o > start && At(f, o) == 0 && At(f, o - 1) == -1 {
      assert h == Origin(f, start, o - 1) <= o - 1;
    } else if h < o {
      assert At(f, o - 1) == At(f, h) + (o - 1 - h);
    }
  }

  /** Where no block of the file is block 1 of the device, nothing is in a shadow. */
  lemma NoShadow(f: File, start: nat, o: nat)
    requires Proper(f) && start <= o && forall i :: 0 <= i ==> At(f, i) != 1
    ensures !Shadowed(f, start, o)
  {
    hide At;
    ShadowedIs(f, start, o);
    var k := At(f, o);
    if 1 <= k <= o - start {
      assert At(f, o - k + 1) != 1;
    }
  }

  /** A file whose first block is a hole and whose second is block 1. */
  lemma ShadowHappens(d: Dev)
    requires Ext(d)
    ensures Shadowed(File(d, [0, 1, 0, 0, 0, 0, 0, 0, 0, 0, 0, 0, 0, 0, 0]), 0, 1)
  {
    var f := File(d, [0, 1, 0, 0, 0, 0, 0, 0, 0, 0, 0, 0, 0, 0, 0]);
    DirectAt(f, 0);
    DirectAt(f, 1);
    assert Origin(f, 0, 1) == Origin(f, 0, 0) == 0;
  }

  /** A file whose first block is the last that 32 bits can name, and whose second is a
      hole: the one is read from before the partition, the other from block 0. */
  lemma SignHappens(d: Dev)
    requires Ext(d)
    ensures var f := File(d, [0xffff_ffff, 0, 0, 0, 0, 0, 0, 0, 0, 0, 0, 0, 0, 0, 0]);
            At(f, 0) == -1 && FileBlock(d, f.root, 0) == 0xffff_ffff && Dug(f, 0, 1)
  {
    var f := File(d, [0xffff_ffff, 0, 0, 0, 0, 0, 0, 0, 0, 0, 0, 0, 0, 0, 0]);
    DirectAt(f, 0);
    DirectAt(f, 1);
    DugIs(f, 0, 1);
  }

  lemma DirectAt(f: File, o: nat)
    requires Proper(f) && o <= DIRECTLIM
    ensures At(f, o) == Wrap32(f.root[o])
  {
    hide Wrap32;
    WalkNone(f.dev, f.root[o]);
  }

  // ----- what is delivered and what is in the file -----

  /** The routine finds the number of the block, and the number is below 2^31. */
  predicate Located(f: File, o: nat)
    requires Proper(f)
  {
    o <= Ind2lim(f.dev) && NearIndex(f.dev, f.root, o) && MapBlock(f.dev, f.root, o) < SHORT
  }

  /** Block `o` is delivered as zeros, whatever is in it: it is in the shadow of a hole,
      or beyond the limit of the lookup. */
  predicate Blanked(f: File, start: nat, o: nat)
    requires Proper(f) && start <= o
  {
    Shadowed(f, start, o) || (o > Ind2lim(f.dev) && !Dug(f, start, o))
  }

  /** Otherwise it is delivered from another place: it is a hole in a run of blocks, or a
      number of 2^31 or more is on the way. */
  predicate Strayed(f: File, start: nat, o: nat)
    requires Proper(f) && start <= o
  {
    !Blanked(f, start, o) && (Dug(f, start, o) || !Located(f, o))
  }

  lemma LocatedContent(f: File, o: nat)
    requires Proper(f) && Located(f, o)
    ensures Content(f, o) == if At(f, o) == 0 then Zeros(f.dev.bs) else Raw(f.dev, At(f, o))
  {
    hide MapBlock, FileBlock, NearIndex, Ind2lim, Wrap32;
    MapExact(f.dev, f.root, o);
    WrapSmall(MapBlock(f.dev, f.root, o));
    IdealPlace(f.dev, FileBlock(f.dev, f.root, o));
  }

  lemma ShownIs(f: File, start: nat, o: nat)
    requires Proper(f) && start <= o
    ensures Blanked(f, start, o) ==> Shown(f, start, o) == Zeros(f.dev.bs)
    ensures Dug(f, start, o) ==> Shown(f, start, o) == Raw(f.dev, 0)
    ensures !Blanked(f, start, o) && !Strayed(f, start, o) ==> Shown(f, start, o) == Content(f, o)
  {
    hide MapBlock, FromDevice, Content, Raw, Zeros, Ind2lim, NearIndex;
    MapExact(f.dev, f.root, o);
    WrapSmall(0);
    if Located(f, o) {
      LocatedContent(f, o);
    }
  }

  /** Blocks `a` to `b - 1`. */
  function ShownAll(f: File, start: nat, a: nat, b: nat): (r: seq<byte>)
    requires Proper(f) && start <= a <= b
    decreases b - a
  {
    if a == b then [] else ShownAll(f, start, a, b - 1) + Shown(f, start, b - 1)
  }

  function ContentAll(f: File, a: nat, b: nat): (r: seq<byte>)
    requires Proper(f) && a <= b
    decreases b - a
  {
    if a == b then [] else ContentAll(f, a, b - 1) + Content(f, b - 1)
  }

  /** The result is the file's if and only if no block that is delivered as zeros has
      anything else in it, and those from another place happen to have the same. */
  lemma {:induction false} ShownExact(f: File, start: nat, a: nat, b: nat)
    requires Proper(f) && start <= a <= b
    ensures |ShownAll(f, start, a, b)| == |ContentAll(f, a, b)|
    ensures ShownAll(f, start, a, b) == ContentAll(f, a, b) <==>
            forall o :: a <= o < b ==>
              && (Blanked(f, start, o) ==> Content(f, o) == Zeros(f.dev.bs))
              && (Strayed(f, start, o) ==> Shown(f, start, o) == Content(f, o))
    decreases b - a
  {
    hide At, Content, Blanked, Strayed, Zeros, Shown;
    if a < b {
      ShownExact(f, start, a, b - 1);
      ShownIs(f, start, b - 1);
      JoinedEqual(ShownAll(f, start, a, b - 1), ContentAll(f, a, b - 1), Shown(f, start, b - 1), Content(f, b - 1));
    }
  }

  lemma JoinedEqual(a: seq<byte>, b: seq<byte>, x: seq<byte>, y: seq<byte>)
    requires |a| == |b| && |x| == |y|
    ensures a + x == b + y <==> a == b && x == y
  {
    if a + x == b + y {
      assert a == (a + x)[..|a|] == (b + y)[..|b|] == b;
      assert x == (a + x)[|a|..] == (b + y)[|b|..] == y;
    }
  }

  /** 1 KiB blocks; block 1 is the double-indirect block of a file, whose last pointer is
      to block 2, whose first is to block 3, which is not zeros. */
  function LimitDev(): (r: Dev)
    ensures Ext(r)
  {
    Dev(seq(4096, i => if i == 1024 + 4 * 255 then 2 else if i == 2048 then 3 else if i == 3072 then 7 else 0), 0, 1024, Signed(1024))
  }

  const LIMIT_ROOT: seq<nat> := [0, 0, 0, 0, 0, 0, 0, 0, 0, 0, 0, 0, 0, 1, 0]

  lemma LimitPointers()
    ensures var d := Ideal(LimitDev());
            && Ptrs(d) == 256 && PtrIn(d, 1, 255) == 2 && PtrIn(d, 2, 0) == 3
            && Found(d, 3).Contents? && Found(d, 3).data[0] == 7
  {
    var d := Ideal(LimitDev());
    assert Place(d, 1) == 1024 && Place(d, 2) == 2048 && Place(d, 3) == 3072;
    assert Found(d, 1).data[4 * 255] == 2 && Found(d, 1).data[4 * 255 + 1] == 0;
    assert Found(d, 1).data[4 * 255 + 2] == 0 && Found(d, 1).data[4 * 255 + 3] == 0;
    assert Found(d, 2).data[0] == 3 && Found(d, 2).data[1] == 0 && Found(d, 2).data[2] == 0 && Found(d, 2).data[3] == 0;
  }

  /** Block 65548 of that file has data, and is looked up and delivered as a hole. */
  lemma LimitHappens()
    ensures var f := File(LimitDev(), LIMIT_ROOT);
            && At(f, 65548) == 0 && FileBlock(f.dev, f.root, 65548) == 3
            && Blanked(f, 65548, 65548) && Content(f, 65548) != Zeros(f.dev.bs)
  {
    hide PtrIn, Found, Zeros, MapBlock, Under;
    var f := File(LimitDev(), LIMIT_ROOT);
    LimitPointers();
    SpanOne(Ideal(f.dev));
    MapExact(f.dev, f.root, 65548);
    UnderTwo(Ideal(f.dev), 1, 255 * 256);
    assert Zeros(f.dev.bs)[0] == 0;
    DugIs(f, 65548, 65548);
  }

  // ----- joining -----

  lemma {:induction false} ShownSplit(f: File, start: nat, a: nat, b: nat, c: nat)
    requires Proper(f) && start <= a <= b <= c
    ensures ShownAll(f, start, a, c) == ShownAll(f, start, a, b) + ShownAll(f, start, b, c)
    decreases c - b
  {
    hide Shown;
    if b < c {
      ShownSplit(f, start, a, b, c - 1);
    }
  }

  /** A run that begins with a hole is delivered as zeros. */
  lemma {:induction false} HoleRun(f: File, start: nat, first: nat, n: nat)
    requires Proper(f) && start <= first && Starts(f, start, first) && Together(f, first, n, 0)
    ensures ShownAll(f, start, first, first + n) == Zeros(Size(f.dev, n))
    decreases n
  {
    hide At, Starts, Together;
    if n > 0 {
      TogetherLess(f, first, n, 0);
      HoleRun(f, start, first, n - 1);
      OriginOf(f, start, first, n, 0, first + n - 1);
      MulDist(n - 1, 1, f.dev.bs);
    } else {
      assert Zeros(Size(f.dev, 0)) == [];
    }
  }

  /** Any other run is delivered as one stretch of the device. */
  lemma {:induction false} DataRun(f: File, start: nat, first: nat, n: nat, b: int)
    requires Proper(f) && start <= first && b != 0 && Starts(f, start, first) && Together(f, first, n, b)
    requires Stretch(f.dev, b, n).Contents?
    ensures ShownAll(f, start, first, first + n) == Stretch(f.dev, b, n).data
    decreases n
  {
    hide At, Shown, Starts, Together;
    var d := f.dev;
    if n > 0 {
      MulDist(n - 1, 1, d.bs);
      TogetherLess(f, first, n, b);
      DataRun(f, start, first, n - 1, b);
      ShownBlock(f, start, first, n, b, (n - 1) * d.bs);
      SlicesJoin(d.disk, d.start + b * d.bs, (n - 1) * d.bs, d.bs);
    } else {
      assert 0 * d.bs == 0;
    }
  }

  lemma TogetherLess(f: File, first: nat, n: nat, b: int)
    requires Proper(f) && Together(f, first, n, b) && n > 0
    ensures Together(f, first, n - 1, b)
  {
    hide At;
  }

  /** The last block of a run. */
  lemma ShownBlock(f: File, start: nat, first: nat, n: nat, b: int, x: nat)
    requires Proper(f) && start <= first && n > 0 && b != 0 && Starts(f, start, first) && Together(f, first, n, b)
    requires x == (n - 1) * f.dev.bs && 0 <= f.dev.start + b * f.dev.bs
    requires f.dev.start + b * f.dev.bs + x + f.dev.bs <= |f.dev.disk|
    ensures var at := f.dev.start + b * f.dev.bs + x;
            Shown(f, start, first + n - 1) == f.dev.disk[at..at + f.dev.bs]
  {
    hide At, Starts, Together;
    OriginOf(f, start, first, n, b, first + n - 1);
    MulDist(b, n - 1, f.dev.bs);
  }

  lemma SlicesJoin(s: seq<byte>, a: nat, x: nat, y: nat)
    requires a + x + y <= |s|
    ensures s[a..a + x] + s[a + x..a + x + y] == s[a..a + (x + y)]
  {
  }

  // ----- the routine -----

  datatype Outcome = Bytes(data: seq<byte>) | Error | Runaway

  /** The number of blocks after the adjustment to the size of the file, where the sum
      of size and block size has 32 bits.  It counts one block more than the size has,
      or, where the sum wraps, next to none; it is negative for a start beyond that. */
  function Clamp(size: nat, bs: nat, blkno: nat, nblks: nat): (r: int)
    requires bs > 0
  {
    if (blkno + nblks) * bs > size then (size + bs) % 0x1_0000_0000 / bs - blkno else nblks
  }

  /** The adjustment keeps a range that lies in the file, and cuts one that does not
      after the block past the last, unless the size is within a block of 4 GiB. */
  lemma ClampIs(size: nat, bs: nat, blkno: nat, nblks: nat)
    requires bs > 0 && size < 0x1_0000_0000
    ensures (blkno + nblks) * bs <= size ==> Clamp(size, bs, blkno, nblks) == nblks
    ensures (blkno + nblks) * bs > size && size + bs < 0x1_0000_0000 ==> Clamp(size, bs, blkno, nblks) == size / bs + 1 - blkno
    ensures (blkno + nblks) * bs > size && size + bs >= 0x1_0000_0000 && bs <= 0x1_0000_0000 ==>
              Clamp(size, bs, blkno, nblks) == 0 - blkno
  {
    if (blkno + nblks) * bs > size {
      ClampBeyond(size, bs);
    }
  }

  lemma ClampBeyond(size: nat, bs: nat)
    requires bs > 0 && size < 0x1_0000_0000
    ensures size + bs < 0x1_0000_0000 ==> (size + bs) % 0x1_0000_0000 / bs == size / bs + 1
    ensures size + bs >= 0x1_0000_0000 && bs <= 0x1_0000_0000 ==> (size + bs) % 0x1_0000_0000 / bs == 0
  {
    var q, r := size / bs, size % bs;
    assert size == bs * q + r;
    DivUnique(size + bs, bs, q + 1, r);
    if size + bs >= 0x1_0000_0000 && bs <= 0x1_0000_0000 {
      var w := size + bs - 0x1_0000_0000;
      DivUnique(w, bs, 0, w);
    }
  }

  /** The blocks that are taken from the device can be read. */
  ghost predicate AllReadable(f: File, start: nat, a: nat, b: nat)
    requires Proper(f) && start <= a
  {
    forall o :: a <= o < b && FromDevice(f, start, o) ==> Stretch(f.dev, At(f, o), 1).Contents?
  }

  /** What a call should come to.  A negative count is counted down and never
      reaches zero. */
  ghost function Expected(f: File, size: nat, blkno: nat, nblks: nat): (r: Outcome)
    requires Proper(f)
  {
    var n := Clamp(size, f.dev.bs, blkno, nblks);
    if n < 0 then Runaway
    else if AllReadable(f, blkno, blkno, blkno + n) then Bytes(ShownAll(f, blkno, blkno, blkno + n))
    else Error
  }

  /** Lines 365-372: how many blocks are neighbours, out of `left`. */
  method Group(rd: Reader, root: seq<nat>, blkno: nat, left: nat, junk: seq<byte>) returns (b: int, ncontig: nat)
    requires rd.Valid() && IsRoot(root) && left > 0 && |junk| == rd.dev.bs
    modifies rd
    ensures rd.Valid() && 1 <= ncontig <= left
    ensures old(Ready(rd.dev, root, rd.ind, rd.dind)) ==>
              var f := File(rd.dev, root);
              && Ready(rd.dev, root, rd.ind, rd.dind) && Together(f, blkno, ncontig, b)
              && (ncontig < left ==> At(f, blkno + ncontig) != b + ncontig)
  {
    hide MapBlock, Ready, True, Lookup, Way, From, Uses;
    ghost var f := File(rd.dev, root);
    ghost var good := Ready(rd.dev, root, rd.ind, rd.dind);
    b := rd.Blkno(root, blkno, junk);
    ncontig := 1;
    while ncontig < left
      invariant rd.Valid() && 1 <= ncontig <= left
      invariant good ==> Ready(rd.dev, root, rd.ind, rd.dind) && Together(f, blkno, ncontig, b)
    {
      var next := rd.Blkno(root, blkno + ncontig, junk);
      if next != b + ncontig {
        return;
      }
      ncontig := ncontig + 1;
    }
  }

  /** `ext2_breadi`.  `junk` is what a failed read of an index block leaves. */
  method Breadi(rd: Reader, root: seq<nat>, size: nat, blkno: nat, nblks: nat, junk: seq<byte>) returns (r: Outcome)
    requires rd.Valid() && IsRoot(root) && |junk| == rd.dev.bs
    modifies rd
    ensures rd.Valid()
    ensures old(Ready(rd.dev, root, rd.ind, rd.dind)) ==>
              Ready(rd.dev, root, rd.ind, rd.dind) && r == Expected(File(rd.dev, root), size, blkno, nblks)
  {
    hide MapBlock, Ready, True, Clamp, ShownAll, AllReadable, At, Together, Starts, Stretch;
    ghost var f := File(rd.dev, root);
    ghost var good := Ready(rd.dev, root, rd.ind, rd.dind);
    var left := Clamp(size, rd.dev.bs, blkno, nblks);
    if left < 0 {
      return Runaway;
    }
    ghost var to: nat := blkno + left;
    var o := blkno;
    var out: seq<byte> := [];
    NothingYet(f, blkno);
    while left > 0
      invariant rd.Valid() && blkno <= o && o + left == to && left >= 0
      invariant good ==> Ready(rd.dev, root, rd.ind, rd.dind) && Delivered(f, blkno, o, out) && (left > 0 ==> Starts(f, blkno, o))
      decreases left
    {
      var b, ncontig := Group(rd, root, o, left, junk);
      var ok, part := ReadGroup(rd.dev, b, ncontig);
      if good {
        GroupDelivered(f, blkno, o, ncontig, b, out, ok, part);
        if ncontig < left {
          RunEnds(f, blkno, o, ncontig, b);
        }
      }
      if !ok {
        if good {
          NotAll(f, blkno, o, o + ncontig, to);
        }
        return Error;
      }
      out := out + part;
      o, left := o + ncontig, left - ncontig;
    }
    r := Bytes(out);
  }

  /** Lines 374-389: zeros for a hole, one read for a run of blocks. */
  method ReadGroup(d: Dev, b: int, ncontig: nat) returns (ok: bool, part: seq<byte>)
    requires Sized(d) && ncontig > 0
    ensures b == 0 ==> ok && part == Zeros(Size(d, ncontig))
    ensures b != 0 ==> Stretch(d, b, ncontig) == if ok then Contents(part) else Unreadable
  {
    hide Zeros;
    var nbytes := Size(d, ncontig);
    MulMono(d.bs, 1, ncontig);
    if b == 0 {
      return true, Zeros(nbytes);
    }
    ok, part := ReadAt(d, d.start + b * d.bs, nbytes, []);
  }

  /** `out` is what the blocks from `start` to `o` come to, and they can be read. */
  ghost predicate Delivered(f: File, start: nat, o: nat, out: seq<byte>)
    requires Proper(f) && start <= o
  {
    AllReadable(f, start, start, o) && out == ShownAll(f, start, start, o)
  }

  lemma NothingYet(f: File, start: nat)
    requires Proper(f)
    ensures Delivered(f, start, start, []) && Starts(f, start, start)
  {
    hide At;
  }

  lemma RunEnds(f: File, start: nat, first: nat, n: nat, b: int)
    requires Proper(f) && start <= first && n > 0 && Together(f, first, n, b) && At(f, first + n) != b + n
    ensures Starts(f, start, first + n)
  {
    hide At;
    assert At(f, first + n - 1) == b + (n - 1);
  }

  lemma GroupDelivered(f: File, start: nat, o: nat, n: nat, b: int, out: seq<byte>, ok: bool, part: seq<byte>)
    requires Proper(f) && start <= o && n > 0 && Delivered(f, start, o, out) && Together(f, o, n, b) && Starts(f, start, o)
    requires b == 0 ==> ok && part == Zeros(Size(f.dev, n))
    requires b != 0 ==> Stretch(f.dev, b, n) == if ok then Contents(part) else Unreadable
    ensures ok <==> AllReadable(f, start, o, o + n)
    ensures ok ==> Delivered(f, start, o + n, out + part)
  {
    hide At, ShownAll, FromDevice, Zeros, Stretch, Starts, Together;
    GroupReadable(f, start, o, n, b);
    if ok {
      if b == 0 {
        HoleRun(f, start, o, n);
      } else {
        DataRun(f, start, o, n, b);
      }
      ShownSplit(f, start, start, o, o + n);
    }
  }

  /** A run can be read exactly when its blocks can. */
  lemma GroupReadable(f: File, start: nat, o: nat, n: nat, b: int)
    requires Proper(f) && start <= o && n > 0 && Together(f, o, n, b) && Starts(f, start, o)
    ensures b == 0 ==> AllReadable(f, start, o, o + n)
    ensures b != 0 ==> (AllReadable(f, start, o, o + n) <==> Stretch(f.dev, b, n).Contents?)
  {
    hide At, Together, Starts, Stretch, Origin, Size;
    forall i | o <= i < o + n
      ensures At(f, i) == b + (i - o) && (FromDevice(f, start, i) <==> b != 0)
    {
      OriginOf(f, start, o, n, b, i);
    }
    if b != 0 {
      if AllReadable(f, start, o, o + n) {
        assert FromDevice(f, start, o) && FromDevice(f, start, o + (n - 1));
        EndsEnough(f.dev, b, n);
      } else {
        var i :| o <= i < o + n && FromDevice(f, start, i) && !Stretch(f.dev, At(f, i), 1).Contents?;
        PartReadable(f.dev, b, n, i - o);
      }
    }
  }

  lemma EndsEnough(d: Dev, b: int, n: nat)
    requires n > 0 && Stretch(d, b, 1).Contents? && Stretch(d, b + (n - 1), 1).Contents?
    ensures Stretch(d, b, n).Contents?
  {
    MulDist(b, n - 1, d.bs);
    MulDist(n - 1, 1, d.bs);
  }

  lemma PartReadable(d: Dev, b: int, n: nat, k: nat)
    requires k < n
    ensures Stretch(d, b, n).Contents? ==> Stretch(d, b + k, 1).Contents?
  {
    MulDist(b, k, d.bs);
    MulDist(k, 1, d.bs);
    MulMono(d.bs, k + 1, n);
    MulMono(d.bs, 0, k);
  }

  lemma NotAll(f: File, start: nat, a: nat, b: nat, c: nat)
    requires Proper(f) && start <= a <= b <= c && !AllReadable(f, start, a, b)
    ensures !AllReadable(f, start, start, c)
  {
    hide At, FromDevice, Stretch;
  }
}
