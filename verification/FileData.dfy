/** The contents of a file: what writing a block changes, and reading it back
    (tools/e2lib.c:643-832). */
module FileData {
  import opened Bitmap
  import opened Volume
  import opened Allocator
  import opened FileTree
  import opened FileMap

  /** Another offset is another place. */
  lemma OtherPath(off: nat, o: nat)
    requires off < FILE_END && o < FILE_END && o != off
    ensures !(PathOf(o) <= PathOf(off))
  {
    hide PathOf;
    if PathOf(o) <= PathOf(off) {
      assert PathOf(o)[0] == PathOf(off)[0];
      assert PathOf(o) == PathOf(off);
      PathOfInjective(o, off);
    }
  }

  /** Allocation is a map update: the other offsets keep their blocks, and a block
      that is newly mapped was in use by nobody. */
  lemma MapUpdate(v: Vol, root: seq<nat>, w: Vol, root': seq<nat>, off: nat, allocate: bool, r: nat, took: set<nat>)
    requires Tree(v, root) && off <= IND2LIM && Mapped(v, root, w, root', PathOf(off), allocate, r, took)
    ensures |root| == |root'| == NROOT && Lookup(w, root', off) == r
    ensures forall o :: 0 <= o != off ==> Lookup(w, root', o) == Lookup(v, root, o)
    ensures Lookup(v, root, off) != 0 ==> r == Lookup(v, root, off)
    ensures Lookup(v, root, off) == 0 && r != 0 ==> !InUse(v, r) && Owned(w, r)
  {
    hide Ok, At, KeepsData, Stuck, PathOf, InUse;
    forall o: nat | o != off
      ensures Lookup(w, root', o) == Lookup(v, root, o)
    {
      if o < FILE_END {
        OtherPath(off, o);
      }
    }
  }

  /** No other block of the file changes. */
  lemma MapKeepsContent(v: Vol, root: seq<nat>, w: Vol, root': seq<nat>, off: nat, allocate: bool, r: nat, took: set<nat>, o: nat)
    requires Tree(v, root) && off <= IND2LIM && Mapped(v, root, w, root', PathOf(off), allocate, r, took)
    requires o != off || Lookup(v, root, off) != 0
    ensures |root| == |root'| == NROOT && Content(w, root', o) == Content(v, root, o)
  {
    hide Ok, At, Stuck, PathOf, InUse, Extends, ZeroBlock, PointerBlock;
    MapUpdate(v, root, w, root', off, allocate, r, took);
    var b := Lookup(v, root, o);
    if b != 0 {
      LeafNotPointerBlock(v, root, o);
    }
  }

  /** A data block is not a pointer block. */
  lemma LeafNotPointerBlock(v: Vol, root: seq<nat>, o: nat)
    requires Tree(v, root) && Lookup(v, root, o) != 0
    ensures Owned(v, Lookup(v, root, o)) && !PointerBlock(v.disk, root, Lookup(v, root, o))
  {
    hide At, PathOf, InUse, IsBitmap;
  }

  /** Writing data does not disturb the tree. */
  lemma {:induction false} DataAt(v: Vol, root: seq<nat>, b: nat, data: Block, q: Path)
    requires Tree(v, root) && Owned(v, b) && !PointerBlock(v.disk, root, b) && ValidPath(q)
    ensures At(v.disk[b := data], root, q) == At(v.disk, root, q)
    decreases |q|
  {
    hide InUse, IsBitmap;
    if |q| > 1 {
      ParentValid(q);
      DataAt(v, root, b, data, Parent(q));
    }
  }

  lemma DataTree(v: Vol, root: seq<nat>, b: nat, data: Block)
    requires Ok(v) && Tree(v, root) && Owned(v, b) && !PointerBlock(v.disk, root, b)
    ensures Ok(v.(disk := v.disk[b := data])) && Tree(v.(disk := v.disk[b := data]), root)
    ensures forall c: nat :: InUse(v.(disk := v.disk[b := data]), c) <==> InUse(v, c)
  {
    hide At, InUse, IsBitmap, Ok, Shape, ValidPath;
    TreeShape(v, root);
    var w := v.(disk := v.disk[b := data]);
    OkElsewhere(v, w);
    OkShape(w);
    SameBitmaps(v, w);
    forall q | ValidPath(q)
      ensures At(w.disk, root, q) == At(v.disk, root, q)
    {
      DataAt(v, root, b, data, q);
    }
  }

  /** The file after a write to offset `off`, which is mapped. */
  lemma DataContent(v: Vol, root: seq<nat>, off: nat, data: Block, o: nat)
    requires Tree(v, root) && Lookup(v, root, off) != 0
    ensures Lookup(v, root, off) < |v.disk|
    ensures var w := v.(disk := v.disk[Lookup(v, root, off) := data]);
            && Lookup(w, root, o) == Lookup(v, root, o)
            && Content(w, root, o) == if o == off then data else Content(v, root, o)
  {
    hide At, InUse, IsBitmap, Shape, PathOf, ZeroBlock;
    var b := Lookup(v, root, off);
    LeafNotPointerBlock(v, root, off);
    if o < FILE_END {
      DataAt(v, root, b, data, PathOf(o));
      if o != off {
        OtherPath(off, o);
      }
    }
  }

  /** `ext2_bread`: the contents of the file; beyond the limit of the map, zeros. */
  method Bread(fs: FileSystem, ip: Inode, off: nat) returns (buffer: Block)
    requires Ok(fs.V()) && fs.Synced() && Tree(fs.V(), ip.block)
    modifies fs, ip`block, ip`blocks
    ensures fs.Synced() && old(fs.used) <= fs.used
    ensures fs.V() == old(fs.V()) && ip.block == old(ip.block) && ip.blocks == old(ip.blocks)
    ensures |ip.block| == NROOT
    ensures buffer == if off <= IND2LIM then Content(fs.V(), ip.block, off) else ZeroBlock()
    ensures buffer == Content(fs.V(), ip.block, off) <==> off <= IND2LIM || Content(fs.V(), ip.block, off) == ZeroBlock()
  {
    hide FileSystem.Synced, Ok, At, PathOf, ZeroBlock, Grown, Tree;
    ghost var v, root := fs.V(), ip.block;
    TreeShape(v, root);
    var b;
    ghost var took;
    b, took := Blkno(fs, ip, off, false);
    if b == 0 {
      buffer := ZeroBlock();
    } else {
      OwnedAt(v, root, PathOf(off));
      buffer := fs.ReadBlock(b);
    }
  }

  /** A file whose block at `off` is `data` and that is otherwise as before. */
  ghost predicate Stored(v: Vol, root: seq<nat>, w: Vol, root': seq<nat>, off: nat, data: Block)
  {
    && |root| == |root'| == NROOT
    && Content(w, root', off) == data
    && (forall o :: 0 <= o != off ==> Content(w, root', o) == Content(v, root, o))
    && (forall o :: 0 <= o && Lookup(v, root, o) != 0 ==> Lookup(w, root', o) == Lookup(v, root, o))
  }

  ghost predicate SameFile(v: Vol, root: seq<nat>, w: Vol, root': seq<nat>)
  {
    && |root| == |root'| == NROOT
    && (forall o :: 0 <= o ==> Content(w, root', o) == Content(v, root, o) && Lookup(w, root', o) == Lookup(v, root, o))
  }

  /** Blocks that are in use by others keep their contents. */
  ghost predicate OthersKept(v: Vol, root: seq<nat>, w: Vol)
    requires Shape(v) && |root| == NROOT
  {
    forall b: nat :: Owned(v, b) && (forall p :: ValidPath(p) ==> At(v.disk, root, p) != b) ==> b < |w.disk| && w.disk[b] == v.disk[b]
  }

  /** The map is made to have the offset, and the data are written to its block, if there
      is one. */
  ghost predicate Wrote(v: Vol, root: seq<nat>, x: Vol, root': seq<nat>, off: nat, data: Block, stored: bool, before: nat, after: nat)
    requires off <= IND2LIM
  {
    exists w, r, took :: WroteBy(v, root, x, root', off, data, stored, before, after, w, r, took)
  }

  ghost predicate WroteBy(v: Vol, root: seq<nat>, x: Vol, root': seq<nat>, off: nat, data: Block, stored: bool,
                          before: nat, after: nat, w: Vol, r: nat, took: set<nat>)
    requires off <= IND2LIM
  {
    && Mapped(v, root, w, root', PathOf(off), true, r, took)
    && Accounted(w, root', PathOf(off), true, r, took, before, after)
    && (stored <==> r != 0)
    && (stored ==> r < |w.disk| && x == w.(disk := w.disk[r := data])) && (!stored ==> x == w)
  }

  /** At an offset that has a block, that block alone is written. */
  lemma WroteMapped(v: Vol, root: seq<nat>, x: Vol, root': seq<nat>, off: nat, data: Block, stored: bool, before: nat, after: nat)
    requires Tree(v, root) && off <= IND2LIM && Lookup(v, root, off) != 0
    requires Wrote(v, root, x, root', off, data, stored, before, after)
    ensures stored && root' == root && after == before
    ensures Lookup(v, root, off) < |v.disk| && x == v.(disk := v.disk[Lookup(v, root, off) := data])
  {
    hide Tree, Grown, At, PathOf, Stuck;
    var w, r, took :| WroteBy(v, root, x, root', off, data, stored, before, after, w, r, took);
  }

  /** `ext2_bwrite`: the block is stored, unless the file system is read-only, the
      offset is too large or no block is left, and then the file is as before. */
  method Bwrite(fs: FileSystem, ip: Inode, off: nat, data: Block) returns (ghost stored: bool)
    requires Ok(fs.V()) && fs.Synced() && Tree(fs.V(), ip.block)
    modifies fs, ip`block, ip`blocks
    ensures fs.Synced() && old(fs.used) <= fs.used
    ensures Ok(fs.V()) && fs.Synced() && Tree(fs.V(), ip.block) && |fs.disk| == old(|fs.disk|)
    ensures fs.readonly || off > IND2LIM ==>
              !stored && fs.V() == old(fs.V()) && ip.block == old(ip.block) && ip.blocks == old(ip.blocks)
    ensures !fs.readonly && off <= IND2LIM ==>
              Wrote(old(fs.V()), old(ip.block), fs.V(), ip.block, off, data, stored, old(ip.blocks), ip.blocks)
    ensures stored ==> Stored(old(fs.V()), old(ip.block), fs.V(), ip.block, off, data)
    ensures !stored ==> SameFile(old(fs.V()), old(ip.block), fs.V(), ip.block)
    ensures !stored ==> fs.readonly || off > IND2LIM || Stuck(fs.V())
    ensures |old(ip.block)| == NROOT && (!fs.readonly && off <= IND2LIM && Lookup(old(fs.V()), old(ip.block), off) != 0 ==> stored)
    ensures stored ==> !fs.readonly && off <= IND2LIM && Lookup(fs.V(), ip.block, off) in fs.used
    ensures stored && off <= DIRECTLIM && old(ip.block[off]) != 0 ==> fs.used == old(fs.used) + {old(ip.block[off])}
    ensures OthersKept(old(fs.V()), old(ip.block), fs.V())
  {
    hide FileSystem.Synced, Ok, Tree, Mapped, Stored, SameFile, OthersKept, Stuck, PathOf, At, Lookup, Accounted;
    ghost var v, root := fs.V(), ip.block;
    TreeShape(v, root);
    stored := false;
    if fs.readonly {
      SameNow(v, root);
      return;
    }
    var b;
    ghost var took;
    b, took := Blkno(fs, ip, off, true);
    if off > IND2LIM {
      SameNow(v, root);
      return;
    }
    ghost var w, root' := fs.V(), ip.block;
    MappedOk(v, root, w, root', PathOf(off), true, b, took);
    NotStored(v, root, w, root', off, b, took);
    MapUpdate(v, root, w, root', off, true, b, took);
    if b != 0 {
      WriteStored(v, root, w, root', off, b, took, data);
      DataContent(w, root', off, data, off);
      DirectLookup(v, root, off);
      fs.WriteBlock(b, data);
      stored := true;
    }
    assert WroteBy(v, root, fs.V(), ip.block, off, data, stored, old(ip.blocks), ip.blocks, w, b, took);
  }

  lemma DirectLookup(v: Vol, root: seq<nat>, off: nat)
    requires |root| == NROOT
    ensures off <= DIRECTLIM ==> Lookup(v, root, off) == root[off]
  {
  }

  lemma SameNow(v: Vol, root: seq<nat>)
    requires Shape(v) && |root| == NROOT
    ensures SameFile(v, root, v, root) && OthersKept(v, root, v)
  {
  }

  lemma NotStored(v: Vol, root: seq<nat>, w: Vol, root': seq<nat>, off: nat, r: nat, took: set<nat>)
    requires Ok(v) && Tree(v, root) && off <= IND2LIM && Mapped(v, root, w, root', PathOf(off), true, r, took)
    ensures r == 0 ==> SameFile(v, root, w, root') && Stuck(w)
    ensures Shape(v) && |root| == NROOT && OthersKept(v, root, w)
  {
    hide Ok, Tree, At, PathOf, ZeroBlock, Stuck, Took, Shape, Extends, ValidPath, Lookup, Content;
    TreeShape(v, root);
    MapUpdate(v, root, w, root', off, true, r, took);
    if r == 0 {
      forall o | 0 <= o
        ensures Content(w, root', o) == Content(v, root, o)
      {
        if o != off {
          MapKeepsContent(v, root, w, root', off, true, r, took, o);
        } else {
          HoleContent(v, root, off);
          HoleContent(w, root', off);
        }
      }
    }
    KeptByOthers(v, root, w);
  }

  lemma HoleContent(v: Vol, root: seq<nat>, off: nat)
    requires |root| == NROOT && Lookup(v, root, off) == 0
    ensures Content(v, root, off) == ZeroBlock()
  {
  }

  lemma KeptByOthers(v: Vol, root: seq<nat>, w: Vol)
    requires Shape(v) && |root| == NROOT && KeepsData(v, root, w)
    ensures OthersKept(v, root, w)
  {
    hide Shape, InUse, IsBitmap, At, ValidPath;
  }

  lemma WriteStored(v: Vol, root: seq<nat>, w: Vol, root': seq<nat>, off: nat, r: nat, took: set<nat>, data: Block)
    requires Ok(v) && Tree(v, root) && off <= IND2LIM && Mapped(v, root, w, root', PathOf(off), true, r, took) && r != 0
    requires Shape(v) && |root| == NROOT && OthersKept(v, root, w)
    ensures r < |w.disk|
    ensures var x := w.(disk := w.disk[r := data]);
            && Ok(x) && Tree(x, root') && Stored(v, root, x, root', off, data) && OthersKept(v, root, x)
  {
    hide Ok, Tree, Mapped, At, PathOf, Shape, Owned, OthersKept, PointerBlock, ZeroBlock;
    MappedOk(v, root, w, root', PathOf(off), true, r, took);
    MapUpdate(v, root, w, root', off, true, r, took);
    LeafNotPointerBlock(w, root', off);
    DataContent(w, root', off, data, off);
    DataTree(w, root', r, data);
    var x := w.(disk := w.disk[r := data]);
    forall o: nat
      ensures o == off ==> Content(x, root', o) == data
      ensures o != off ==> Content(x, root', o) == Content(v, root, o)
      ensures Lookup(v, root, o) != 0 ==> Lookup(x, root', o) == Lookup(v, root, o)
    {
      DataContent(w, root', off, data, o);
      if o != off {
        MapKeepsContent(v, root, w, root', off, true, r, took, o);
      }
    }
    WriteKeepsOthers(v, root, w, off, r, data);
  }

  lemma WriteKeepsOthers(v: Vol, root: seq<nat>, w: Vol, off: nat, r: nat, data: Block)
    requires Shape(v) && |root| == NROOT && OthersKept(v, root, w) && off <= IND2LIM && r < |w.disk|
    requires r == Lookup(v, root, off) || !InUse(v, r)
    ensures OthersKept(v, root, w.(disk := w.disk[r := data]))
  {
    hide Shape, InUse, IsBitmap, At, PathOf;
  }

  // ----- a file that is mapped beyond the limit -----

  /** Block 1 is the bitmap, with all blocks in use; block 2 is the double-indirect block
      of a file, whose last pointer is to block 3, whose first is to block 4. */
  function FarVol(): (r: Vol)
  {
    Vol(MAP_BITS, [Group(1, 0)],
        [ZeroBlock(), AllOnes(), ZeroBlock()[255 := 3], ZeroBlock()[0 := 4], ZeroBlock()[0 := 7]], 0)
  }

  function FarRoot(): (r: seq<nat>)
    ensures |r| == NROOT && forall i :: 0 <= i < NROOT ==> r[i] == if i == DIND then 2 else 0
  {
    seq(NROOT, i => if i == DIND then 2 else 0)
  }

  lemma FarShape()
    ensures Shape(FarVol()) && Bm(FarVol(), 0) == AllOnes() && |FarVol().disk| == 5 && FarVol().bpg == MAP_BITS
    ensures |FarVol().groups| == 1 && FarVol().groups[0] == Group(1, 0)
  {
    hide AllOnes, ZeroBlock;
  }

  lemma FarUse(b: nat)
    ensures Shape(FarVol()) && InUse(FarVol(), b)
  {
    hide FarVol, AllOnes, Used, Bm, Shape, GroupOf, BitOf;
    FarShape();
    if b > 0 && GroupOf(MAP_BITS, b) < 1 {
      OnesUsed(BitOf(MAP_BITS, b));
    }
  }

  lemma FarOk()
    ensures Ok(FarVol())
  {
    hide FarVol, AllOnes, Used, Bm, Shape, InUse, BlockNo, Zeros;
    FarShape();
    FarUse(1);
    forall i | 0 <= i < MAP_BITS
      ensures Used(AllOnes(), i)
    {
      OnesUsed(i);
    }
    ZerosNone(AllOnes(), MAP_BITS);
    FarSum();
  }

  lemma FarSum()
    ensures FarVol().free == SumFree(FarVol().groups)
  {
    var groups := FarVol().groups;
    assert groups[..0] == [];
    assert SumFree(groups[..0]) == 0;
  }

  /** The pointers of the file: three in a row. */
  ghost function FarAt(q: Path): (r: nat)
  {
    if q == [DIND] then 2 else if q == [DIND, 255] then 3 else if q == [DIND, 255, 0] then 4 else 0
  }

  lemma FarBlocks()
    ensures |FarVol().disk| == 5
    ensures forall k :: 0 <= k < WORDS ==> FarVol().disk[2][k] == if k == 255 then 3 else 0
    ensures forall k :: 0 <= k < WORDS ==> FarVol().disk[3][k] == if k == 0 then 4 else 0
  {
    hide AllOnes;
  }

  lemma {:induction false} FarAtIs(q: Path)
    requires ValidPath(q)
    ensures At(FarVol().disk, FarRoot(), q) == FarAt(q)
    decreases |q|
  {
    hide FarVol, FarRoot;
    FarBlocks();
    if |q| > 1 {
      ParentValid(q);
      FarAtIs(Parent(q));
      assert q == Parent(q) + [Last(q)];
    }
  }

  /** A well-formed file whose block 65548 is mapped and has data, which `ext2_bread`
      delivers as zeros. */
  lemma FarFile()
    ensures Ok(FarVol()) && Tree(FarVol(), FarRoot())
    ensures IND2LIM < 65548 && Lookup(FarVol(), FarRoot(), 65548) == 4
    ensures Content(FarVol(), FarRoot(), 65548) != ZeroBlock()
  {
    hide FarVol, FarRoot, At, InUse, Shape, ValidPath, ZeroBlock;
    FarOk();
    FarShape();
    forall q | ValidPath(q)
      ensures At(FarVol().disk, FarRoot(), q) == FarAt(q)
      ensures FarAt(q) != 0 ==> Owned(FarVol(), FarAt(q))
    {
      FarAtIs(q);
      FarUse(FarAt(q));
    }
    LimitPaths(65548);
    FarData();
  }

  lemma FarData()
    ensures |FarVol().disk| == 5 && FarVol().disk[4] != ZeroBlock()
  {
    hide AllOnes;
    assert FarVol().disk[4][0] == 7 && ZeroBlock()[0] == 0;
  }
}
