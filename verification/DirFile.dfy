/** Directories as files: adding an entry and looking one up through the block map
    (tools/e2lib.c:859-888, 922-1016). */
module DirFile {
  import opened BitStream
  import opened Bitmap
  import opened Volume
  import opened Allocator
  import opened FileTree
  import opened FileMap
  import opened FileData
  import opened Directory
  import opened BlockBytes

  // ----- the directory in the file -----

  /** Block `i` as `ext2_bread` delivers it. */
  ghost function DirBlock(v: Vol, root: seq<nat>, i: nat): (r: Blk)
    requires |root| == NROOT
  {
    ToBytes(if i <= IND2LIM then Content(v, root, i) else ZeroBlock())
  }

  ghost function DirOf(v: Vol, root: seq<nat>, n: nat): (r: seq<Blk>)
    requires |root| == NROOT
    ensures |r| == n && forall i :: 0 <= i < n ==> r[i] == DirBlock(v, root, i)
  {
    seq(n, i requires 0 <= i < n => DirBlock(v, root, i))
  }

  /** A block with records is within the limit of the map, and is mapped. */
  lemma TiledMapped(v: Vol, root: seq<nat>, i: nat)
    requires |root| == NROOT && Tiled(DirBlock(v, root, i), 0)
    ensures i <= IND2LIM && Lookup(v, root, i) != 0
  {
    hide Lookup, Tiled;
    ZeroBytes();
    if i <= IND2LIM && Lookup(v, root, i) == 0 {
      HoleContent(v, root, i);
    }
  }

  lemma {:induction false} NoByte(j: nat)
    ensures ByteOf(0, j) == 0
  {
    if j > 0 {
      NoByte(j - 1);
    }
  }

  lemma ZeroBytes()
    ensures !Tiled(ToBytes(ZeroBlock()), 0)
  {
    hide Tiled;
    forall i | 0 <= i < BLOCKSIZE
      ensures ToBytes(ZeroBlock())[i] == 0
    {
      NoByte(i % 4);
    }
    ZerosNotTiled(ToBytes(ZeroBlock()));
  }

  /** What a stored block does to the directory. */
  lemma StoredDir(v: Vol, root: seq<nat>, w: Vol, root': seq<nat>, k: nat, c: Blk, n: nat)
    requires Stored(v, root, w, root', k, ToWords(c)) && k < n && k <= IND2LIM
    ensures |root| == |root'| == NROOT && DirOf(w, root', n) == DirOf(v, root, n)[k := c]
  {
    hide Content, ToBytes, ToWords;
    BytesOfWords(c);
  }

  /** The number of blocks of a directory, whose size is a multiple of the block size. */
  ghost predicate DirSize(size: nat, n: nat)
  {
    size == n * BLOCKSIZE
  }

  /** The outcome of adding an entry.  If the write does not go through, and that may be
      only because the file system is read-only, or a further block is needed and there
      is none or the map ends, then the file is as before; but a size that was to go up
      has gone up, and the directory then has one block more, whatever is there. */
  ghost predicate Added(v: Vol, root: seq<nat>, n: nat, w: Vol, root': seq<nat>, n': nat, r: Rec, stored: bool)
    requires |root| == |root'| == NROOT && DirTiled(DirOf(v, root, n))
  {
    var dir := DirOf(v, root, n);
    var full := DirFull(dir, |r.name|);
    && n' == (if full then n + 1 else n)
    && (stored ==> DirTiled(DirOf(w, root', n')) && Inserted(DirRecs(dir), DirRecs(DirOf(w, root', n')), r))
    && (!stored ==> SameFile(v, root, w, root'))
  }

  /** What `ext2_bwrite` of block `k` does. */
  ghost predicate Written(v: Vol, root: seq<nat>, x: Vol, root': seq<nat>, k: nat, c: Blk, stored: bool, before: nat, after: nat, readonly: bool)
  {
    if readonly || k > IND2LIM then !stored && x == v && root' == root && after == before
    else Wrote(v, root, x, root', k, ToWords(c), stored, before, after)
  }

  /** The block `c` that is to be written as block `k`: the first block with room, with the
      entry added, or else a new one with the entry alone. */
  ghost predicate Prepared(dir: seq<Blk>, r: Rec, k: nat, c: Blk)
    requires DirTiled(dir)
  {
    && Tiled(c, 0)
    && if DirFull(dir, |r.name|) then k == |dir| && Recs(c, 0) == [r]
       else k < |dir| && (forall i :: 0 <= i < k ==> NoRoom(dir[i], 0, |r.name|)) && exists at :: AddedAt(dir[k], c, at, r)
  }

  /** The directory with block `k` replaced, or added behind. */
  function WithBlock(dir: seq<Blk>, k: nat, c: Blk): (r: seq<Blk>)
  {
    if k < |dir| then dir[k := c] else dir + [c]
  }

  /** `ext2_mknod`; `k` and `c` are what it writes. */
  method Mknod(fs: FileSystem, ip: Inode, name: seq<byte>, ino: nat, buf: Blk, ghost n: nat)
    returns (ghost stored: bool, ghost k: nat, ghost c: Blk)
    requires Ok(fs.V()) && fs.Synced() && Tree(fs.V(), ip.block) && |ip.block| == NROOT && DirSize(ip.size, n)
    requires DirTiled(DirOf(fs.V(), ip.block, n)) && |name| <= 255 && ino < 0x1_0000_0000
    modifies fs, ip
    ensures Ok(fs.V()) && fs.Synced() && Tree(fs.V(), ip.block) && |ip.block| == NROOT
    ensures Prepared(old(DirOf(fs.V(), ip.block, n)), Rec(ino, name), k, c)
    ensures Written(old(fs.V()), old(ip.block), fs.V(), ip.block, k, c, stored, old(ip.blocks), ip.blocks, fs.readonly)
    ensures OthersKept(old(fs.V()), old(ip.block), fs.V())
    ensures var n' := if DirFull(old(DirOf(fs.V(), ip.block, n)), |name|) then n + 1 else n;
            && DirSize(ip.size, n') && Added(old(fs.V()), old(ip.block), n, fs.V(), ip.block, n', Rec(ino, name), stored)
            && (stored ==> DirOf(fs.V(), ip.block, n') == WithBlock(old(DirOf(fs.V(), ip.block, n)), k, c))
    ensures stored ==> !fs.readonly
    ensures !stored ==> fs.readonly || (DirFull(old(DirOf(fs.V(), ip.block, n)), |name|) && (n > IND2LIM || Stuck(fs.V())))
  {
    hide FileSystem.Synced, Ok, Tree, Tiled, Recs, Inserted, NoRoom, Stored, SameFile, OthersKept, Stuck, DirOf, Lookup,
         Content, ToBytes, ToWords, NewBlock, SmallDead, AddedAt, Wrote;
    ghost var v, root := fs.V(), ip.block;
    ghost var dir := DirOf(v, root, n);
    var i := 0;
    var dirbuf := buf;
    while i * BLOCKSIZE < ip.size
      invariant i <= n && Ok(fs.V()) && fs.Synced() && Tree(fs.V(), ip.block) && fs.V() == v && ip.block == root
      invariant DirSize(ip.size, n) && ip.blocks == old(ip.blocks)
      invariant forall j :: 0 <= j < i ==> NoRoom(dir[j], 0, |name|) && SmallDead(Recs(dir[j], 0), |name|)
      decreases n - i
    {
      var words := Bread(fs, ip, i);
      assert dir[i] == DirBlock(v, root, i);
      var found;
      ghost var at;
      found, dirbuf, at := AddInBlock(ToBytes(words), name, ino);
      if found {
        TiledMapped(v, root, i);
        k, c := i, dirbuf;
        stored := Bwrite(fs, ip, i, ToWords(dirbuf));
        if stored {
          StoredDir(v, root, fs.V(), ip.block, i, dirbuf, n);
          DirRecsUpdate(dir, i, dirbuf, Rec(ino, name));
        }
        TreeShape(fs.V(), ip.block);
        return;
      }
      i := i + 1;
    }
    var last := NewBlock(dirbuf, ino, name);
    k, c := n, last;
    NewBlockRecs(dirbuf, ino, name);
    stored := Bwrite(fs, ip, i, ToWords(last));
    if stored {
      StoredDir(v, root, fs.V(), ip.block, n, last, n + 1);
      DirLonger(v, root, n, last);
      DirSmallDead(dir, |name|);
      DirAppended(dir, last, Rec(ino, name));
    }
    TreeShape(fs.V(), ip.block);
    ip.size := ip.size + BLOCKSIZE;
  }

  lemma DirLonger(v: Vol, root: seq<nat>, n: nat, c: Blk)
    requires |root| == NROOT
    ensures DirOf(v, root, n + 1)[n := c] == DirOf(v, root, n) + [c]
  {
    hide DirBlock;
  }

  lemma DirAppended(dir: seq<Blk>, c: Blk, r: Rec)
    requires DirTiled(dir) && Tiled(c, 0) && Recs(c, 0) == [r] && SmallDead(DirRecs(dir), |r.name|)
    ensures DirTiled(dir + [c]) && Inserted(DirRecs(dir), DirRecs(dir + [c]), r)
  {
    hide Tiled, Recs, Inserted, SmallDead;
    assert (dir + [c])[..|dir|] == dir;
    InsertedAtEnd(DirRecs(dir), r);
  }

  /** Block after block, the first record with the name counts; a number of 2^31 or more
      is negative to the program, which then goes on with the next block. */
  ghost function Look(dir: seq<Blk>, k: nat, name: seq<byte>): (r: Found)
    requires DirTiled(dir) && k <= |dir|
    decreases |dir| - k
  {
    if k == |dir| then Nothing
    else
      var found := First(Recs(dir[k], 0), name);
      if found.Number? && found.ino < 0x8000_0000 then found else Look(dir, k + 1, name)
  }

  /** With smaller numbers it is the first record of the directory with the name. */
  lemma {:induction false} LookIs(dir: seq<Blk>, k: nat, name: seq<byte>)
    requires DirTiled(dir) && k <= |dir| && First(DirRecs(dir[..k]), name) == Nothing
    requires forall i :: 0 <= i < |dir| ==> LowNumber(First(Recs(dir[i], 0), name))
    ensures Look(dir, k, name) == First(DirRecs(dir), name)
    decreases |dir| - k
  {
    hide Tiled, Recs, First;
    if k < |dir| {
      assert dir[..k + 1][..k] == dir[..k];
      FirstConcat(DirRecs(dir[..k]), Recs(dir[k], 0), name);
      if First(Recs(dir[k], 0), name) == Nothing {
        LookIs(dir, k + 1, name);
      } else {
        DirPrefix(dir, k + 1, name);
      }
    } else {
      assert dir[..k] == dir;
    }
  }

  predicate LowNumber(f: Found)
  {
    f.Number? ==> f.ino < 0x8000_0000
  }

  /** One step of `ext2_namei`: block after block. */
  method Namei(fs: FileSystem, ip: Inode, name: seq<byte>, ghost n: nat) returns (r: Found)
    requires Ok(fs.V()) && fs.Synced() && Tree(fs.V(), ip.block) && |ip.block| == NROOT && DirSize(ip.size, n)
    requires DirTiled(DirOf(fs.V(), ip.block, n))
    modifies fs, ip`block, ip`blocks
    ensures fs.V() == old(fs.V()) && ip.block == old(ip.block) && ip.blocks == old(ip.blocks)
    ensures r == Look(DirOf(fs.V(), ip.block, n), 0, name)
    ensures (forall i :: 0 <= i < n ==> LowNumber(First(Recs(DirOf(fs.V(), ip.block, n)[i], 0), name))) ==>
              r == First(DirRecs(DirOf(fs.V(), ip.block, n)), name)
  {
    hide FileSystem.Synced, Ok, Tree, Tiled, Recs, First, DirOf, Lookup, Content, ToBytes;
    ghost var v, root := fs.V(), ip.block;
    ghost var dir := DirOf(v, root, n);
    LookStart(dir, name);
    var k := 0;
    while k * BLOCKSIZE < ip.size
      invariant k <= n && Ok(fs.V()) && fs.Synced() && Tree(fs.V(), ip.block) && fs.V() == v && ip.block == root
      invariant DirSize(ip.size, n) && ip.blocks == old(ip.blocks) && Look(dir, k, name) == Look(dir, 0, name)
      decreases n - k
    {
      var words := Bread(fs, ip, k);
      assert dir[k] == DirBlock(v, root, k);
      r := ScanBlock(ToBytes(words), name);
      if r.Number? && r.ino < 0x8000_0000 {
        return;
      }
      k := k + 1;
    }
    return Nothing;
  }

  lemma LookStart(dir: seq<Blk>, name: seq<byte>)
    requires DirTiled(dir)
    ensures (forall i :: 0 <= i < |dir| ==> LowNumber(First(Recs(dir[i], 0), name))) ==> Look(dir, 0, name) == First(DirRecs(dir), name)
  {
    hide Tiled, Recs, Look, LowNumber;
    FirstOne([], name);
    assert dir[..0] == [];
    if forall i :: 0 <= i < |dir| ==> LowNumber(First(Recs(dir[i], 0), name)) {
      LookIs(dir, 0, name);
    }
  }
}
