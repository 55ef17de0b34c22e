/** From offsets in a file to blocks, allocating on demand, and reading and writing
    through that map (tools/e2lib.c:643-832). */
module FileMap {
  import opened Bits
  import opened Bitmap
  import opened Volume
  import opened Allocator
  import opened FileTree

  const DIRECTLIM: nat := NDIR - 1
  const IND1LIM: nat := WORDS + DIRECTLIM
  const IND2LIM: nat := WORDS * WORDS + DIRECTLIM

  /** Where the double-indirect tree ends, which is `WORDS` blocks beyond `ind2lim`, and
      where the triple-indirect one does. */
  const IND2END: nat := NDIR + WORDS + WORDS * WORDS
  const FILE_END: nat := IND2END + WORDS * WORDS * WORDS

  /** `i_block`, `i_blocks` (units of 512 bytes) and `i_size`. */
  class Inode {
    var block: seq<nat>
    var blocks: nat
    var size: nat

    constructor ()
      ensures block == seq(NROOT, _ => 0) && blocks == 0 && size == 0
    {
      block, blocks, size := seq(NROOT, _ => 0), 0, 0;
    }
  }

  /** The place of the pointer to a block of the file. */
  function PathOf(off: nat): (r: Path)
    requires off < FILE_END
    ensures ValidPath(r) && |r| == Depth(r[0]) + 1
  {
    if off <= DIRECTLIM then [off]
    else if off <= IND1LIM then [IND, off - (DIRECTLIM + 1)]
    else if off < IND2END then [DIND, (off - (IND1LIM + 1)) / WORDS, (off - (IND1LIM + 1)) % WORDS]
    else
      var x := off - IND2END;
      [TIND, x / WORDS / WORDS, x / WORDS % WORDS, x % WORDS]
  }

  lemma PathOfInjective(a: nat, b: nat)
    requires a < FILE_END && b < FILE_END && PathOf(a) == PathOf(b)
    ensures a == b
  {
    var p, q := PathOf(a), PathOf(b);
    assert p[0] == q[0] && |p| == |q|;
    if a > DIRECTLIM {
      assert p[1] == q[1];
    }
    if a > IND1LIM {
      assert p[2] == q[2];
    }
    if a >= IND2END {
      assert p[3] == q[3];
    }
  }

  /** A later block of the file has a later place: its path is greater at the first index
      where the two differ. */
  ghost predicate Before(p: Path, q: Path)
  {
    exists k :: 0 <= k < |p| && k < |q| && p[..k] == q[..k] && p[k] < q[k]
  }

  lemma PathOfOrdered(a: nat, b: nat)
    requires a < b < FILE_END
    ensures Before(PathOf(a), PathOf(b))
  {
    var p, q := PathOf(a), PathOf(b);
    if p[0] < q[0] {
      assert p[..0] == q[..0];
    } else if p[1] < q[1] {
      assert p[..1] == q[..1];
    } else if p[2] < q[2] {
      assert p[..2] == q[..2];
    } else {
      assert p[..3] == q[..3];
    }
  }

  /** And every place for a data block is that of some block of the file: in order, the
      blocks of the file fill the places. */
  lemma PathOfOnto(p: Path) returns (off: nat)
    requires ValidPath(p) && |p| == Depth(p[0]) + 1
    ensures off < FILE_END && PathOf(off) == p
  {
    match |p|
    case 1 => off := p[0];
    case 2 => off := NDIR + p[1];
    case 3 =>
      off := NDIR + WORDS + WORDS * p[1] + p[2];
      DivUnique(off - (IND1LIM + 1), WORDS, p[1], p[2]);
    case _ =>
      var x := WORDS * p[1] + p[2];
      off := IND2END + WORDS * x + p[3];
      DivUnique(WORDS * x + p[3], WORDS, x, p[3]);
      DivUnique(x, WORDS, p[1], p[2]);
  }

  /** The routine stops one pointer block short: the tree has places for 256 more
      blocks under the double-indirect block, and it refuses them. */
  lemma LimitPaths(off: nat)
    requires IND2LIM < off < IND2END
    ensures PathOf(off) == [DIND, 255, off - (IND2LIM + 1)]
  {
  }

  /** The block of a file, anywhere in its four ranges. */
  ghost function Lookup(v: Vol, root: seq<nat>, off: nat): (r: nat)
    requires |root| == NROOT
  {
    if off >= FILE_END then 0 else At(v.disk, root, PathOf(off))
  }

  /** A block of the file; a hole is zeros. */
  ghost function Content(v: Vol, root: seq<nat>, off: nat): (r: Block)
    requires |root| == NROOT
  {
    var b := Lookup(v, root, off);
    if 0 < b < |v.disk| then v.disk[b] else ZeroBlock()
  }

  // ----- growing -----

  /** Allocate a block for a pointer of the inode; a pointer block is zeroed. */
  method GrowRoot(fs: FileSystem, ip: Inode, i: nat) returns (x: nat)
    requires Ok(fs.V()) && fs.Synced() && Tree(fs.V(), ip.block) && i < NROOT && ip.block[i] == 0
    modifies fs, ip`block
    ensures fs.Synced() && old(fs.used) <= fs.used
    ensures x == 0 <==> fs.readonly || Stuck(old(fs.V()))
    ensures x == 0 ==> fs.V() == old(fs.V()) && ip.block == old(ip.block)
    ensures x != 0 ==> Grown(old(fs.V()), old(ip.block), fs.V(), ip.block, [i], {x}) && ip.block == old(ip.block)[i := x]
  {
    hide FileSystem.Synced, Tree, Grown, Stuck, FirstFree, Ok, Claimed, Shape;
    ghost var v, root := fs.V(), ip.block;
    TreeShape(v, root);
    x := fs.Balloc();
    if x != 0 {
      ghost var v1 := fs.V();
      ClaimedFits(v, v1, x);
      ip.block := ip.block[i := x];
      if i >= NDIR {
        fs.WriteBlock(x, ZeroBlock());
      }
      GrownRoot(v, v1, fs.V(), root, i, x);
    }
  }

  lemma GrownRoot(v: Vol, v1: Vol, w: Vol, root: seq<nat>, i: nat, x: nat)
    requires Ok(v) && Ok(v1) && Tree(v, root) && Claimed(v, v1, {x}) && i < NROOT && root[i] == 0
    requires x < |v1.disk| && w == v1.(disk := if i >= NDIR then v1.disk[x := ZeroBlock()] else v1.disk)
    ensures Grown(v, root, w, root[i := x], [i], {x})
  {
    hide Tree, Ok, Grown, Shape, InUse, IsBitmap;
    ClaimedFits(v, v1, x);
    WrittenFresh(v, v1, w, x);
    assert Linked(v, root, w.disk, root[i := x], [i], x) by {
      TreeShape(v, root);
      OwnedKept(v, v1, w, x);
    }
    LinkGrown(v, root, w, root[i := x], [i], x, [i]);
  }

  lemma ClaimedFits(v: Vol, v1: Vol, x: nat)
    requires Ok(v) && Claimed(v, v1, {x})
    ensures 0 < x < |v1.disk| == |v.disk| && x < 0x8000_0000 && !InUse(v, x) && !IsBitmap(v, x) && !IsBitmap(v1, x)
    ensures forall b :: IsBitmap(v1, b) <==> IsBitmap(v, b)
  {
    hide Padded, Counted, InUse, IsBitmap;
    NotBitmap(v, x);
    SameBitmaps(v, v1);
  }

  lemma TreeShape(v: Vol, root: seq<nat>)
    requires Tree(v, root)
    ensures Shape(v) && |root| == NROOT
  {
  }

  /** Writing to the block just taken. */
  lemma WrittenFresh(v: Vol, v1: Vol, w: Vol, x: nat)
    requires Ok(v) && Ok(v1) && Claimed(v, v1, {x})
    requires w == v1.(disk := w.disk) && |w.disk| == |v1.disk|
    requires forall b :: 0 <= b < |v1.disk| && IsBitmap(v1, b) ==> w.disk[b] == v1.disk[b]
    ensures Ok(w) && Took(v, w, {x})
  {
    hide Padded, Counted, InUse, IsBitmap;
    OkElsewhere(v1, w);
  }

  lemma OwnedKept(v: Vol, v1: Vol, w: Vol, x: nat)
    requires Ok(v) && Claimed(v, v1, {x}) && |w.disk| == |v1.disk|
    requires forall b :: 0 <= b < |v1.disk| && b != x ==> w.disk[b] == v1.disk[b]
    ensures forall b: nat :: Owned(v, b) ==> w.disk[b] == v.disk[b]
  {
    hide Ok, InUse, IsBitmap, Shape;
  }

  /** Allocate a block for a pointer in pointer block `b`, which is at `Parent(p)`; `buf`
      is what was read from there. */
  method GrowIn(fs: FileSystem, ip: Inode, b: nat, buf: Block, p: Path) returns (x: nat)
    requires Ok(fs.V()) && fs.Synced() && Tree(fs.V(), ip.block) && ValidPath(p) && |p| > 1 && ValidPath(Parent(p))
    requires At(fs.disk, ip.block, Parent(p)) == b != 0 && At(fs.disk, ip.block, p) == 0
    requires b < |fs.disk| && buf == fs.disk[b]
    modifies fs
    ensures fs.Synced() && old(fs.used) <= fs.used
    ensures x == 0 <==> fs.readonly || Stuck(old(fs.V()))
    ensures x == 0 ==> fs.V() == old(fs.V())
    ensures x != 0 ==> Grown(old(fs.V()), ip.block, fs.V(), ip.block, p, {x}) && At(fs.disk, ip.block, p) == x
  {
    hide FileSystem.Synced, Tree, Grown, Stuck, FirstFree, Ok, Claimed, Shape, At, ValidPath;
    ghost var v, root := fs.V(), ip.block;
    TreeShape(v, root);
    ParentValid(p);
    OwnedAt(v, root, Parent(p));
    x := fs.Balloc();
    if x != 0 {
      ghost var v1 := fs.V();
      ClaimedFits(v, v1, x);
      ClaimedKeeps(v, v1, x, b);
      fs.WriteBlock(b, buf[Last(p) := x]);
      if Inner(p) {
        fs.WriteBlock(x, ZeroBlock());
      }
      GrownIn(v, v1, fs.V(), root, b, p, x);
    }
  }

  lemma ClaimedKeeps(v: Vol, v1: Vol, x: nat, b: nat)
    requires Ok(v) && Claimed(v, v1, {x}) && Owned(v, b)
    ensures 0 < b < |v1.disk| && v1.disk[b] == v.disk[b]
  {
    hide Padded, Counted, InUse, IsBitmap;
  }

  lemma OwnedAt(v: Vol, root: seq<nat>, p: Path)
    requires Tree(v, root) && ValidPath(p) && At(v.disk, root, p) != 0
    ensures Owned(v, At(v.disk, root, p))
  {
  }

  lemma GrownIn(v: Vol, v1: Vol, w: Vol, root: seq<nat>, b: nat, p: Path, x: nat)
    requires Ok(v) && Ok(v1) && Tree(v, root) && Claimed(v, v1, {x})
    requires ValidPath(p) && |p| > 1 && ValidPath(Parent(p)) && Last(p) < WORDS && Owned(v, b)
    requires At(v.disk, root, Parent(p)) == b && At(v.disk, root, p) == 0
    requires x < |v1.disk| && b < |v1.disk| && x < 0x8000_0000 && w == v1.(disk := w.disk)
    requires w.disk == var d := v1.disk[b := v1.disk[b][Last(p) := x]]; if Inner(p) then d[x := ZeroBlock()] else d
    ensures Grown(v, root, w, root, p, {x}) && At(w.disk, root, p) == x
  {
    hide Tree, Ok, Grown, Shape, InUse, At, IsBitmap, ZeroBlock, ValidPath, Inner;
    ClaimedFits(v, v1, x);
    WrittenFresh(v, v1, w, x);
    assert Linked(v, root, w.disk, root, p, x) by {
      LinkedIn(v, v1, w, root, b, p, x);
    }
    LinkGrown(v, root, w, root, p, x, p);
  }

  lemma LinkedIn(v: Vol, v1: Vol, w: Vol, root: seq<nat>, b: nat, p: Path, x: nat)
    requires Ok(v) && Tree(v, root) && Claimed(v, v1, {x})
    requires ValidPath(p) && |p| > 1 && ValidPath(Parent(p)) && Last(p) < WORDS && Owned(v, b)
    requires At(v.disk, root, Parent(p)) == b
    requires x < |v1.disk| && b < |v1.disk| && x < 0x8000_0000
    requires w.disk == var d := v1.disk[b := v1.disk[b][Last(p) := x]]; if Inner(p) then d[x := ZeroBlock()] else d
    ensures Linked(v, root, w.disk, root, p, x)
  {
    hide Tree, Ok, Shape, InUse, At, IsBitmap, ZeroBlock, ValidPath, Inner;
    TreeShape(v, root);
    ClaimedFits(v, v1, x);
    forall c: nat | Owned(v, c) && c != b
      ensures w.disk[c] == v.disk[c]
    {
    }
  }

  // ----- ext2_blkno -----

  /** What a lookup of the pointer at `path` does: it finds what is there, or, asked
      to, it fills in the pointers on the way that are missing, unless it runs out of
      blocks. */
  ghost predicate Mapped(v: Vol, root: seq<nat>, w: Vol, root': seq<nat>, path: Path, allocate: bool, r: nat, took: set<nat>)
  {
    && ValidPath(path) && |root| == |root'| == NROOT && Shape(w)
    && Grown(v, root, w, root', path, took)
    && r == At(w.disk, root', path)
    && (!allocate || At(v.disk, root, path) != 0 ==> w == v && root' == root && took == {})
    && (allocate && r == 0 ==> Stuck(w))
  }

  /** Nothing to be done. */
  lemma MappedNow(v: Vol, root: seq<nat>, path: Path, allocate: bool)
    requires Ok(v) && Tree(v, root) && ValidPath(path)
    requires allocate ==> At(v.disk, root, path) != 0 || Stuck(v)
    ensures Mapped(v, root, v, root, path, allocate, At(v.disk, root, path), {})
  {
    hide Ok, Tree, Grown, At, ValidPath;
    TreeShape(v, root);
    GrownNot(v, root, path);
  }

  /** The pointer block on the way is missing. */
  lemma MappedNot(u: Vol, root: seq<nat>, v: Vol, root': seq<nat>, p: Path, allocate: bool, s: set<nat>)
    requires ValidPath(p) && |p| > 1 && Mapped(u, root, v, root', Parent(p), allocate, 0, s)
    ensures Mapped(u, root, v, root', p, allocate, 0, s)
  {
    hide Ok, Tree, At, KeepsData, Took, Stuck, Shape;
    BelowMissing(v.disk, root', p);
    GrownLonger(u, root, v, root', Parent(p), p, s);
    AboveSet(u.disk, root, p);
  }

  /** The pointer block on the way was found or made first. */
  lemma MappedThen(u: Vol, root: seq<nat>, v: Vol, root': seq<nat>, w: Vol, root'': seq<nat>, p: Path, allocate: bool,
                   b: nat, s: set<nat>, r: nat, t: set<nat>)
    requires Ok(u) && Tree(u, root) && ValidPath(p) && |p| > 1
    requires Mapped(u, root, v, root', Parent(p), allocate, b, s)
    requires Mapped(v, root', w, root'', p, allocate, r, t)
    ensures Mapped(u, root, w, root'', p, allocate, r, s + t) && s !! t
  {
    hide Ok, Tree, Grown, At, ValidPath, Stuck, Shape;
    GrownLonger(u, root, v, root', Parent(p), p, s);
    GrownMore(u, root, v, root', w, root'', p, s, t);
    AboveSet(u.disk, root, p);
  }

  lemma GrownLonger(v: Vol, root: seq<nat>, w: Vol, root': seq<nat>, p: Path, path: Path, s: set<nat>)
    requires Grown(v, root, w, root', p, s) && p <= path
    ensures Grown(v, root, w, root', path, s)
  {
    hide Ok, Tree, At, KeepsData, Took;
  }

  /** A pointer below a missing one is missing. */
  lemma BelowMissing(disk: seq<Block>, root: seq<nat>, p: Path)
    requires ValidPath(p) && |p| > 1 && |root| == NROOT && ValidPath(Parent(p)) && At(disk, root, Parent(p)) == 0
    ensures At(disk, root, p) == 0
  {
  }

  lemma AboveSet(disk: seq<Block>, root: seq<nat>, p: Path)
    requires ValidPath(p) && |p| > 1 && |root| == NROOT
    ensures ValidPath(Parent(p))
    ensures At(disk, root, p) != 0 ==> At(disk, root, Parent(p)) != 0
  {
    ParentValid(p);
  }

  lemma AtIn(v: Vol, root: seq<nat>, p: Path)
    requires Tree(v, root) && ValidPath(p) && |p| > 1 && ValidPath(Parent(p)) && Last(p) < WORDS && At(v.disk, root, Parent(p)) != 0
    ensures 0 < At(v.disk, root, Parent(p)) < |v.disk|
    ensures At(v.disk, root, p) == v.disk[At(v.disk, root, Parent(p))][Last(p)]
  {
    hide InUse, IsBitmap;
  }

  lemma GrownOk(v: Vol, root: seq<nat>, w: Vol, root': seq<nat>, path: Path, s: set<nat>)
    requires Grown(v, root, w, root', path, s)
    ensures Ok(w) && Tree(w, root') && Shape(w) && |root'| == NROOT
  {
  }

  /** How many blocks a lookup took at one level. */
  ghost predicate OneLevel(missing: bool, allocate: bool, r: nat, took: set<nat>)
  {
    && took == (if missing && allocate && r != 0 then {r} else {})
    && (!missing ==> r != 0) && (missing && r != 0 ==> allocate)
  }

  /** The pointer at `p` in pointer block `b`. */
  method PointerIn(fs: FileSystem, ip: Inode, b: nat, p: Path, allocate: bool)
    returns (r: nat, missing: bool, ghost took: set<nat>)
    requires Ok(fs.V()) && fs.Synced() && Tree(fs.V(), ip.block) && ValidPath(p) && |p| > 1 && ValidPath(Parent(p))
    requires At(fs.disk, ip.block, Parent(p)) == b != 0 && (allocate ==> !fs.readonly)
    modifies fs
    ensures fs.Synced() && old(fs.used) <= fs.used
    ensures Mapped(old(fs.V()), ip.block, fs.V(), ip.block, p, allocate, r, took)
    ensures missing == old(At(fs.disk, ip.block, p) == 0) && OneLevel(missing, allocate, r, took)
  {
    hide FileSystem.Synced, Ok, Tree, Grown, At, ValidPath, Stuck;
    took := {};
    TreeShape(fs.V(), ip.block);
    ParentValid(p);
    AtIn(fs.V(), ip.block, p);
    var buf := fs.ReadBlock(b);
    r := buf[Last(p)];
    missing := r == 0;
    if missing && allocate {
      ghost var v := fs.V();
      r := GrowIn(fs, ip, b, buf, p);
      if r != 0 {
        took := {r};
        GrownOk(v, ip.block, fs.V(), ip.block, p, took);
        return;
      }
    }
    MappedNow(fs.V(), ip.block, p, allocate);
  }

  /** Pointer `i` of the inode. */
  method PointerOf(fs: FileSystem, ip: Inode, i: nat, allocate: bool) returns (r: nat, ghost took: set<nat>)
    requires Ok(fs.V()) && fs.Synced() && Tree(fs.V(), ip.block) && i < NROOT && (allocate ==> !fs.readonly)
    modifies fs, ip`block
    ensures fs.Synced() && old(fs.used) <= fs.used
    ensures Mapped(old(fs.V()), old(ip.block), fs.V(), ip.block, [i], allocate, r, took)
    ensures OneLevel(old(ip.block[i]) == 0, allocate, r, took)
    ensures old(ip.block[i]) != 0 ==> fs.used == old(fs.used)
  {
    hide FileSystem.Synced, Ok, Tree, Grown, Stuck;
    took := {};
    TreeShape(fs.V(), ip.block);
    r := ip.block[i];
    if r == 0 && allocate {
      ghost var v, root := fs.V(), ip.block;
      r := GrowRoot(fs, ip, i);
      if r != 0 {
        took := {r};
        GrownOk(v, root, fs.V(), ip.block, [i], took);
        return;
      }
    }
    MappedNow(fs.V(), ip.block, [i], allocate);
  }

  /** `i_blocks` goes up although no block was had: for a direct block and for a data
      block under a double-indirect block the count is raised before the result is
      looked at. */
  ghost predicate Overcounts(w: Vol, root': seq<nat>, path: Path, allocate: bool, r: nat)
    requires ValidPath(path) && |root'| == NROOT
  {
    && allocate && r == 0
    && (|path| == 1 || (|path| == 3 && (ParentValid(path); At(w.disk, root', Parent(path)) != 0)))
  }

  ghost predicate Accounted(w: Vol, root': seq<nat>, path: Path, allocate: bool, r: nat, took: set<nat>, before: nat, after: nat)
    requires ValidPath(path) && |root'| == NROOT
  {
    after == before + 2 * |took| + if Overcounts(w, root', path, allocate, r) then 2 else 0
  }

  /** `ext2_blkno`. */
  method Blkno(fs: FileSystem, ip: Inode, off: nat, allocate: bool) returns (r: nat, ghost took: set<nat>)
    requires Ok(fs.V()) && fs.Synced() && Tree(fs.V(), ip.block)
    modifies fs, ip`block, ip`blocks
    ensures fs.Synced() && old(fs.used) <= fs.used
    ensures (allocate && fs.readonly) || off > IND2LIM ==>
              r == 0 && took == {} && fs.V() == old(fs.V()) && ip.block == old(ip.block) && ip.blocks == old(ip.blocks)
    ensures !(allocate && fs.readonly) && off <= IND2LIM ==>
              && Mapped(old(fs.V()), old(ip.block), fs.V(), ip.block, PathOf(off), allocate, r, took)
              && Accounted(fs.V(), ip.block, PathOf(off), allocate, r, took, old(ip.blocks), ip.blocks)
    ensures off <= DIRECTLIM && old(|ip.block| == NROOT && ip.block[off] != 0) ==> fs.used == old(fs.used)
  {
    hide FileSystem.Synced, Ok, Tree, Mapped, At;
    if (allocate && fs.readonly) || off > IND2LIM {
      return 0, {};
    }
    if off <= DIRECTLIM {
      r, took := Direct(fs, ip, off, allocate);
    } else if off <= IND1LIM {
      r, took := SingleIndirect(fs, ip, off - (DIRECTLIM + 1), allocate);
    } else {
      r, took := DoubleIndirect(fs, ip, (off - (IND1LIM + 1)) / WORDS, (off - (IND1LIM + 1)) % WORDS, allocate);
    }
  }

  /** Lines 660-669. */
  method Direct(fs: FileSystem, ip: Inode, off: nat, allocate: bool) returns (r: nat, ghost took: set<nat>)
    requires Ok(fs.V()) && fs.Synced() && Tree(fs.V(), ip.block) && off < NDIR && (allocate ==> !fs.readonly)
    modifies fs, ip`block, ip`blocks
    ensures fs.Synced() && old(fs.used) <= fs.used
    ensures Mapped(old(fs.V()), old(ip.block), fs.V(), ip.block, [off], allocate, r, took)
    ensures Accounted(fs.V(), ip.block, [off], allocate, r, took, old(ip.blocks), ip.blocks)
    ensures old(ip.block[off]) != 0 ==> fs.used == old(fs.used)
  {
    hide FileSystem.Synced, Ok, Tree, Grown, Stuck;
    TreeShape(fs.V(), ip.block);
    var missing := ip.block[off] == 0;
    r, took := PointerOf(fs, ip, off, allocate);
    if missing && allocate {
      ip.blocks := ip.blocks + 2;
    }
  }

  /** Lines 672-712. */
  method SingleIndirect(fs: FileSystem, ip: Inode, k: nat, allocate: bool) returns (r: nat, ghost took: set<nat>)
    requires Ok(fs.V()) && fs.Synced() && Tree(fs.V(), ip.block) && k < WORDS && (allocate ==> !fs.readonly)
    modifies fs, ip`block, ip`blocks
    ensures fs.Synced() && old(fs.used) <= fs.used
    ensures Mapped(old(fs.V()), old(ip.block), fs.V(), ip.block, [IND, k], allocate, r, took)
    ensures Accounted(fs.V(), ip.block, [IND, k], allocate, r, took, old(ip.blocks), ip.blocks)
  {
    hide FileSystem.Synced, Ok, Tree, Grown, Stuck, At, Mapped;
    TreeShape(fs.V(), ip.block);
    ghost var u, root := fs.V(), ip.block;
    var p: Path := [IND, k];
    assert Parent(p) == [IND];
    var missing := ip.block[IND] == 0;
    var iblkno;
    ghost var took1;
    iblkno, took := PointerOf(fs, ip, IND, allocate);
    if iblkno == 0 {
      MappedNot(u, root, fs.V(), ip.block, p, allocate, took);
      MappedOk(u, root, fs.V(), ip.block, [IND], allocate, iblkno, took);
      return 0, took;
    }
    if missing {
      ip.blocks := ip.blocks + 2;
    }
    ghost var v, root' := fs.V(), ip.block;
    MappedOk(u, root, v, root', [IND], allocate, iblkno, took);
    AtIn(v, root', p);
    r, missing, took1 := PointerIn(fs, ip, iblkno, p, allocate);
    if missing && r != 0 {
      ip.blocks := ip.blocks + 2;
    }
    MappedOk(v, root', fs.V(), ip.block, p, allocate, r, took1);
    MappedThen(u, root, v, root', fs.V(), ip.block, p, allocate, iblkno, took, r, took1);
    took := took + took1;
  }

  /** Lines 715-794. */
  method DoubleIndirect(fs: FileSystem, ip: Inode, k: nat, l: nat, allocate: bool) returns (r: nat, ghost took: set<nat>)
    requires Ok(fs.V()) && fs.Synced() && Tree(fs.V(), ip.block) && k < WORDS && l < WORDS && (allocate ==> !fs.readonly)
    modifies fs, ip`block, ip`blocks
    ensures fs.Synced() && old(fs.used) <= fs.used
    ensures Mapped(old(fs.V()), old(ip.block), fs.V(), ip.block, [DIND, k, l], allocate, r, took)
    ensures Accounted(fs.V(), ip.block, [DIND, k, l], allocate, r, took, old(ip.blocks), ip.blocks)
  {
    hide FileSystem.Synced, Ok, Tree, Grown, Stuck, At, Mapped;
    ghost var u, root := fs.V(), ip.block;
    var p: Path := [DIND, k, l];
    assert Parent(p) == [DIND, k];
    var iblkno;
    ghost var took1;
    iblkno, took := IndirectIn(fs, ip, k, allocate);
    ghost var v, root' := fs.V(), ip.block;
    MappedOk(u, root, v, root', [DIND, k], allocate, iblkno, took);
    if iblkno == 0 {
      MappedNot(u, root, v, root', p, allocate, took);
      return 0, took;
    }
    AtIn(v, root', p);
    var missing;
    r, missing, took1 := PointerIn(fs, ip, iblkno, p, allocate);
    if missing && allocate {
      ip.blocks := ip.blocks + 2;
    }
    MappedOk(v, root', fs.V(), ip.block, p, allocate, r, took1);
    MappedThen(u, root, v, root', fs.V(), ip.block, p, allocate, iblkno, took, r, took1);
    DoubleCount(v, root', fs.V(), ip.block, p, allocate, r, took1);
    took := took + took1;
    if missing && allocate && r == 0 {
      WriteBack(fs, iblkno);
    }
  }

  /** A pointer block is written although nothing in it has changed. */
  method WriteBack(fs: FileSystem, b: nat)
    requires fs.Synced() && 0 < b < |fs.disk|
    modifies fs
    ensures fs.Synced() && old(fs.used) <= fs.used && fs.V() == old(fs.V())
  {
    hide FileSystem.Synced;
    assert fs.disk[b := fs.disk[b]] == fs.disk;
    fs.WriteBlock(b, fs.disk[b]);
  }

  /** The pointer block stays where it was found. */
  lemma DoubleCount(v: Vol, root: seq<nat>, w: Vol, root': seq<nat>, p: Path, allocate: bool, r: nat, s: set<nat>)
    requires ValidPath(p) && |p| == 3 && Mapped(v, root, w, root', p, allocate, r, s)
    requires ValidPath(Parent(p)) && At(v.disk, root, Parent(p)) != 0
    ensures Overcounts(w, root', p, allocate, r) <==> allocate && r == 0
  {
    hide Ok, Tree, At, KeepsData, Took, Stuck, Shape;
  }

  /** Lines 717-771: the double-indirect block and the indirect block in it. */
  method IndirectIn(fs: FileSystem, ip: Inode, k: nat, allocate: bool) returns (r: nat, ghost took: set<nat>)
    requires Ok(fs.V()) && fs.Synced() && Tree(fs.V(), ip.block) && k < WORDS && (allocate ==> !fs.readonly)
    modifies fs, ip`block, ip`blocks
    ensures fs.Synced() && old(fs.used) <= fs.used
    ensures Mapped(old(fs.V()), old(ip.block), fs.V(), ip.block, [DIND, k], allocate, r, took)
    ensures ip.blocks == old(ip.blocks) + 2 * |took|
  {
    hide FileSystem.Synced, Ok, Tree, Grown, Stuck, At, Mapped;
    TreeShape(fs.V(), ip.block);
    ghost var u, root := fs.V(), ip.block;
    var p: Path := [DIND, k];
    assert Parent(p) == [DIND];
    var missing := ip.block[DIND] == 0;
    var diblkno;
    ghost var took1;
    diblkno, took := PointerOf(fs, ip, DIND, allocate);
    ghost var v, root' := fs.V(), ip.block;
    MappedOk(u, root, v, root', [DIND], allocate, diblkno, took);
    if diblkno == 0 {
      MappedNot(u, root, v, root', p, allocate, took);
      return 0, took;
    }
    if missing {
      ip.blocks := ip.blocks + 2;
    }
    AtIn(v, root', p);
    r, missing, took1 := PointerIn(fs, ip, diblkno, p, allocate);
    if missing && r != 0 {
      ip.blocks := ip.blocks + 2;
    }
    MappedOk(v, root', fs.V(), ip.block, p, allocate, r, took1);
    MappedThen(u, root, v, root', fs.V(), ip.block, p, allocate, diblkno, took, r, took1);
    took := took + took1;
  }

  lemma MappedOk(u: Vol, root: seq<nat>, v: Vol, root': seq<nat>, p: Path, allocate: bool, r: nat, s: set<nat>)
    requires Mapped(u, root, v, root', p, allocate, r, s)
    ensures Ok(v) && Tree(v, root') && Shape(v) && |root'| == NROOT && ValidPath(p) && At(v.disk, root', p) == r
    ensures (!allocate ==> s == {}) && |v.disk| == |u.disk|
  {
    hide Ok, Tree, At, KeepsData, Extends, Shape, InUse;
  }
}
