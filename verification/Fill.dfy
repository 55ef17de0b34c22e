/** Giving a file a run of contiguous blocks (tools/e2lib.c:492-563). */
module Fill {
  import opened Bitmap
  import opened Volume
  import opened Allocator
  import opened FileTree
  import opened FileMap

  datatype Filling = Failed | Filled(first: nat) | Undefined

  function NoBlocks(): (r: seq<nat>)
    ensures |r| == NROOT && forall i :: 0 <= i < NROOT ==> r[i] == 0
  {
    seq(NROOT, _ => 0)
  }

  /** The pointers after the routine: the direct ones, and the indirect block. */
  function FilledRoot(root: seq<nat>, first: nat, n: nat, iblkno: nat): (r: seq<nat>)
    requires |root| == NROOT
    ensures |r| == NROOT
    ensures forall i :: 0 <= i < NROOT ==>
              r[i] == if i < n && i < NDIR then first + i else if i == IND && n > DIRECTLIM then iblkno else root[i]
  {
    seq(NROOT, i requires 0 <= i < NROOT =>
      if i < n && i < NDIR then first + i else if i == IND && n > DIRECTLIM then iblkno else root[i])
  }

  /** The indirect block: the pointers that do not fit in the inode. */
  ghost predicate FilledBlock(b: Block, first: nat, n: nat)
  {
    forall k :: 0 <= k < WORDS ==> b[k] == if NDIR + k < n then first + (NDIR + k) else 0
  }

  /** What the pointer at `q` is in a file that has just been filled. */
  ghost function FilledAt(first: nat, n: nat, iblkno: nat, q: Path): (r: nat)
    requires ValidPath(q)
  {
    if |q| == 1 && q[0] < NDIR then (if q[0] < n then first + q[0] else 0)
    else if q == [IND] then (if n > DIRECTLIM then iblkno else 0)
    else if |q| == 2 && q[0] == IND then (if NDIR + q[1] < n then first + (NDIR + q[1]) else 0)
    else 0
  }

  lemma {:induction false} AtFilled(disk: seq<Block>, first: nat, n: nat, iblkno: nat, q: Path)
    requires ValidPath(q) && (n > DIRECTLIM ==> 0 < iblkno < |disk| && FilledBlock(disk[iblkno], first, n))
    ensures At(disk, FilledRoot(NoBlocks(), first, n, iblkno), q) == FilledAt(first, n, iblkno, q)
    decreases |q|
  {
    var root := FilledRoot(NoBlocks(), first, n, iblkno);
    if |q| > 1 {
      ParentValid(q);
      AtFilled(disk, first, n, iblkno, Parent(q));
    }
  }

  /** Different places have different blocks. */
  lemma FilledApart(first: nat, n: nat, iblkno: nat, p: Path, q: Path)
    requires ValidPath(p) && ValidPath(q) && p != q && FilledAt(first, n, iblkno, p) != 0
    requires first > 0 && !(first <= iblkno < first + n)
    ensures FilledAt(first, n, iblkno, p) != FilledAt(first, n, iblkno, q)
  {
  }

  lemma FilledIn(first: nat, n: nat, iblkno: nat, p: Path)
    requires ValidPath(p) && FilledAt(first, n, iblkno, p) != 0
    ensures first <= FilledAt(first, n, iblkno, p) < first + n || (n > DIRECTLIM && FilledAt(first, n, iblkno, p) == iblkno)
  {
  }

  /** The blocks taken. */
  ghost function FilledSet(first: nat, n: nat, iblkno: nat): (r: set<nat>)
  {
    Run(first, n) + if n > DIRECTLIM then {iblkno} else {}
  }

  lemma FilledTree(v: Vol, w: Vol, first: nat, n: nat, iblkno: nat)
    requires Ok(v) && Ok(w) && Took(v, w, FilledSet(first, n, iblkno)) && first > 0
    requires n > DIRECTLIM ==> !(first <= iblkno < first + n) && 0 < iblkno < |w.disk| && FilledBlock(w.disk[iblkno], first, n)
    requires n <= DIRECTLIM ==> iblkno == 0
    ensures Tree(w, FilledRoot(NoBlocks(), first, n, iblkno))
  {
    hide At, InUse, Padded, Counted, FilledAt, FilledBlock, ValidPath, Run, Shape;
    var root := FilledRoot(NoBlocks(), first, n, iblkno);
    forall q | ValidPath(q)
      ensures At(w.disk, root, q) == FilledAt(first, n, iblkno, q)
      ensures FilledAt(first, n, iblkno, q) != 0 ==> Owned(w, FilledAt(first, n, iblkno, q))
    {
      AtFilled(w.disk, first, n, iblkno, q);
      if FilledAt(first, n, iblkno, q) != 0 {
        FilledIn(first, n, iblkno, q);
        TookOwned(v, w, FilledSet(first, n, iblkno), FilledAt(first, n, iblkno, q));
      }
    }
    forall p, q | ValidPath(p) && ValidPath(q) && p != q && At(w.disk, root, p) != 0
      ensures At(w.disk, root, p) != At(w.disk, root, q)
    {
      FilledApart(first, n, iblkno, p, q);
    }
    OkShape(w);
  }

  /** An inode without pointers is a file without blocks. */
  lemma EmptyFile(v: Vol)
    requires Ok(v)
    ensures Tree(v, NoBlocks())
  {
    hide Ok, At, FilledAt, ValidPath, InUse;
    OkShape(v);
    assert FilledRoot(NoBlocks(), 1, 0, 0) == NoBlocks();
    forall q | ValidPath(q)
      ensures At(v.disk, NoBlocks(), q) == 0
    {
      AtFilled(v.disk, 1, 0, 0, q);
      FilledNothing(q);
    }
  }

  lemma FilledNothing(q: Path)
    requires ValidPath(q)
    ensures FilledAt(1, 0, 0, q) == 0
  {
  }

  lemma TookOwned(v: Vol, w: Vol, s: set<nat>, b: nat)
    requires Ok(v) && Took(v, w, s) && b in s
    ensures Owned(w, b)
  {
    hide InUse, Padded, Counted, Shape;
    NotBitmap(v, b);
    SameBitmaps(v, w);
  }

  /** Whatever the inode had before, its first `n` blocks are the run now. */
  lemma FilledLookup(v: Vol, root: seq<nat>, first: nat, n: nat, iblkno: nat, i: nat)
    requires |root| == NROOT && i < n <= IND1LIM
    requires n > DIRECTLIM ==> 0 < iblkno < |v.disk| && FilledBlock(v.disk[iblkno], first, n)
    ensures Lookup(v, FilledRoot(root, first, n, iblkno), i) == first + i
  {
    var r := FilledRoot(root, first, n, iblkno);
    var p := PathOf(i);
    if i >= NDIR {
      assert Parent(p) == [IND];
      assert At(v.disk, r, [IND]) == iblkno;
    }
  }

  /** The indirect block is the first free one after the run was taken. */
  ghost predicate NextFree(v: Vol, first: nat, n: nat, iblkno: nat)
  {
    exists v1 :: Shape(v1) && Claimed(v, v1, Run(first, n)) && FirstFree(v1, iblkno)
  }

  /** What was taken, what the pointers are, and what was written. */
  ghost predicate FilledWith(v: Vol, root: seq<nat>, w: Vol, root': seq<nat>, first: nat, n: nat, iblkno: nat)
    requires |root| == |root'| == NROOT
  {
    && root' == FilledRoot(root, first, n, iblkno)
    && Took(v, w, FilledSet(first, n, iblkno))
    && (n > DIRECTLIM ==>
          && 0 < iblkno < |w.disk| && !(first <= iblkno < first + n)
          && FilledBlock(w.disk[iblkno], first, n) && NextFree(v, first, n, iblkno))
    && |w.disk| == |v.disk|
    && forall b :: 0 <= b < |v.disk| && !IsBitmap(v, b) && (n > DIRECTLIM ==> b != iblkno) ==> w.disk[b] == v.disk[b]
  }

  /** The result of a successful call. */
  ghost predicate FilledOk(v: Vol, root: seq<nat>, w: Vol, root': seq<nat>, first: nat, n: nat)
  {
    && |root| == |root'| == NROOT && Ok(w) && |w.disk| == |v.disk|
    && FilledWith(v, root, w, root', first, n, if n > DIRECTLIM then root'[IND] else 0)
    && (forall i :: 0 <= i < n ==> Lookup(w, root', i) == first + i)
    && (root == NoBlocks() ==> Tree(w, root'))
  }

  /** A run was taken and not given back, and now no block can be had. */
  ghost predicate Leaked(v: Vol, w: Vol, n: nat)
  {
    && Ok(v) && Ok(w) && Stuck(w)
    && exists b :: FirstRun(v, n, b) && Claimed(v, w, Run(b, n))
  }

  lemma LeakedRun(v: Vol, w: Vol, b: nat, n: nat)
    requires Ok(v) && Ok(w) && Stuck(w) && FirstRun(v, n, b) && Claimed(v, w, Run(b, n))
    ensures Leaked(v, w, n)
  {
    hide Ok, Claimed, Stuck, Run, FirstRun;
  }

  /** `ext2_fill_contiguous`.  When the indirect block cannot be had, the routine
      frees blocks 0, 1, ... and not its run; freeing block 0 is not defined. */
  method FillContiguous(fs: FileSystem, ip: Inode, nblocks: nat) returns (r: Filling)
    requires Ok(fs.V()) && fs.Synced() && |ip.block| == NROOT
    modifies fs, ip
    ensures fs.Synced() && old(fs.used) <= fs.used
    ensures r.Filled? ==> exists b :: b in fs.used && IsBitmap(fs.V(), b)
    ensures nblocks <= DIRECTLIM ==> forall b :: b in fs.used && b !in old(fs.used) ==> IsBitmap(old(fs.V()), b)
    ensures r.Failed? <==> nblocks > IND1LIM || fs.readonly || Cramped(old(fs.V()), nblocks)
    ensures r.Failed? ==> fs.V() == old(fs.V()) && ip.block == old(ip.block) && ip.blocks == old(ip.blocks) && ip.size == old(ip.size)
    ensures r.Undefined? ==> nblocks > DIRECTLIM && Leaked(old(fs.V()), fs.V(), nblocks)
    ensures r.Undefined? ==> ip.block == old(ip.block) && ip.blocks == 2 * nblocks && ip.size == old(ip.size)
    ensures r.Filled? ==> FirstRun(old(fs.V()), nblocks, r.first)
    ensures r.Filled? ==>
              && FilledOk(old(fs.V()), old(ip.block), fs.V(), ip.block, r.first, nblocks)
              && r.first > 0 && ip.size == nblocks * 1024 && ip.blocks == 2 * nblocks + if nblocks > DIRECTLIM then 2 else 0
  {
    hide FileSystem.Synced, IsBitmap, Ok, Claimed, Stuck, Cramped, Run, FilledOk, Shape, Leaked, FirstFree, FirstRun, FilledBlock, InUse;
    if nblocks > IND1LIM {
      return Failed;
    }
    ghost var v, root := fs.V(), ip.block;
    var first := fs.ContiguousBalloc(nblocks);
    if first == 0 {
      return Failed;
    }
    ghost var v1 := fs.V();
    OkShape(v1);
    var iblkno := 0;
    ip.blocks := 2 * nblocks;
    if nblocks > DIRECTLIM {
      iblkno := fs.Balloc();
      if iblkno == 0 {
        OkShape(fs.V());
        LeakedRun(v, fs.V(), first, nblocks);
        // The loop at lines 529-531 begins with block 0.
        var ok := fs.Bfree(0);
        return if ok then Failed else Undefined;
      }
      ip.blocks := ip.blocks + 2;
      RunFits(v, v1, first, nblocks);
      ClaimedFits(v1, fs.V(), iblkno);
      ClaimedSame(v1, fs.V(), {iblkno});
      var lp := PointerBlockFor(first, nblocks);
      ghost var v2 := fs.V();
      fs.WriteBlock(iblkno, lp);
      SameBitmaps(v1, fs.V());
      FilledWithBlock(v, v1, v2, fs.V(), root, first, nblocks, iblkno);
    } else {
      FilledDirect(v, v1, root, first, nblocks);
    }
    ip.size := nblocks * 1024;
    ip.block := FilledRoot(ip.block, first, nblocks, iblkno);
    return Filled(first);
  }

  lemma ClaimedSame(v: Vol, w: Vol, s: set<nat>)
    requires Claimed(v, w, s)
    ensures SameShape(v, w)
  {
  }

  lemma RunFits(v: Vol, w: Vol, first: nat, n: nat)
    requires Claimed(v, w, Run(first, n)) && n > 0
    ensures 0 < first && first + n <= |w.disk| <= 0x8000_0000
  {
    hide InUse, IsBitmap, Run;
    assert first in Run(first, n) && first + (n - 1) in Run(first, n);
  }

  /** Lines 536-541 and 548-556 for the pointers that go in the indirect block. */
  method PointerBlockFor(first: nat, n: nat) returns (b: Block)
    requires NDIR <= n <= IND1LIM && first + n <= 0x8000_0000
    ensures FilledBlock(b, first, n)
  {
    b := ZeroBlock();
    var lp := 0;
    var i := NDIR;
    while i < n
      invariant NDIR <= i <= n && lp == i - NDIR
      invariant forall k :: 0 <= k < WORDS ==> b[k] == if NDIR + k < i then first + (NDIR + k) else 0
    {
      b := b[lp := first + i];
      lp := lp + 1;
      i := i + 1;
    }
  }

  lemma FilledDirect(v: Vol, v1: Vol, root: seq<nat>, first: nat, n: nat)
    requires Ok(v) && Ok(v1) && |root| == NROOT && n <= DIRECTLIM && first > 0 && Claimed(v, v1, Run(first, n))
    ensures FilledOk(v, root, v1, FilledRoot(root, first, n, 0), first, n)
  {
    hide Ok, Run, At, InUse, Shape, FilledAt;
    var s := FilledSet(first, n, 0);
    assert s == Run(first, n);
    ClaimedTook(v, v1, s);
    forall i | 0 <= i < n
      ensures Lookup(v1, FilledRoot(root, first, n, 0), i) == first + i
    {
      FilledLookup(v1, root, first, n, 0, i);
    }
    FilledTree(v, v1, first, n, 0);
  }

  lemma ClaimedTook(v: Vol, w: Vol, s: set<nat>)
    requires Claimed(v, w, s)
    ensures Took(v, w, s)
  {
    hide Shape, InUse, IsBitmap;
  }

  lemma FilledWithBlock(v: Vol, v1: Vol, v2: Vol, w: Vol, root: seq<nat>, first: nat, n: nat, iblkno: nat)
    requires Ok(v) && Ok(v1) && Ok(v2) && |root| == NROOT && DIRECTLIM < n <= IND1LIM
    requires Claimed(v, v1, Run(first, n)) && Claimed(v1, v2, {iblkno}) && Shape(v1) && FirstFree(v1, iblkno)
    requires 0 < iblkno < |v2.disk| && w == v2.(disk := w.disk) && |w.disk| == |v2.disk| && FilledBlock(w.disk[iblkno], first, n)
    requires forall b :: 0 <= b < |v2.disk| && b != iblkno ==> w.disk[b] == v2.disk[b]
    ensures FilledOk(v, root, w, FilledRoot(root, first, n, iblkno), first, n)
  {
    hide Ok, Run, At, InUse, Shape, FilledAt, FilledBlock, Claimed, IsBitmap, FirstFree;
    RunFits(v, v1, first, n);
    ClaimedMore(v, v1, v2, Run(first, n), {iblkno});
    assert iblkno !in Run(first, n);
    ClaimedFits(v1, v2, iblkno);
    OkElsewhere(v2, w);
    OkShape(w);
    var s := FilledSet(first, n, iblkno);
    ClaimedTook(v, v2, s);
    TookElsewhere(v, v2, w, s);
    KeptElsewhere(v, v1, v2, Run(first, n), {iblkno});
    forall i | 0 <= i < n
      ensures Lookup(w, FilledRoot(root, first, n, iblkno), i) == first + i
    {
      FilledLookup(w, root, first, n, iblkno, i);
    }
    FilledTree(v, w, first, n, iblkno);
  }

  lemma KeptElsewhere(v: Vol, v1: Vol, v2: Vol, s: set<nat>, t: set<nat>)
    requires Claimed(v, v1, s) && Claimed(v1, v2, t)
    ensures |v2.disk| == |v.disk| && forall b :: 0 <= b < |v.disk| && !IsBitmap(v, b) ==> v2.disk[b] == v.disk[b]
  {
    hide Shape, InUse;
    SameBitmaps(v, v1);
  }

  lemma TookElsewhere(v: Vol, v2: Vol, w: Vol, s: set<nat>)
    requires Took(v, v2, s) && w == v2.(disk := w.disk) && |w.disk| == |v2.disk| && Shape(w)
    requires forall b: nat :: InUse(w, b) <==> InUse(v2, b)
    ensures Took(v, w, s)
  {
    hide InUse;
  }
}
