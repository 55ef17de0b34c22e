/** Freeing all blocks of a file (tools/e2lib.c:1018-1082). */
module Truncate {
  import opened Bitmap
  import opened Volume
  import opened Allocator
  import opened FileTree
  import opened FileMap

  function Child(p: Path, k: nat): (r: Path)
    ensures |r| == |p| + 1 && p <= r && r[|p|] == k
  {
    p + [k]
  }

  lemma ChildValid(p: Path, k: nat)
    requires Inner(p) && k < WORDS
    ensures ValidPath(Child(p, k)) && Parent(Child(p, k)) == p && Last(Child(p, k)) == k
  {
  }

  /** The blocks reached through the pointer at `p`. */
  ghost function Below(disk: seq<Block>, root: seq<nat>, p: Path): (r: set<nat>)
    requires ValidPath(p) && |root| == NROOT
    decreases Depth(p[0]) + 1 - |p|, WORDS + 1
  {
    if At(disk, root, p) == 0 then {}
    else {At(disk, root, p)} + if Inner(p) then BelowUpTo(disk, root, p, WORDS) else {}
  }

  /** Those reached through the first `n` pointers in the pointer block at `p`. */
  ghost function BelowUpTo(disk: seq<Block>, root: seq<nat>, p: Path, n: nat): (r: set<nat>)
    requires Inner(p) && n <= WORDS && |root| == NROOT
    decreases Depth(p[0]) + 1 - |p|, n
  {
    if n == 0 then {}
    else
      ChildValid(p, n - 1);
      BelowUpTo(disk, root, p, n - 1) + Below(disk, root, Child(p, n - 1))
  }

  /** `b` is at the end of a path that goes through `p`. */
  ghost predicate Through(disk: seq<Block>, root: seq<nat>, p: Path, b: nat)
    requires |root| == NROOT
  {
    b != 0 && exists q :: ValidPath(q) && p <= q && At(disk, root, q) == b
  }

  lemma {:induction false} BelowThrough(disk: seq<Block>, root: seq<nat>, p: Path, b: nat)
    requires ValidPath(p) && |root| == NROOT && b in Below(disk, root, p)
    ensures Through(disk, root, p, b)
    decreases Depth(p[0]) + 1 - |p|, WORDS + 1
  {
    hide At, ValidPath;
    if b != At(disk, root, p) {
      var k := UpToThrough(disk, root, p, WORDS, b);
      LongerThrough(disk, root, p, k, b);
    }
  }

  lemma LongerThrough(disk: seq<Block>, root: seq<nat>, p: Path, k: nat, b: nat)
    requires |root| == NROOT && Through(disk, root, Child(p, k), b)
    ensures Through(disk, root, p, b)
  {
    hide At, ValidPath;
    var q :| ValidPath(q) && Child(p, k) <= q && At(disk, root, q) == b;
    assert p <= q;
  }

  lemma {:induction false} UpToThrough(disk: seq<Block>, root: seq<nat>, p: Path, n: nat, b: nat) returns (k: nat)
    requires Inner(p) && n <= WORDS && |root| == NROOT && b in BelowUpTo(disk, root, p, n)
    ensures k < n && Through(disk, root, Child(p, k), b)
    decreases Depth(p[0]) + 1 - |p|, n
  {
    hide At, Through;
    ChildValid(p, n - 1);
    if b in BelowUpTo(disk, root, p, n - 1) {
      k := UpToThrough(disk, root, p, n - 1, b);
    } else {
      BelowThrough(disk, root, Child(p, n - 1), b);
      k := n - 1;
    }
  }

  /** Conversely every block on such a path is there. */
  lemma {:induction false} ThroughBelow(disk: seq<Block>, root: seq<nat>, p: Path, q: Path)
    requires ValidPath(p) && ValidPath(q) && p <= q && |root| == NROOT && At(disk, root, q) != 0
    ensures At(disk, root, p) != 0 && At(disk, root, q) in Below(disk, root, p)
    decreases |q| - |p|
  {
    hide BelowUpTo;
    if p == q {
    } else {
      var k := q[|p|];
      assert Child(p, k) <= q;
      ChildValid(p, k);
      ThroughBelow(disk, root, Child(p, k), q);
      AboveSet(disk, root, Child(p, k));
      UpToHas(disk, root, p, WORDS, k, At(disk, root, q));
    }
  }

  lemma {:induction false} UpToHas(disk: seq<Block>, root: seq<nat>, p: Path, n: nat, k: nat, b: nat)
    requires Inner(p) && k < n <= WORDS && |root| == NROOT && ValidPath(Child(p, k)) && b in Below(disk, root, Child(p, k))
    ensures b in BelowUpTo(disk, root, p, n)
    decreases n
  {
    hide At, Below, Child, ValidPath, Inner;
    if k < n - 1 {
      UpToHas(disk, root, p, n - 1, k, b);
    }
  }

  /** Different children have nothing in common, and the pointer block is not among
      the blocks below it. */
  lemma ChildrenApart(v: Vol, root: seq<nat>, p: Path, n: nat)
    requires Tree(v, root) && Inner(p) && n < WORDS
    ensures ValidPath(Child(p, n)) && BelowUpTo(v.disk, root, p, n) !! Below(v.disk, root, Child(p, n))
  {
    hide At, BelowUpTo, Below, ValidPath, Owned;
    ChildValid(p, n);
    var i: nat := |p|;
    forall b | b in BelowUpTo(v.disk, root, p, n) && b in Below(v.disk, root, Child(p, n))
      ensures false
    {
      var k := UpToThrough(v.disk, root, p, n, b);
      BelowThrough(v.disk, root, Child(p, n), b);
      PathsApart(v, root, Child(p, k), Child(p, n), i, b);
    }
  }

  lemma PathsApart(v: Vol, root: seq<nat>, p: Path, q: Path, i: nat, b: nat)
    requires Tree(v, root) && i < |p| && i < |q| && p[i] != q[i]
    requires Through(v.disk, root, p, b)
    ensures !Through(v.disk, root, q, b)
  {
    hide At, ValidPath, Owned;
    var x :| ValidPath(x) && p <= x && At(v.disk, root, x) == b;
    forall y | ValidPath(y) && q <= y
      ensures At(v.disk, root, y) != b
    {
      assert x[i] == p[i] && y[i] == q[i];
    }
  }

  lemma SelfApart(v: Vol, root: seq<nat>, p: Path, n: nat)
    requires Tree(v, root) && Inner(p) && n <= WORDS && At(v.disk, root, p) != 0
    ensures At(v.disk, root, p) !in BelowUpTo(v.disk, root, p, n)
  {
    hide At, BelowUpTo, Owned, Child, Through;
    var b := At(v.disk, root, p);
    if b in BelowUpTo(v.disk, root, p, n) {
      var k := UpToThrough(v.disk, root, p, n, b);
      NotThroughSelf(v, root, p, k);
    }
  }

  lemma NotThroughSelf(v: Vol, root: seq<nat>, p: Path, k: nat)
    requires Tree(v, root) && ValidPath(p) && At(v.disk, root, p) != 0
    ensures !Through(v.disk, root, Child(p, k), At(v.disk, root, p))
  {
    hide At, Owned, ValidPath;
    forall q | ValidPath(q) && Child(p, k) <= q
      ensures At(v.disk, root, q) != At(v.disk, root, p)
    {
      assert |q| > |p|;
    }
  }

  // ----- freeing -----

  /** A block of the file that has not been freed yet can be. */
  lemma StillOwned(v: Vol, w: Vol, s: set<nat>, b: nat)
    requires Claimed(w, v, s) && Owned(v, b) && b !in s
    ensures 0 < b < |w.disk| && InUse(w, b) && !IsBitmap(w, b) && w.disk[b] == v.disk[b]
  {
    hide InUse, Shape, IsBitmap;
    SameBitmaps(w, v);
  }

  /** `ext2_bfree` on a block of the file. */
  method FreeBlock(fs: FileSystem, b: nat, ghost v: Vol, ghost s: set<nat>)
    requires Ok(fs.V()) && fs.Synced() && Claimed(fs.V(), v, s) && Owned(v, b) && b !in s
    modifies fs
    ensures Ok(fs.V()) && fs.Synced() && Claimed(fs.V(), v, s + {b})
  {
    hide FileSystem.Synced, Ok, Claimed, Owned;
    StillOwned(v, fs.V(), s, b);
    ghost var w := fs.V();
    var ok := fs.Release(b);
    ClaimedMore(fs.V(), w, v, {b}, s);
    assert {b} + s == s + {b};
  }

  /** `ext2_free_indirect`: of the file with root `root` in volume `v`, the blocks of
      `s` have been freed, and those below `p` are to be freed. */
  method FreeIndirect(fs: FileSystem, b: nat, level: nat, ghost v: Vol, ghost root: seq<nat>, ghost p: Path, ghost s: set<nat>)
    requires Ok(fs.V()) && fs.Synced() && Tree(v, root) && Claimed(fs.V(), v, s)
    requires Inner(p) && level + |p| == Depth(p[0]) && At(v.disk, root, p) == b != 0
    requires s !! Below(v.disk, root, p)
    modifies fs
    ensures Ok(fs.V()) && fs.Synced() && Claimed(fs.V(), v, s + Below(v.disk, root, p))
    decreases level
  {
    hide FileSystem.Synced, Ok, Tree, Claimed, Owned, At, BelowUpTo, Through, Child;
    TreeShape(v, root);
    OwnedAt(v, root, p);
    StillOwned(v, fs.V(), s, b);
    var indirect := fs.ReadBlock(b);
    ghost var done := BelowUpTo(v.disk, root, p, 0);
    UpToNone(v.disk, root, p);
    assert s + done == s;
    var i := 0;
    while i < WORDS
      invariant i <= WORDS && Ok(fs.V()) && fs.Synced() && done == BelowUpTo(v.disk, root, p, i) && Claimed(fs.V(), v, s + done)
    {
      UpToNext(v, root, p, i);
      ghost var q := Child(p, i);
      AtChild(v, root, p, i);
      BelowLeaf(v.disk, root, q);
      if indirect[i] != 0 {
        OwnedAt(v, root, q);
        if level == 0 {
          FreeBlock(fs, indirect[i], v, s + done);
        } else {
          FreeIndirect(fs, indirect[i], level - 1, v, root, q, s + done);
        }
      } else {
        assert s + done + {} == s + done;
      }
      assert s + done + Below(v.disk, root, q) == s + BelowUpTo(v.disk, root, p, i + 1);
      done := BelowUpTo(v.disk, root, p, i + 1);
      i := i + 1;
    }
    SelfApart(v, root, p, WORDS);
    FreeBlock(fs, b, v, s + done);
    assert s + done + {b} == s + Below(v.disk, root, p);
  }

  lemma BelowLeaf(disk: seq<Block>, root: seq<nat>, p: Path)
    requires ValidPath(p) && |root| == NROOT
    ensures At(disk, root, p) == 0 ==> Below(disk, root, p) == {}
    ensures At(disk, root, p) != 0 ==> At(disk, root, p) in Below(disk, root, p)
    ensures At(disk, root, p) != 0 && !Inner(p) ==> Below(disk, root, p) == {At(disk, root, p)}
  {
    hide At;
  }

  lemma UpToNone(disk: seq<Block>, root: seq<nat>, p: Path)
    requires Inner(p) && |root| == NROOT
    ensures BelowUpTo(disk, root, p, 0) == {}
  {
  }

  lemma UpToNext(v: Vol, root: seq<nat>, p: Path, i: nat)
    requires Tree(v, root) && Inner(p) && i < WORDS && At(v.disk, root, p) != 0
    ensures ValidPath(Child(p, i))
    ensures BelowUpTo(v.disk, root, p, i + 1) == BelowUpTo(v.disk, root, p, i) + Below(v.disk, root, Child(p, i))
    ensures BelowUpTo(v.disk, root, p, i) !! Below(v.disk, root, Child(p, i))
    ensures BelowUpTo(v.disk, root, p, i + 1) <= Below(v.disk, root, p)
  {
    hide At, Owned;
    ChildrenApart(v, root, p, i);
    UpToMono(v.disk, root, p, i + 1);
  }

  lemma {:induction false} UpToMono(disk: seq<Block>, root: seq<nat>, p: Path, n: nat)
    requires Inner(p) && n <= WORDS && |root| == NROOT
    ensures BelowUpTo(disk, root, p, n) <= BelowUpTo(disk, root, p, WORDS)
    decreases WORDS - n
  {
    hide At, Below;
    if n < WORDS {
      ChildValid(p, n);
      UpToMono(disk, root, p, n + 1);
    }
  }

  lemma AtChild(v: Vol, root: seq<nat>, p: Path, k: nat)
    requires Tree(v, root) && Inner(p) && k < WORDS && At(v.disk, root, p) != 0
    ensures ValidPath(Child(p, k)) && At(v.disk, root, p) < |v.disk|
    ensures At(v.disk, root, Child(p, k)) == v.disk[At(v.disk, root, p)][k]
    ensures |Child(p, k)| == |p| + 1 && Child(p, k)[0] == p[0]
  {
    hide Owned;
    ChildValid(p, k);
    OwnedAt(v, root, p);
    AtIn(v, root, Child(p, k));
  }

  // ----- the whole file -----

  /** The blocks reached through the first `n` pointers of the inode. */
  ghost function Reach(disk: seq<Block>, root: seq<nat>, n: nat): (r: set<nat>)
    requires n <= NROOT == |root|
  {
    if n == 0 then {} else Reach(disk, root, n - 1) + Below(disk, root, [n - 1])
  }

  lemma {:induction false} ReachThrough(disk: seq<Block>, root: seq<nat>, n: nat, b: nat) returns (i: nat)
    requires n <= NROOT == |root| && b in Reach(disk, root, n)
    ensures i < n && Through(disk, root, [i], b)
  {
    hide Below, Through;
    if b in Reach(disk, root, n - 1) {
      i := ReachThrough(disk, root, n - 1, b);
    } else {
      i := n - 1;
      BelowThrough(disk, root, [i], b);
    }
  }

  lemma {:induction false} ReachHas(disk: seq<Block>, root: seq<nat>, n: nat, i: nat, b: nat)
    requires i < n <= NROOT == |root| && b in Below(disk, root, [i])
    ensures b in Reach(disk, root, n)
  {
    hide Below;
    if i < n - 1 {
      ReachHas(disk, root, n - 1, i, b);
    }
  }

  /** The blocks of a file are those that some pointer points to. */
  lemma ReachIs(disk: seq<Block>, root: seq<nat>, b: nat)
    requires |root| == NROOT
    ensures b in Reach(disk, root, NROOT) <==> b != 0 && exists q :: ValidPath(q) && At(disk, root, q) == b
  {
    hide At, Below, Reach;
    if b in Reach(disk, root, NROOT) {
      var i := ReachThrough(disk, root, NROOT, b);
    } else if q :| b != 0 && ValidPath(q) && At(disk, root, q) == b {
      assert [q[0]] <= q;
      ThroughBelow(disk, root, [q[0]], q);
      ReachHas(disk, root, NROOT, q[0], b);
    }
  }

  lemma RootsApart(v: Vol, root: seq<nat>, n: nat)
    requires Tree(v, root) && n < NROOT
    ensures Reach(v.disk, root, n) !! Below(v.disk, root, [n])
  {
    hide At, Reach, Below, Owned, Through;
    forall b | b in Reach(v.disk, root, n) && b in Below(v.disk, root, [n])
      ensures false
    {
      var i := ReachThrough(v.disk, root, n, b);
      BelowThrough(v.disk, root, [n], b);
      PathsApart(v, root, [i], [n], 0, b);
    }
  }

  /** One pointer of the inode: lines 1029-1032, and 1036-1051 for the trees. */
  method FreeRoot(fs: FileSystem, ip: Inode, i: nat, ghost v: Vol, ghost root: seq<nat>)
    requires Ok(fs.V()) && fs.Synced() && Tree(v, root) && i < NROOT == |ip.block| && ip.block[i] == root[i]
    requires Claimed(fs.V(), v, Reach(v.disk, root, i))
    modifies fs, ip`block
    ensures Ok(fs.V()) && fs.Synced() && Claimed(fs.V(), v, Reach(v.disk, root, i + 1)) && ip.block == old(ip.block)[i := 0]
  {
    hide FileSystem.Synced, Ok, Tree, Claimed, Owned, Below, Through, Child, Reach;
    TreeShape(v, root);
    RootsApart(v, root, i);
    BelowLeaf(v.disk, root, [i]);
    ReachNext(v.disk, root, i);
    if ip.block[i] != 0 {
      OwnedAt(v, root, [i]);
      if i < NDIR {
        FreeBlock(fs, ip.block[i], v, Reach(v.disk, root, i));
      } else {
        FreeIndirect(fs, ip.block[i], i - NDIR, v, root, [i], Reach(v.disk, root, i));
      }
      ip.block := ip.block[i := 0];
    } else {
      assert Reach(v.disk, root, i) + {} == Reach(v.disk, root, i);
      assert ip.block == old(ip.block)[i := 0];
    }
  }

  lemma ReachNext(disk: seq<Block>, root: seq<nat>, n: nat)
    requires n < NROOT == |root|
    ensures Reach(disk, root, n + 1) == Reach(disk, root, n) + Below(disk, root, [n])
  {
  }

  /** `ext2_truncate`: exactly the blocks of the file are freed, and nothing but
      bitmaps is written. */
  method TruncateFile(fs: FileSystem, ip: Inode)
    requires Ok(fs.V()) && fs.Synced() && Tree(fs.V(), ip.block)
    modifies fs, ip`block, ip`size
    ensures Ok(fs.V()) && fs.Synced() && ip.size == 0 && |ip.block| == NROOT && forall i :: 0 <= i < NROOT ==> ip.block[i] == 0
    ensures |old(ip.block)| == NROOT
    ensures Claimed(fs.V(), old(fs.V()), Reach(old(fs.disk), old(ip.block), NROOT))
  {
    hide FileSystem.Synced, Ok, Tree, Claimed, Reach, Shape;
    ghost var v, root := fs.V(), ip.block;
    TreeShape(v, root);
    ClaimedNone(v);
    ReachNone(v.disk, root);
    var i := 0;
    while i < NROOT
      invariant i <= NROOT == |ip.block| && Ok(fs.V()) && fs.Synced() && Claimed(fs.V(), v, Reach(v.disk, root, i))
      invariant forall j :: 0 <= j < NROOT ==> ip.block[j] == if j < i then 0 else root[j]
    {
      FreeRoot(fs, ip, i, v, root);
      i := i + 1;
    }
    ip.size := 0;
  }

  lemma ReachNone(disk: seq<Block>, root: seq<nat>)
    requires |root| == NROOT
    ensures Reach(disk, root, 0) == {}
  {
  }
}
