/** The tree of blocks that belongs to a file: twelve direct pointers and three trees
    of one, two and three levels of pointer blocks. */
module FileTree {
  import opened Bitmap
  import opened Volume

  const NDIR: nat := 12
  const IND: nat := 12
  const DIND: nat := 13
  const TIND: nat := 14
  const NROOT: nat := 15

  /** A place for a pointer: an index in the inode, then one in each pointer block. */
  type Path = seq<nat>

  /** The levels of pointer blocks below pointer `i` of the inode. */
  function Depth(i: nat): (r: nat)
  {
    if i < NDIR then 0 else i - NDIR + 1
  }

  predicate ValidPath(p: Path)
  {
    && 1 <= |p| && p[0] < NROOT && |p| <= Depth(p[0]) + 1
    && forall k :: 1 <= k < |p| ==> p[k] < WORDS
  }

  /** The pointer is to a pointer block. */
  predicate Inner(p: Path)
  {
    ValidPath(p) && |p| <= Depth(p[0])
  }

  function Parent(p: Path): (r: Path)
    requires |p| > 0
  {
    p[..|p| - 1]
  }

  function Last(p: Path): (r: nat)
    requires |p| > 0
  {
    p[|p| - 1]
  }

  lemma ParentValid(p: Path)
    requires ValidPath(p) && |p| > 1
    ensures ValidPath(Parent(p)) && Inner(Parent(p)) && Last(p) < WORDS
  {
  }

  lemma SamePath(p: Path, q: Path)
    requires |p| > 0 && |q| > 0
    ensures p == q <==> Parent(p) == Parent(q) && Last(p) == Last(q)
  {
    if Parent(p) == Parent(q) && Last(p) == Last(q) {
      assert p == Parent(p) + [Last(p)] && q == Parent(q) + [Last(q)];
    }
  }

  /** The pointer at a place, zero if there is none. */
  function At(disk: seq<Block>, root: seq<nat>, p: Path): (r: nat)
    requires ValidPath(p) && |root| == NROOT
    decreases |p|
  {
    if |p| == 1 then root[p[0]]
    else
      ParentValid(p);
      var b := At(disk, root, Parent(p));
      if b == 0 || b >= |disk| then 0 else disk[b][Last(p)]
  }

  /** A block that a file may have: in use, and not a bitmap. */
  predicate Owned(v: Vol, b: nat)
    requires Shape(v)
  {
    0 < b < |v.disk| && InUse(v, b) && !IsBitmap(v, b)
  }

  /** Every pointer is to a block of the file's own, and no two are to the same one. */
  ghost predicate Tree(v: Vol, root: seq<nat>)
  {
    && |root| == NROOT && Shape(v)
    && (forall p :: ValidPath(p) && At(v.disk, root, p) != 0 ==> Owned(v, At(v.disk, root, p)))
    && (forall p, q :: ValidPath(p) && ValidPath(q) && p != q && At(v.disk, root, p) != 0 ==>
                         At(v.disk, root, p) != At(v.disk, root, q))
  }

  // ----- a new pointer -----

  /** Pointer `p` made to point to block `x`: in the inode or in its pointer block.
      Blocks in use are otherwise as they were; a new pointer block is empty. */
  ghost predicate Linked(v: Vol, root: seq<nat>, disk: seq<Block>, root': seq<nat>, p: Path, x: nat)
  {
    && ValidPath(p) && Shape(v) && |root| == |root'| == NROOT && |disk| == |v.disk|
    && 0 < x < |disk| && !InUse(v, x)
    && (Inner(p) ==> disk[x] == ZeroBlock())
    && (|p| == 1 ==> root' == root[p[0] := x])
    && (|p| > 1 ==>
         && root' == root && ValidPath(Parent(p)) && Last(p) < WORDS
         && var b := At(v.disk, root, Parent(p));
            0 < b < |disk| && disk[b] == v.disk[b][Last(p) := x])
    && (forall b: nat :: Owned(v, b) && (|p| > 1 ==> b != At(v.disk, root, Parent(p))) ==> disk[b] == v.disk[b])
  }

  /** The other pointers stay. */
  lemma {:induction false} LinkAt(v: Vol, root: seq<nat>, disk: seq<Block>, root': seq<nat>, p: Path, x: nat, q: Path)
    requires Tree(v, root) && Linked(v, root, disk, root', p, x) && At(v.disk, root, p) == 0 && ValidPath(q)
    ensures At(disk, root', q) == if q == p then x else At(v.disk, root, q)
    decreases |q|
  {
    hide InUse, IsBitmap;
    if |q| > 1 {
      ParentValid(q);
      LinkAt(v, root, disk, root', p, x, Parent(q));
      SamePath(p, q);
      if Parent(q) != p && At(v.disk, root, Parent(q)) != 0 {
        LinkBelow(v, root, disk, root', p, x, q);
      }
    }
  }

  lemma LinkBelow(v: Vol, root: seq<nat>, disk: seq<Block>, root': seq<nat>, p: Path, x: nat, q: Path)
    requires Tree(v, root) && Linked(v, root, disk, root', p, x) && At(v.disk, root, p) == 0 && ValidPath(q)
    requires |q| > 1 && ValidPath(Parent(q)) && Last(q) < WORDS && At(v.disk, root, Parent(q)) != 0
    ensures var b := At(v.disk, root, Parent(q));
            b < |disk| && disk[b][Last(q)] == if q == p then x else v.disk[b][Last(q)]
  {
    hide InUse, IsBitmap, At;
    SamePath(p, q);
  }

  // ----- what a change to the tree leaves alone -----

  /** The blocks of `s` were free and are in use now; nothing else changed hands. */
  ghost predicate Took(v: Vol, w: Vol, s: set<nat>)
  {
    && Shape(v) && Shape(w) && SameShape(v, w)
    && w.free == v.free - |s|
    && (forall b :: b in s ==> 0 < b < |v.disk| && !InUse(v, b))
    && (forall b: nat :: InUse(w, b) <==> InUse(v, b) || b in s)
  }

  /** `b` is a pointer block of the file. */
  ghost predicate PointerBlock(disk: seq<Block>, root: seq<nat>, b: nat)
    requires |root| == NROOT
  {
    exists p :: Inner(p) && At(disk, root, p) == b
  }

  /** Blocks that were in use keep their contents, except for bitmaps and the
      pointer blocks of this file. */
  ghost predicate KeepsData(v: Vol, root: seq<nat>, w: Vol)
    requires |root| == NROOT && Shape(v)
  {
    forall b: nat :: Owned(v, b) && !PointerBlock(v.disk, root, b) ==> b < |w.disk| && w.disk[b] == v.disk[b]
  }

  /** Pointers that are set stay; only those on the way to `path` may become set, to
      blocks of `s`, and each of these has its pointer. */
  ghost predicate Extends(v: Vol, root: seq<nat>, w: Vol, root': seq<nat>, path: Path, s: set<nat>)
  {
    && |root| == |root'| == NROOT
    && (forall q :: ValidPath(q) ==>
                     || At(w.disk, root', q) == At(v.disk, root, q)
                     || (At(v.disk, root, q) == 0 && q <= path && At(w.disk, root', q) in s))
    && forall b :: b in s ==> PointedTo(w.disk, root', path, b)
  }

  /** Some pointer on the way to `path` is to block `b`. */
  ghost predicate PointedTo(disk: seq<Block>, root: seq<nat>, path: Path, b: nat)
    requires |root| == NROOT
  {
    exists q :: ValidPath(q) && q <= path && At(disk, root, q) == b
  }

  /** A change of the tree towards `path` that took the blocks of `s`. */
  ghost predicate Grown(v: Vol, root: seq<nat>, w: Vol, root': seq<nat>, path: Path, s: set<nat>)
  {
    && Ok(w) && Tree(w, root') && Took(v, w, s) && Extends(v, root, w, root', path, s) && KeepsData(v, root, w)
  }

  lemma GrownNot(v: Vol, root: seq<nat>, path: Path)
    requires Ok(v) && Tree(v, root)
    ensures Grown(v, root, v, root, path, {})
  {
    hide At;
  }

  lemma GrownMore(u: Vol, root: seq<nat>, v: Vol, root': seq<nat>, w: Vol, root'': seq<nat>, path: Path, s: set<nat>, t: set<nat>)
    requires Ok(u) && Tree(u, root) && Grown(u, root, v, root', path, s) && Grown(v, root', w, root'', path, t)
    ensures Grown(u, root, w, root'', path, s + t) && s !! t
  {
    hide Ok, Tree, InUse, Shape, IsBitmap, KeepsData, Extends;
    TookMore(u, v, w, s, t);
    ExtendsMore(u, root, v, root', w, root'', path, s, t);
    KeepsMore(u, root, v, root', w, root'', path, s, t);
  }

  lemma TookMore(u: Vol, v: Vol, w: Vol, s: set<nat>, t: set<nat>)
    requires Took(u, v, s) && Took(v, w, t)
    ensures Took(u, w, s + t) && s !! t
  {
    hide Shape, InUse;
    assert forall b :: b in s ==> InUse(v, b);
  }

  lemma ExtendsMore(u: Vol, root: seq<nat>, v: Vol, root': seq<nat>, w: Vol, root'': seq<nat>, path: Path, s: set<nat>, t: set<nat>)
    requires Extends(u, root, v, root', path, s) && Extends(v, root', w, root'', path, t)
    requires 0 !in s
    ensures Extends(u, root, w, root'', path, s + t)
  {
    hide At;
    forall b | b in s
      ensures PointedTo(w.disk, root'', path, b)
    {
      var q :| ValidPath(q) && q <= path && At(v.disk, root', q) == b;
      assert At(w.disk, root'', q) == b;
    }
  }

  lemma KeepsMore(u: Vol, root: seq<nat>, v: Vol, root': seq<nat>, w: Vol, root'': seq<nat>, path: Path, s: set<nat>, t: set<nat>)
    requires Ok(u) && Tree(u, root) && Grown(u, root, v, root', path, s) && Grown(v, root', w, root'', path, t)
    ensures KeepsData(u, root, w)
  {
    hide Ok, InUse, Shape, IsBitmap, At, PointerBlock;
    SameBitmaps(u, v);
    forall b: nat | Owned(u, b) && !PointerBlock(u.disk, root, b)
      ensures b < |w.disk| && w.disk[b] == u.disk[b]
    {
      assert Owned(v, b);
      if PointerBlock(v.disk, root', b) {
        NewPointerBlock(u, root, v, root', path, s, b);
      }
    }
  }

  /** A pointer block that is new was not in use. */
  lemma NewPointerBlock(u: Vol, root: seq<nat>, v: Vol, root': seq<nat>, path: Path, s: set<nat>, b: nat)
    requires Ok(u) && Tree(u, root) && Grown(u, root, v, root', path, s)
    requires Owned(u, b) && PointerBlock(v.disk, root', b)
    ensures PointerBlock(u.disk, root, b)
  {
    hide Ok, InUse, Shape, IsBitmap, At, KeepsData, Tree;
    RootsFit(u, root, v, root');
    var p :| Inner(p) && At(v.disk, root', p) == b;
    assert At(u.disk, root, p) == b;
  }

  lemma RootsFit(u: Vol, root: seq<nat>, v: Vol, root': seq<nat>)
    requires Tree(u, root) && Tree(v, root')
    ensures |root| == |root'| == NROOT
  {
  }

  // ----- linking a new block in -----

  /** Writing blocks that are not bitmaps changes nothing about what is in use. */
  lemma OkElsewhere(v: Vol, w: Vol)
    requires Ok(v) && w == v.(disk := w.disk) && |w.disk| == |v.disk|
    requires forall b :: 0 <= b < |v.disk| && IsBitmap(v, b) ==> w.disk[b] == v.disk[b]
    ensures Ok(w) && forall b: nat :: InUse(w, b) <==> InUse(v, b)
  {
    hide Used, Zeros, SumFree, GroupOf, BitOf, BlockNo, Bm, IsBitmap;
    assert Shape(w);
    forall g | 0 <= g < |v.groups|
      ensures Bm(w, g) == Bm(v, g)
    {
      SameBm(v, w, g);
    }
  }

  lemma SameBm(v: Vol, w: Vol, g: nat)
    requires Shape(v) && Shape(w) && w.groups == v.groups && |w.disk| == |v.disk| && g < |v.groups|
    requires forall b :: 0 <= b < |v.disk| && IsBitmap(v, b) ==> w.disk[b] == v.disk[b]
    ensures Bm(w, g) == Bm(v, g)
  {
    assert IsBitmap(v, v.groups[g].bitmap);
  }

  lemma LinkTree(v: Vol, root: seq<nat>, w: Vol, root': seq<nat>, p: Path, x: nat)
    requires Tree(v, root) && Took(v, w, {x}) && Linked(v, root, w.disk, root', p, x) && At(v.disk, root, p) == 0
    requires !IsBitmap(v, x)
    ensures Tree(w, root')
  {
    hide At, InUse, Shape, IsBitmap, Linked;
    LinkFits(v, root, w, root', p, x);
    forall q | ValidPath(q)
      ensures At(w.disk, root', q) == if q == p then x else At(v.disk, root, q)
    {
      LinkAt(v, root, w.disk, root', p, x, q);
    }
    SameBitmaps(v, w);
    assert forall b: nat :: Owned(v, b) ==> Owned(w, b);
    assert Owned(w, x);
    assert forall q :: ValidPath(q) && At(v.disk, root, q) != 0 ==> Owned(v, At(v.disk, root, q)) && At(v.disk, root, q) != x;
  }

  lemma LinkFits(v: Vol, root: seq<nat>, w: Vol, root': seq<nat>, p: Path, x: nat)
    requires Linked(v, root, w.disk, root', p, x)
    ensures |root| == |root'| == NROOT && ValidPath(p) && 0 < x < |w.disk| && Shape(v) && !InUse(v, x)
  {
  }

  lemma LinkGrown(v: Vol, root: seq<nat>, w: Vol, root': seq<nat>, p: Path, x: nat, path: Path)
    requires Ok(v) && Ok(w) && Tree(v, root) && Took(v, w, {x}) && Linked(v, root, w.disk, root', p, x)
    requires At(v.disk, root, p) == 0 && p <= path
    ensures Grown(v, root, w, root', path, {x}) && At(w.disk, root', p) == x
  {
    hide At, InUse, Shape, IsBitmap;
    NotBitmap(v, x);
    LinkTree(v, root, w, root', p, x);
    forall q | ValidPath(q)
      ensures At(w.disk, root', q) == if q == p then x else At(v.disk, root, q)
    {
      LinkAt(v, root, w.disk, root', p, x, q);
    }
    LinkKeeps(v, root, w, root', p, x);
  }

  lemma NotBitmap(v: Vol, x: nat)
    requires Ok(v) && !InUse(v, x)
    ensures !IsBitmap(v, x)
  {
    hide InUse, Padded, Counted;
  }

  lemma LinkKeeps(v: Vol, root: seq<nat>, w: Vol, root': seq<nat>, p: Path, x: nat)
    requires Linked(v, root, w.disk, root', p, x)
    ensures KeepsData(v, root, w)
  {
    hide At, InUse, Shape, IsBitmap, ZeroBlock;
    if |p| > 1 {
      ParentValid(p);
      assert PointerBlock(v.disk, root, At(v.disk, root, Parent(p)));
    }
  }
}
