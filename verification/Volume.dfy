/** The state of the file system that block allocation works on: the group
    descriptors, the free counts and the blocks as the cache shows them. */
module Volume {
  import opened Bits
  import opened Bitmap

  const MAP_BITS: nat := WORDS * WORD_BITS

  /** `bg_block_bitmap` and `bg_free_blocks_count`. */
  datatype Group = Group(bitmap: nat, free: int)

  /** `bpg` is `sb.s_blocks_per_group`, `free` is `sb.s_free_blocks_count`. */
  datatype Vol = Vol(bpg: nat, groups: seq<Group>, disk: seq<Block>, free: int)

  predicate IsBitmap(v: Vol, b: nat)
  {
    exists g :: 0 <= g < |v.groups| && v.groups[g].bitmap == b
  }

  /** The bitmaps cover the device, and block numbers fit an `int`. */
  predicate Shape(v: Vol)
  {
    && 0 < v.bpg <= MAP_BITS && |v.disk| <= |v.groups| * v.bpg + 1 <= 0x8000_0000
    && (forall g :: 0 <= g < |v.groups| ==> 0 < v.groups[g].bitmap < |v.disk|)
    && (forall g, h :: 0 <= g < h < |v.groups| ==> v.groups[g].bitmap != v.groups[h].bitmap)
  }

  function Bm(v: Vol, g: nat): (r: Block)
    requires Shape(v) && g < |v.groups|
  {
    v.disk[v.groups[g].bitmap]
  }

  function BlockNo(bpg: nat, g: nat, i: nat): (r: nat)
    ensures r > 0
  {
    g * bpg + i + 1
  }

  /** The group and the bit for a block (tools/e2lib.c:376, 382). */
  function GroupOf(bpg: nat, b: nat): (r: nat)
    requires bpg > 0 && b > 0
  {
    (b - 1) / bpg
  }

  function BitOf(bpg: nat, b: nat): (r: nat)
    requires bpg > 0 && b > 0
    ensures r < bpg
  {
    (b - 1) % bpg
  }

  /** The bit for block `b` is set; block 0 and what no bitmap covers is not available. */
  predicate InUse(v: Vol, b: nat)
    requires Shape(v)
  {
    b > 0 && GroupOf(v.bpg, b) < |v.groups| ==> Used(Bm(v, GroupOf(v.bpg, b)), BitOf(v.bpg, b))
  }

  /** Bits for no block are set, as mke2fs leaves them. */
  predicate Padded(v: Vol)
    requires Shape(v)
  {
    forall g, i :: 0 <= g < |v.groups| && 0 <= i < MAP_BITS && (i >= v.bpg || BlockNo(v.bpg, g, i) >= |v.disk|) ==> Used(Bm(v, g), i)
  }

  ghost function SumFree(groups: seq<Group>): (r: int)
  {
    if |groups| == 0 then 0 else SumFree(groups[..|groups| - 1]) + groups[|groups| - 1].free
  }

  /** Each free count is the number of zero bits, and the total is their sum. */
  ghost predicate Counted(v: Vol)
    requires Shape(v)
  {
    && (forall g :: 0 <= g < |v.groups| ==> v.groups[g].free == Zeros(Bm(v, g), v.bpg))
    && v.free == SumFree(v.groups)
  }

  ghost predicate Ok(v: Vol)
  {
    && Shape(v) && Padded(v) && Counted(v)
    && (forall g :: 0 <= g < |v.groups| ==> InUse(v, v.groups[g].bitmap))
  }

  /** `w` is `v` with the blocks of `s` taken: they were free, nothing else changed
      hands, and only bitmaps were written. */
  ghost predicate Claimed(v: Vol, w: Vol, s: set<nat>)
  {
    && Shape(v) && Shape(w) && SameShape(v, w)
    && w.free == v.free - |s|
    && (forall b :: b in s ==> 0 < b < |v.disk| && !InUse(v, b))
    && (forall b: nat :: InUse(w, b) <==> InUse(v, b) || b in s)
    && (forall b :: 0 <= b < |v.disk| && !IsBitmap(v, b) ==> w.disk[b] == v.disk[b])
  }

  ghost predicate SameShape(v: Vol, w: Vol)
  {
    && w.bpg == v.bpg && |w.disk| == |v.disk| && |w.groups| == |v.groups|
    && (forall g :: 0 <= g < |v.groups| ==> w.groups[g].bitmap == v.groups[g].bitmap)
  }

  lemma SameBitmaps(v: Vol, w: Vol)
    requires SameShape(v, w)
    ensures forall b :: IsBitmap(w, b) <==> IsBitmap(v, b)
  {
  }

  /** The bitmap blocks, of which there are no more than groups. */
  ghost function BitmapSet(groups: seq<Group>): (r: set<nat>)
    ensures |r| <= |groups| && forall b :: b in r <==> exists g :: 0 <= g < |groups| && groups[g].bitmap == b
  {
    if |groups| == 0 then {} else BitmapSet(groups[..|groups| - 1]) + {groups[|groups| - 1].bitmap}
  }

  // ----- one bit -----

  /** Bit `i` of group `g` set to `val`, and the counts adjusted. */
  function Flip(v: Vol, g: nat, i: nat, val: nat): (r: Vol)
    requires Shape(v) && g < |v.groups| && i < v.bpg && val < 2
  {
    var d := if val == 1 then -1 else 1;
    v.(disk := v.disk[v.groups[g].bitmap := Put(Bm(v, g), i, val)],
       groups := v.groups[g := v.groups[g].(free := v.groups[g].free + d)],
       free := v.free + d)
  }

  lemma BlockNoInverse(bpg: nat, g: nat, i: nat)
    requires i < bpg
    ensures GroupOf(bpg, BlockNo(bpg, g, i)) == g && BitOf(bpg, BlockNo(bpg, g, i)) == i
  {
    DivUnique(g * bpg + i, bpg, g, i);
  }

  /** Blocks are numbered from 1 on, through the bits of each group and from group to
      group. */
  lemma BlocksInOrder(bpg: nat, b: nat)
    requires bpg > 0 && b > 0
    ensures GroupOf(bpg, 1) == 0 && BitOf(bpg, 1) == 0 && BlockNo(bpg, 0, 0) == 1
    ensures GroupOf(bpg, b + 1) == if BitOf(bpg, b) + 1 < bpg then GroupOf(bpg, b) else GroupOf(bpg, b) + 1
    ensures BitOf(bpg, b + 1) == if BitOf(bpg, b) + 1 < bpg then BitOf(bpg, b) + 1 else 0
  {
    var q, r := (b - 1) / bpg, (b - 1) % bpg;
    DivUnique(0, bpg, 0, 0);
    assert b - 1 == bpg * q + r;
    if r + 1 < bpg {
      DivUnique(b, bpg, q, r + 1);
    } else {
      MulDist(q, 1, bpg);
      DivUnique(b, bpg, q + 1, 0);
    }
  }

  /** Block numbers are different unless group and bit are the same. */
  lemma BlockNoOnly(bpg: nat, g: nat, i: nat, b: nat)
    requires i < bpg && b > 0
    ensures b == BlockNo(bpg, g, i) <==> GroupOf(bpg, b) == g && BitOf(bpg, b) == i
  {
    BlockNoInverse(bpg, g, i);
    assert b - 1 == bpg * ((b - 1) / bpg) + (b - 1) % bpg;
  }

  lemma FlipShape(v: Vol, g: nat, i: nat, val: nat)
    requires Shape(v) && g < |v.groups| && i < v.bpg && val < 2
    ensures Shape(Flip(v, g, i, val)) && SameShape(v, Flip(v, g, i, val))
    ensures forall b :: 0 <= b < |v.disk| && !IsBitmap(v, b) ==> Flip(v, g, i, val).disk[b] == v.disk[b]
  {
    hide Put;
  }

  lemma FlipBm(v: Vol, g: nat, i: nat, val: nat, h: nat)
    requires Shape(v) && g < |v.groups| && i < v.bpg && val < 2 && h < |v.groups|
    ensures Shape(Flip(v, g, i, val))
    ensures Bm(Flip(v, g, i, val), h) == if h == g then Put(Bm(v, g), i, val) else Bm(v, h)
  {
    hide Put;
    FlipShape(v, g, i, val);
  }

  lemma FlipInUse(v: Vol, g: nat, i: nat, val: nat, b: nat)
    requires Shape(v) && g < |v.groups| && i < v.bpg && val < 2
    ensures Shape(Flip(v, g, i, val))
    ensures InUse(Flip(v, g, i, val), b) <==> if b == BlockNo(v.bpg, g, i) then val == 1 else InUse(v, b)
  {
    hide Put, Used, Flip, BlockNo, GroupOf, BitOf, IsBitmap;
    FlipShape(v, g, i, val);
    if b > 0 {
      BlockNoOnly(v.bpg, g, i, b);
      var h := GroupOf(v.bpg, b);
      if h < |v.groups| {
        FlipBm(v, g, i, val, h);
      }
    }
  }

  lemma {:induction false} SumFreeUpdate(a: seq<Group>, b: seq<Group>, g: nat)
    requires |a| == |b| && g < |a| && forall h :: 0 <= h < |a| && h != g ==> a[h].free == b[h].free
    ensures SumFree(b) == SumFree(a) + b[g].free - a[g].free
  {
    var n := |a| - 1;
    if g < n {
      SumFreeUpdate(a[..n], b[..n], g);
    } else {
      SumFreeSame(a[..n], b[..n]);
    }
  }

  lemma {:induction false} SumFreeSame(a: seq<Group>, b: seq<Group>)
    requires |a| == |b| && forall h :: 0 <= h < |a| ==> a[h].free == b[h].free
    ensures SumFree(b) == SumFree(a)
  {
    if |a| > 0 {
      SumFreeSame(a[..|a| - 1], b[..|a| - 1]);
    }
  }

  lemma FlipCounted(v: Vol, g: nat, i: nat, val: nat)
    requires Shape(v) && Counted(v) && g < |v.groups| && i < v.bpg && val < 2
    requires Used(Bm(v, g), i) <==> val == 0
    ensures Shape(Flip(v, g, i, val)) && Counted(Flip(v, g, i, val))
  {
    hide Put, Used, Zeros, SumFree, IsBitmap;
    var w := Flip(v, g, i, val);
    FlipShape(v, g, i, val);
    forall h | 0 <= h < |w.groups|
      ensures w.groups[h].free == Zeros(Bm(w, h), w.bpg)
    {
      FlipBm(v, g, i, val, h);
      if h == g {
        if val == 1 {
          ZerosFlip(Bm(v, g), Bm(w, g), i, v.bpg);
        } else {
          ZerosFlip(Bm(w, g), Bm(v, g), i, v.bpg);
        }
      }
    }
    SumFreeUpdate(v.groups, w.groups, g);
  }

  /** Only a bit for a block of the device may be cleared. */
  lemma FlipPadded(v: Vol, g: nat, i: nat, val: nat)
    requires Shape(v) && Padded(v) && g < |v.groups| && i < v.bpg && val < 2
    requires val == 0 ==> BlockNo(v.bpg, g, i) < |v.disk|
    ensures Shape(Flip(v, g, i, val)) && Padded(Flip(v, g, i, val))
  {
    hide Put, Used, Shape, Flip, BlockNo, IsBitmap;
    var w := Flip(v, g, i, val);
    FlipShape(v, g, i, val);
    forall h, j | 0 <= h < |w.groups| && 0 <= j < MAP_BITS && (j >= w.bpg || BlockNo(w.bpg, h, j) >= |w.disk|)
      ensures Used(Bm(w, h), j)
    {
      FlipBm(v, g, i, val, h);
    }
  }

  /** Taking a free block. */
  lemma Take(v: Vol, g: nat, i: nat)
    requires Ok(v) && g < |v.groups| && i < v.bpg && !Used(Bm(v, g), i)
    ensures Ok(Flip(v, g, i, 1)) && Claimed(v, Flip(v, g, i, 1), {BlockNo(v.bpg, g, i)})
  {
    hide Used, Shape, Padded, Counted, Flip, BlockNo, IsBitmap, Bm;
    var w := Flip(v, g, i, 1);
    FlipShape(v, g, i, 1);
    FlipCounted(v, g, i, 1);
    FlipPadded(v, g, i, 1);
    FlipFree(v, g, i, 1);
    FreeBit(v, g, i);
    forall b: nat
      ensures InUse(w, b) <==> InUse(v, b) || b in {BlockNo(v.bpg, g, i)}
    {
      FlipInUse(v, g, i, 1, b);
    }
  }

  lemma FlipFree(v: Vol, g: nat, i: nat, val: nat)
    requires Shape(v) && g < |v.groups| && i < v.bpg && val < 2
    ensures Flip(v, g, i, val).free == v.free + if val == 1 then -1 else 1
  {
  }

  /** A zero bit is for a block of the device that is not in use. */
  lemma FreeBit(v: Vol, g: nat, i: nat)
    requires Shape(v) && Padded(v) && g < |v.groups| && i < v.bpg && !Used(Bm(v, g), i)
    ensures 0 < BlockNo(v.bpg, g, i) < |v.disk| && !InUse(v, BlockNo(v.bpg, g, i))
  {
    hide Used;
    BlockNoInverse(v.bpg, g, i);
  }

  /** Giving back a block that is in use and is not a bitmap. */
  lemma GiveBack(v: Vol, b: nat)
    requires Ok(v) && 0 < b < |v.disk| && InUse(v, b) && !IsBitmap(v, b)
    ensures var g, i := GroupOf(v.bpg, b), BitOf(v.bpg, b);
            && g < |v.groups| && i < v.bpg
            && Ok(Flip(v, g, i, 0)) && Claimed(Flip(v, g, i, 0), v, {b})
  {
    hide Used, Padded, Counted, Flip, BlockNo, Bm, GroupOf, BitOf;
    var g, i := GroupOf(v.bpg, b), BitOf(v.bpg, b);
    GroupInRange(v, b);
    BlockNoOnly(v.bpg, g, i, b);
    var w := Flip(v, g, i, 0);
    FlipShape(v, g, i, 0);
    SameBitmaps(v, w);
    assert forall h :: 0 <= h < |v.groups| ==> IsBitmap(v, v.groups[h].bitmap);
    FlipCounted(v, g, i, 0);
    FlipPadded(v, g, i, 0);
    FlipFree(v, g, i, 0);
    forall c: nat
      ensures InUse(w, c) <==> InUse(v, c) && c != b
    {
      FlipInUse(v, g, i, 0, c);
    }
  }

  lemma GroupInRange(v: Vol, b: nat)
    requires Shape(v) && 0 < b < |v.disk|
    ensures GroupOf(v.bpg, b) < |v.groups|
  {
    hide IsBitmap;
    BlockOf(0, v.bpg, |v.groups|, b - 1);
  }

  // ----- several blocks -----

  lemma ClaimedNone(v: Vol)
    requires Shape(v)
    ensures Claimed(v, v, {})
  {
  }

  /** Taking in two goes. */
  lemma ClaimedMore(u: Vol, v: Vol, w: Vol, s: set<nat>, t: set<nat>)
    requires Claimed(u, v, s) && Claimed(v, w, t)
    ensures Claimed(u, w, s + t) && s !! t
  {
    hide Shape, IsBitmap, InUse;
    SameBitmaps(u, v);
    assert forall b :: b in s ==> InUse(v, b);
  }

  /** Giving back what was taken restores every bit and every count. */
  lemma GivenBack(u: Vol, v: Vol, w: Vol, s: set<nat>)
    requires Ok(u) && Ok(w) && Claimed(u, v, s) && Claimed(w, v, s)
    ensures w.disk == u.disk && w.groups == u.groups && w.free == u.free
  {
    hide IsBitmap, Padded, Zeros, SumFree;
    forall g | 0 <= g < |u.groups|
      ensures Bm(w, g) == Bm(u, g)
    {
      SameMaps(u, v, w, s, g);
    }
    forall g | 0 <= g < |u.groups|
      ensures w.groups[g] == u.groups[g]
    {
    }
    SameDisks(u, v, w, s);
  }

  lemma SameDisks(u: Vol, v: Vol, w: Vol, s: set<nat>)
    requires Claimed(u, v, s) && Claimed(w, v, s)
    requires forall g :: 0 <= g < |u.groups| ==> Bm(w, g) == Bm(u, g)
    ensures w.disk == u.disk
  {
    hide InUse;
    SameBitmaps(u, v);
    SameBitmaps(w, v);
    forall b | 0 <= b < |u.disk|
      ensures w.disk[b] == u.disk[b]
    {
      if g :| 0 <= g < |u.groups| && u.groups[g].bitmap == b {
        assert Bm(w, g) == Bm(u, g);
      } else {
        assert !IsBitmap(u, b);
      }
    }
  }

  lemma SameMaps(u: Vol, v: Vol, w: Vol, s: set<nat>, g: nat)
    requires Ok(u) && Ok(w) && Claimed(u, v, s) && Claimed(w, v, s) && g < |u.groups|
    ensures Bm(w, g) == Bm(u, g)
  {
    hide IsBitmap, Counted, Used, Shape;
    var bpg := u.bpg;
    forall i | 0 <= i < MAP_BITS
      ensures Used(Bm(w, g), i) <==> Used(Bm(u, g), i)
    {
      if i < bpg {
        var b := BlockNo(bpg, g, i);
        SameUse(u, v, w, s, b);
        InUseBit(u, g, i);
        InUseBit(w, g, i);
      }
    }
    SameBlocks(Bm(u, g), Bm(w, g));
  }

  lemma InUseBit(v: Vol, g: nat, i: nat)
    requires Shape(v) && g < |v.groups| && i < v.bpg
    ensures InUse(v, BlockNo(v.bpg, g, i)) <==> Used(Bm(v, g), i)
  {
    hide Used, BlockNo;
    BlockNoInverse(v.bpg, g, i);
  }

  lemma SameUse(u: Vol, v: Vol, w: Vol, s: set<nat>, b: nat)
    requires Claimed(u, v, s) && Claimed(w, v, s)
    ensures InUse(w, b) <==> InUse(u, b)
  {
    hide IsBitmap, InUse, Shape;
  }

  lemma SameBlocks(a: Block, b: Block)
    requires forall i :: 0 <= i < MAP_BITS ==> (Used(a, i) <==> Used(b, i))
    ensures a == b
  {
    hide Bit;
    WordPow();
    forall j | 0 <= j < WORDS
      ensures a[j] == b[j]
    {
      forall k | 0 <= k < WORD_BITS
        ensures Bit(a[j], k) == Bit(b[j], k)
      {
        var i := j * WORD_BITS + k;
        assert i / WORD_BITS == j && i % WORD_BITS == k;
        assert Used(a, i) <==> Used(b, i);
      }
      SameBits(a[j], b[j], WORD_BITS);
    }
  }

  /** Of what was taken, giving some back. */
  lemma ClaimedLess(u: Vol, v: Vol, w: Vol, s: set<nat>, t: set<nat>)
    requires Claimed(u, v, s) && Claimed(w, v, t) && t <= s
    ensures Claimed(u, w, s - t)
  {
    hide Shape, IsBitmap, InUse;
    SameBitmaps(u, v);
    SameBitmaps(w, v);
    assert s == (s - t) + t;
  }

  /** Clearing the bit of a block keeps the volume in order exactly when the block is
      in use and is not a bitmap. */
  lemma FreeingKeepsOrder(v: Vol, b: nat)
    requires Ok(v) && 0 < b < |v.disk|
    ensures GroupOf(v.bpg, b) < |v.groups|
    ensures Ok(Flip(v, GroupOf(v.bpg, b), BitOf(v.bpg, b), 0)) <==> InUse(v, b) && !IsBitmap(v, b)
  {
    hide Padded, Flip, Used, BlockNo, GroupOf, BitOf;
    GroupInRange(v, b);
    var g, i := GroupOf(v.bpg, b), BitOf(v.bpg, b);
    if InUse(v, b) && !IsBitmap(v, b) {
      GiveBack(v, b);
    } else if IsBitmap(v, b) {
      BlockNoOnly(v.bpg, g, i, b);
      FlipInUse(v, g, i, 0, b);
      FlipShape(v, g, i, 0);
    } else {
      FlipFreed(v, g, i);
    }
  }

  /** Freeing twice makes the count of the group too high. */
  lemma FlipFreed(v: Vol, g: nat, i: nat)
    requires Ok(v) && g < |v.groups| && i < v.bpg && !Used(Bm(v, g), i)
    ensures Shape(Flip(v, g, i, 0)) && !Counted(Flip(v, g, i, 0))
  {
    hide Put, Used, IsBitmap, InUse, Padded, SumFree;
    FlipShape(v, g, i, 0);
    FlipBm(v, g, i, 0, g);
    ZerosSame(Bm(v, g), Bm(Flip(v, g, i, 0), g), v.bpg);
  }

  // ----- a volume -----

  function AllOnes(): (r: Block)
    ensures forall i :: 0 <= i < WORDS ==> r[i] == ONES
  {
    seq(WORDS, _ => ONES)
  }

  /** All blocks in use but block 2. */
  function SmallestMap(): (r: Block)
  {
    Put(AllOnes(), 1, 0)
  }

  /** One group, with the bitmap in block 1. */
  function Smallest(): (r: Vol)
  {
    Vol(MAP_BITS, [Group(1, 1)], [ZeroBlock(), SmallestMap(), ZeroBlock()], 1)
  }

  lemma OnesUsed(i: nat)
    requires i < MAP_BITS
    ensures Used(AllOnes(), i)
  {
    hide Bit;
    NotAllOnes(ONES);
  }

  lemma {:induction false} ZerosNone(bm: Block, n: nat)
    requires n <= MAP_BITS && forall i :: 0 <= i < n ==> Used(bm, i)
    ensures Zeros(bm, n) == 0
  {
    hide Used;
    if n > 0 {
      ZerosNone(bm, n - 1);
    }
  }

  lemma SmallestBits()
    ensures forall i :: 0 <= i < MAP_BITS ==> (Used(SmallestMap(), i) <==> i != 1)
    ensures Zeros(SmallestMap(), MAP_BITS) == 1
  {
    hide Used, AllOnes, Zeros;
    forall i | 0 <= i < MAP_BITS
      ensures Used(AllOnes(), i)
    {
      OnesUsed(i);
    }
    ZerosNone(AllOnes(), MAP_BITS);
    ZerosFlip(SmallestMap(), AllOnes(), 1, MAP_BITS);
  }

  lemma SmallestShape()
    ensures Shape(Smallest()) && Bm(Smallest(), 0) == SmallestMap()
  {
    hide SmallestMap, ZeroBlock;
  }

  lemma SmallestCounted()
    ensures Shape(Smallest()) && Counted(Smallest())
  {
    hide SmallestMap, ZeroBlock, Zeros, Used;
    SmallestBits();
    SmallestShape();
    var groups := Smallest().groups;
    assert groups[..0] == [];
    assert SumFree(groups[..0]) == 0;
  }

  lemma SmallestBlockTwo()
    ensures BlockNo(Smallest().bpg, 0, 1) == 2 && Smallest().bpg == MAP_BITS
    ensures |Smallest().disk| == 3 && |Smallest().groups| == 1
  {
    hide SmallestMap, ZeroBlock;
  }

  lemma SmallestPadded()
    ensures Shape(Smallest()) && Padded(Smallest())
  {
    hide Smallest, SmallestMap, Used, Bm, Shape, BlockNo;
    SmallestBits();
    SmallestShape();
    SmallestBlockTwo();
  }

  lemma SmallestUse(b: nat)
    requires 1 <= b <= 2
    ensures Shape(Smallest()) && (InUse(Smallest(), b) <==> b == 1)
  {
    hide SmallestMap, ZeroBlock, Used, Bm, Shape;
    SmallestBits();
    SmallestShape();
    BlockNoOnly(MAP_BITS, 0, b - 1, b);
  }

  /** There are volumes in order. */
  lemma SmallestOk()
    ensures Ok(Smallest()) && !InUse(Smallest(), 2)
  {
    hide Shape, Padded, Counted, InUse, SmallestMap;
    SmallestShape();
    SmallestCounted();
    SmallestPadded();
    SmallestUse(1);
    SmallestUse(2);
  }
}
