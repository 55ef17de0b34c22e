/** UFS block lookup: the level of a file block by a search, its indices by a chain of
    divisions, and one cached index block per level (fs/ufs.c:123-213, 433-443). */
module Ufs {
  import opened Bits
  import opened BitStream
  import opened PointerCache

  const NDADDR: nat := 12
  const NIADDR: nat := 3
  /** Pointers in a block of 8 KiB, the largest that is mounted. */
  const MAX_NINDIR: nat := 2048

  function Pow(n: nat, k: nat): (r: nat)
    ensures n > 0 ==> r > 0
  {
    if k == 0 then 1 else
      MulPositive(n, Pow(n, k - 1));
      n * Pow(n, k - 1)
  }

  lemma MulPositive(a: nat, b: nat)
    ensures a * b >= 0 && (a > 0 && b > 0 ==> a * b > 0)
  {
  }

  /** The largest wrapped value is the product itself. */
  lemma WrapAtMost(x: int)
    requires x >= 0
    ensures Wrap32(x) <= x
  {
  }

  /** `f_nindir` as `ufs_open` computes it (lines 433-443). */
  method Levels(n: nat) returns (nindir: seq<int>)
    ensures |nindir| == NIADDR && forall l :: 0 <= l < NIADDR ==> nindir[l] == Wrap32(Pow(n, l + 1))
  {
    hide Wrap32;
    WrapSmall(1);
    var mult := 1;
    nindir := [];
    var level := 0;
    while level < NIADDR
      invariant level == |nindir| <= NIADDR && mult == Wrap32(Pow(n, level))
      invariant forall l :: 0 <= l < level ==> nindir[l] == Wrap32(Pow(n, l + 1))
    {
      WrapMul(Pow(n, level), n);
      PowNext(n, level);
      mult := Wrap32(mult * n);
      nindir := nindir + [mult];
      level := level + 1;
    }
  }

  lemma PowNext(n: nat, k: nat)
    ensures Pow(n, k + 1) == Pow(n, k) * n == n * Pow(n, k)
  {
  }

  lemma PowTwo(n: nat)
    requires 0 < n <= MAX_NINDIR
    ensures Pow(n, 1) == n && Pow(n, 2) == n * n <= 0x40_0000
  {
    assert Pow(n, 0) == 1;
    assert Pow(n, 1) == n;
    MulMono(n, n, MAX_NINDIR);
    MulMono(MAX_NINDIR, n, MAX_NINDIR);
  }

  /** The counts for the first two levels are right; for the third, a power of two, it
      is right for blocks up to 4 KiB and zero for larger ones. */
  lemma LevelsRight(k: nat)
    requires k <= 11
    ensures Wrap32(Pow(Pow2(k), 3)) == if k <= 10 then Pow(Pow2(k), 3) else 0
  {
    hide Wrap32, Pow2;
    PowCube(Pow2(k));
    Pow2Add(k, k);
    Pow2Add(k, k + k);
    assert Pow(Pow2(k), 3) == Pow2(3 * k);
    WrapPow2(3 * k);
  }

  lemma PowCube(n: nat)
    ensures Pow(n, 3) == n * (n * n)
  {
    assert Pow(n, 0) == 1;
    assert Pow(n, 1) == n;
    assert Pow(n, 2) == n * n;
  }

  lemma WrapPow2(m: nat)
    requires m <= 30 || m >= 32
    ensures Wrap32(Pow2(m)) == if m <= 30 then Pow2(m) else 0
  {
    hide Pow2;
    assert Pow2(15) == 0x8000 && Pow2(30) == 0x4000_0000 && Pow2(32) == 0x1_0000_0000 by {
      SmallPowers();
    }
    if m <= 30 {
      Pow2Mono(m, 30);
      WrapSmall(Pow2(m));
    } else {
      Pow2Add(32, m - 32);
      assert Pow2(m) == 0 + Pow2(m - 32) * 0x1_0000_0000;
      WrapShift(0, Pow2(m - 32));
      WrapSmall(0);
    }
  }

  lemma SmallPowers()
    ensures Pow2(15) == 0x8000 && Pow2(30) == 0x4000_0000 && Pow2(32) == 0x1_0000_0000
  {
    assert Pow2(15) == 0x8000;
    Pow2Add(15, 15);
    assert Pow2(2) == 4;
    Pow2Add(30, 2);
  }

  // ----- the index tree -----

  /** A file system as it is mounted: `fs_bsize`, and `fs_fsbtodb` for the rule. */
  predicate Mounted(d: Dev)
  {
    Sized(d) && Ptrs(d) <= MAX_NINDIR && d.rule.Shifted?
  }

  lemma IndexFits(n: nat, level: nat, x: nat)
    requires n > 0 && x < Pow(n, level + 1)
    ensures x / Pow(n, level) < n && x % Pow(n, level) < Pow(n, level)
  {
    PowNext(n, level);
    BlockOf(0, Pow(n, level), n, x);
  }

  /** Block `x` of those below pointer `ind`, which has `level` levels of index blocks
      under its own. */
  function Leaf(d: Dev, n: nat, ind: nat, level: nat, x: nat): (r: Answer)
    requires n > 0 && x < Pow(n, level + 1)
    decreases level
  {
    if ind == 0 then Block(0)
    else
      match Found(d, ind)
      case Unreadable => Failed
      case Contents(data) =>
        IndexFits(n, level, x);
        var next := Ptr(data, x / Pow(n, level));
        if level == 0 then Block(next) else Leaf(d, n, next, level - 1, x % Pow(n, level))
  }

  /** The tree a block is in, and its number there. */
  datatype Spot = Spot(level: nat, x: nat) | TooHigh

  function Locate(n: nat, x: nat, level: nat): (r: Spot)
    requires level <= NIADDR
    ensures r.Spot? ==> level <= r.level < NIADDR && r.x < Pow(n, r.level + 1)
    decreases NIADDR - level
  {
    if level == NIADDR then TooHigh
    else if x < Pow(n, level + 1) then Spot(level, x)
    else Locate(n, x - Pow(n, level + 1), level + 1)
  }

  /** The first block of the tree of a level. */
  function Base(n: nat, level: nat): (r: nat)
  {
    if level == 0 then 0 else Base(n, level - 1) + Pow(n, level)
  }

  /** Each block has one place: its number is the tree's first block plus its number
      in the tree. */
  lemma {:induction false} LocateIs(n: nat, x: nat, level: nat, l: nat, y: nat)
    requires level <= l < NIADDR && n > 0
    ensures Locate(n, x, level) == Spot(l, y) <==> y < Pow(n, l + 1) && Base(n, level) + x == Base(n, l) + y
    decreases NIADDR - level
  {
    hide Pow;
    if level < l {
      if x >= Pow(n, level + 1) {
        LocateIs(n, x - Pow(n, level + 1), level + 1, l, y);
      } else {
        BaseGrows(n, level + 1, l);
      }
    } else if x >= Pow(n, level + 1) {
      LocateLater(n, x - Pow(n, level + 1), level + 1);
    }
  }

  lemma LocateLater(n: nat, x: nat, level: nat)
    requires level <= NIADDR
    ensures Locate(n, x, level).Spot? ==> Locate(n, x, level).level >= level
  {
  }

  lemma {:induction false} BaseGrows(n: nat, a: nat, b: nat)
    requires a <= b
    ensures Base(n, a) <= Base(n, b)
  {
    if a < b {
      BaseGrows(n, a, b - 1);
    }
  }

  /** The index at a level, and the number below it. */
  function Split(n: nat, level: nat, x: nat): (r: (nat, nat))
    requires n > 0 && x < Pow(n, level + 1)
    ensures r == (x / Pow(n, level), x % Pow(n, level))
    ensures r.0 < n && r.1 < Pow(n, level)
  {
    IndexFits(n, level, x);
    (x / Pow(n, level), x % Pow(n, level))
  }

  /** The indices on the way to a block below `k` levels, the topmost first. */
  function Digits(n: nat, k: nat, x: nat): (r: seq<nat>)
    requires n > 0 && x < Pow(n, k)
    ensures |r| == k && forall i :: 0 <= i < k ==> r[i] < n
  {
    hide Pow, Split;
    if k == 0 then []
    else
      var (index, rest) := Split(n, k - 1, x);
      [index] + Digits(n, k - 1, rest)
  }

  function Value(n: nat, digits: seq<nat>): (r: nat)
  {
    if |digits| == 0 then 0 else digits[0] * Pow(n, |digits| - 1) + Value(n, digits[1..])
  }

  /** The indices determine the block, so no two blocks share them. */
  lemma {:induction false} DigitsValue(n: nat, k: nat, x: nat)
    requires n > 0 && x < Pow(n, k)
    ensures Value(n, Digits(n, k, x)) == x
    decreases k
  {
    hide Pow;
    if k > 0 {
      DigitsStep(n, k - 1, x);
      DigitsValue(n, k - 1, x % Pow(n, k - 1));
      QuotientAndRest(x, Pow(n, k - 1));
    } else {
      assert Pow(n, 0) == 1 by {
        PowZero(n);
      }
    }
  }

  lemma PowZero(n: nat)
    ensures Pow(n, 0) == 1
  {
  }

  lemma QuotientAndRest(x: nat, p: nat)
    requires p > 0
    ensures (x / p) * p + x % p == x
  {
  }

  /** The chain of divisions is the walk along the indices. */
  lemma {:induction false} LeafFollows(d: Dev, n: nat, ind: nat, level: nat, x: nat)
    requires n > 0 && x < Pow(n, level + 1)
    ensures Leaf(d, n, ind, level, x) == Walk(d, ind, Digits(n, level + 1, x))
    decreases level
  {
    hide Pow, Found, Ptr;
    IndexFits(n, level, x);
    var digits, found := Digits(n, level + 1, x), Found(d, ind);
    if ind != 0 && found.Contents? {
      var next := Ptr(found.data, x / Pow(n, level));
      assert digits[1..] == Digits(n, level, x % Pow(n, level)) && digits[0] == x / Pow(n, level);
      if level > 0 {
        LeafFollows(d, n, next, level - 1, x % Pow(n, level));
      } else {
        assert Walk(d, next, []) == Block(next);
      }
    }
  }

  // ----- block_map -----

  /** The pointers in an inode. */
  datatype Inode = Inode(direct: seq<nat>, indirect: seq<nat>)

  predicate Shaped(i: Inode)
  {
    && |i.direct| == NDADDR && |i.indirect| == NIADDR
    && (forall k :: 0 <= k < NDADDR ==> i.direct[k] < WORD) && (forall k :: 0 <= k < NIADDR ==> i.indirect[k] < WORD)
  }

  /** The lookup without caches and without a wrapped count. */
  function Map(d: Dev, i: Inode, file_block: nat): (r: Answer)
    requires Sized(d) && Shaped(i)
  {
    if file_block < NDADDR then Block(i.direct[file_block])
    else
      match Locate(Ptrs(d), file_block - NDADDR, 0)
      case TooHigh => Failed
      case Spot(level, x) => Leaf(d, Ptrs(d), i.indirect[level], level, x)
  }

  /** The index blocks on the way to a block of the file begin below 2 GiB, counted from
      the start of the partition. */
  predicate NearIndex(d: Dev, i: Inode, file_block: nat)
    requires Sized(d) && Shaped(i)
  {
    file_block < NDADDR ||
    match Locate(Ptrs(d), file_block - NDADDR, 0)
    case TooHigh => true
    case Spot(level, x) => NearWay(d, i.indirect[level], Digits(Ptrs(d), level + 1, x))
  }

  /** Then the 32-bit offsets make no difference. */
  lemma MapNear(d: Dev, i: Inode, file_block: nat)
    requires Mounted(d) && Shaped(i) && NearIndex(d, i, file_block)
    ensures Map(d, i, file_block) == Map(Ideal(d), i, file_block)
  {
    hide Pow, Locate, Leaf, Walk, NearWay, Digits;
    var n := Ptrs(d);
    assert Ptrs(Ideal(d)) == n;
    if file_block >= NDADDR {
      match Locate(n, file_block - NDADDR, 0)
      case TooHigh =>
      case Spot(level, x) =>
        LeafFollows(d, n, i.indirect[level], level, x);
        LeafFollows(Ideal(d), n, i.indirect[level], level, x);
        NearWalk(d, i.indirect[level], Digits(n, level + 1, x));
    }
  }

  /** Blocks of 8 KiB in fragments of 1 KiB, and an index block that begins 4 GiB after
      block 1: the first pointer in it is not zero, but that in block 1 is, and is taken. */
  lemma FarHappens()
    ensures var d := Dev(Spike(0x1_0000_4000, 0x1_0000_0400), 0, 8192, Shifted(1));
            && Mounted(d) && Place(d, 0x40_0001) == Place(d, 1) == 0x400
            && Walk(d, 0x40_0001, [0]) == Block(0) && Walk(Ideal(d), 0x40_0001, [0]) == Block(1)
  {
    hide Walk, Spike, Ptr;
    var d := Dev(Spike(0x1_0000_4000, 0x1_0000_0400), 0, 8192, Shifted(1));
    assert Pow2(1) == 2;
    WalkOne(d, 0x40_0001, 0);
    WalkOne(Ideal(d), 0x40_0001, 0);
    SpikeBlock(0x1_0000_4000, 0x1_0000_0400, 0x400, 8192);
    SpikeBlock(0x1_0000_4000, 0x1_0000_0400, 0x1_0000_0400, 8192);
  }

  /** The first pointer in a block of zeros but for one byte. */
  lemma SpikeBlock(size: nat, at: nat, place: nat, n: nat)
    requires n >= 4 && place + n <= size && (place == at || place + 4 <= at)
    ensures var block := BytesAt(Spike(size, at), place, n);
            block.Contents? && Ptr(block.data, 0) == if place == at then 1 else 0
  {
    var data := BytesAt(Spike(size, at), place, n).data;
    assert data[0] == (if place == at then 1 else 0) && data[1] == 0 && data[2] == 0 && data[3] == 0;
  }

  /** Blocks of the third tree that the wrapped count of its blocks leaves out. */
  predicate LeftOut(n: nat, file_block: nat)
  {
    && file_block >= NDADDR
    && var spot := Locate(n, file_block - NDADDR, 0);
       spot.Spot? && spot.level == 2 && spot.x >= Wrap32(Pow(n, 3))
  }

  /** None is left out exactly when the count did not wrap. */
  lemma NoneLeftOut(n: nat)
    requires 0 < n
    ensures (forall b :: 0 <= b ==> !LeftOut(n, b)) <==> Wrap32(Pow(n, 3)) == Pow(n, 3)
  {
    hide Wrap32, Locate;
    var c := Pow(n, 3);
    WrapAtMost(c);
    if Wrap32(c) != c {
      var y := if Wrap32(c) >= 0 then Wrap32(c) else 0;
      var b := NDADDR + Base(n, 2) + y;
      LocateIs(n, b - NDADDR, 0, 2, y);
      assert LeftOut(n, b);
    }
  }

  lemma TrueCounts(n: nat)
    requires 0 < n <= MAX_NINDIR
    ensures Wrap32(Pow(n, 1)) == Pow(n, 1) == n && Wrap32(Pow(n, 2)) == Pow(n, 2)
  {
    hide Wrap32;
    PowTwo(n);
    WrapSmall(n);
    WrapSmall(n * n);
  }

  // ----- one turn of the loop -----

  /** What is left to do comes to the goal. */
  predicate Continues(d: Dev, bufs: seq<Cached>, ind: nat, digits: seq<nat>, level: nat, junk: seq<byte>, goal: (Answer, seq<Cached>))
    requires |digits| <= level + 1 <= |bufs|
  {
    var l := Lookup(d, bufs[..|digits|], ind, digits, junk);
    goal == (l.0, l.1 + bufs[|digits|..level + 1])
  }

  lemma DigitsStep(n: nat, l: nat, y: nat)
    requires n > 0 && y < Pow(n, l + 1)
    ensures y % Pow(n, l) < Pow(n, l) && Digits(n, l + 1, y)[0] == y / Pow(n, l)
    ensures Digits(n, l + 1, y)[1..] == Digits(n, l, y % Pow(n, l))
    ensures l == 0 ==> y / Pow(n, l) == y && Digits(n, l + 1, y)[1..] == []
  {
    IndexFits(n, l, y);
    assert Pow(n, 0) == 1;
  }

  lemma Begins(d: Dev, bufs: seq<Cached>, ind: nat, digits: seq<nat>, level: nat, junk: seq<byte>)
    requires |digits| == level + 1 <= |bufs|
    ensures Continues(d, bufs, ind, digits, level, junk, Lookup(d, bufs[..level + 1], ind, digits, junk))
  {
    hide Lookup;
    var l := Lookup(d, bufs[..level + 1], ind, digits, junk);
    assert l.1 + bufs[level + 1..level + 1] == l.1;
  }

  lemma Ends(d: Dev, bufs: seq<Cached>, ind: nat, digits: seq<nat>, level: nat, junk: seq<byte>, goal: (Answer, seq<Cached>))
    requires |digits| <= level + 1 <= |bufs| && Continues(d, bufs, ind, digits, level, junk, goal) && (ind == 0 || |digits| == 0)
    ensures goal == (Block(ind), bufs[..level + 1])
  {
    assert bufs[..|digits|] + bufs[|digits|..level + 1] == bufs[..level + 1];
  }

  lemma GoesOn(d: Dev, before: seq<Cached>, after: seq<Cached>, ind: nat, digits: seq<nat>, level: nat, junk: seq<byte>, goal: (Answer, seq<Cached>))
    requires 0 < |digits| <= level + 1 <= |before| && ind != 0 && Continues(d, before, ind, digits, level, junk, goal)
    requires after == before[|digits| - 1 := Fetch(d, before[|digits| - 1], ind, junk).1]
    ensures var (ok, f) := Fetch(d, before[|digits| - 1], ind, junk);
            if ok then Continues(d, after, Ptr(f.buf, digits[0]), digits[1..], level, junk, goal)
            else goal == (Failed, after[..level + 1])
    ensures after[level + 1..] == before[level + 1..]
  {
    hide Fetch, Ptr;
    var l := |digits| - 1;
    var (ok, f) := Fetch(d, before[l], ind, junk);
    assert before[..l + 1][..l] == before[..l] == after[..l];
    var rest := Lookup(d, before[..l], Ptr(f.buf, digits[0]), digits[1..], junk);
    assert rest.1 + [f] + before[l + 1..level + 1] == rest.1 + after[l..level + 1];
    assert before[..l] + [f] + before[l + 1..level + 1] == after[..level + 1];
  }

  lemma Served(d: Dev, i: Inode, bufs: seq<Cached>, spot: Spot, junk: seq<byte>)
    requires Mounted(d) && Shaped(i) && |bufs| == NIADDR && AllTrue(d, bufs) && |junk| == d.bs
    requires spot.Spot? && spot.level < NIADDR && spot.x < Pow(Ptrs(d), spot.level + 1)
    ensures var n, b := Ptrs(d), i.indirect[spot.level];
            var w := Digits(n, spot.level + 1, spot.x);
            var l := Lookup(d, bufs[..spot.level + 1], b, w, junk);
            && AllTrue(d, l.1 + bufs[spot.level + 1..])
            && (!Uses(d, bufs[..spot.level + 1], b, w) ==> l.0 == Leaf(d, n, b, spot.level, spot.x))
  {
    hide Pow, Lookup, Digits, Uses, Leaf, Walk, True;
    var n, b, low := Ptrs(d), i.indirect[spot.level], bufs[..spot.level + 1];
    var w := Digits(n, spot.level + 1, spot.x);
    LookupKeeps(d, low, b, w, junk);
    if !Uses(d, low, b, w) {
      LookupRight(d, low, b, w, junk);
      LeafFollows(d, n, b, spot.level, spot.x);
    }
  }

  /** `block_map` returns a signed number, and -1 for a failure. */
  function Returned(a: Answer): (r: int)
  {
    if a.Failed? then -1 else Wrap32(a.b)
  }

  /** The lookup takes a pointer from a spoiled buffer. */
  predicate UsesSpoiled(d: Dev, i: Inode, bufs: seq<Cached>, file_block: nat)
    requires Sized(d) && Shaped(i) && |bufs| == NIADDR
  {
    && file_block >= NDADDR
    && match Locate(Ptrs(d), file_block - NDADDR, 0)
       case TooHigh => false
       case Spot(level, x) => Uses(d, bufs[..level + 1], i.indirect[level], Digits(Ptrs(d), level + 1, x))
  }

  class File {
    const dev: Dev
    /** `i_db` and `i_ib`, and `f_nindir`. */
    const inode: Inode
    const nindir: seq<int>
    /** `f_blkno` and `f_blk`: the index block cached at each level. */
    var bufs: seq<Cached>

    predicate Shape()
    {
      && Mounted(dev) && Shaped(inode) && |nindir| == NIADDR
      && forall l :: 0 <= l < NIADDR ==> nindir[l] == Wrap32(Pow(Ptrs(dev), l + 1))
    }

    ghost predicate Valid()
      reads this
    {
      Shape() && |bufs| == NIADDR && AllTrue(dev, bufs)
    }

    /** The end of `ufs_open`, after `read_inode` has emptied the caches. */
    constructor (d: Dev, i: Inode, memory: seq<byte>)
      requires Mounted(d) && Shaped(i) && |memory| == d.bs
      ensures Valid() && dev == d && inode == i && bufs == seq(NIADDR, _ => Cached(NONE, memory, true))
    {
      var levels := Levels(Ptrs(d));
      dev, inode, nindir := d, i, levels;
      bufs := seq(NIADDR, _ => Cached(NONE, memory, true));
    }

    /** Lines 166-170: the level, by subtraction. */
    method Find(x: nat) returns (spot: Spot)
      requires Shape()
      ensures spot == if LeftOut(Ptrs(dev), x + NDADDR) then TooHigh else Locate(Ptrs(dev), x, 0)
      ensures spot.Spot? ==> spot.level < NIADDR && spot.x < Pow(Ptrs(dev), spot.level + 1)
    {
      hide Wrap32, Pow;
      var n := Ptrs(dev);
      var level := 0;
      var y: int := x;
      TrueCounts(n);
      WrapAtMost(Pow(n, 3));
      while level < NIADDR
        invariant level <= NIADDR && (level < NIADDR ==> y >= 0 && Locate(n, x, 0) == Locate(n, y, level))
        invariant level == NIADDR ==> LeftOut(n, x + NDADDR) || Locate(n, x, 0) == TooHigh
        decreases NIADDR - level
      {
        if y < nindir[level] {
          return Spot(level, y);
        }
        y := y - nindir[level];
        level := level + 1;
      }
      return TooHigh;
    }

    /** Lines 178-209: down the levels, each with its cached block. */
    method Descend(start: nat, level: nat, x: nat, junk: seq<byte>) returns (r: int)
      requires Shape() && |bufs| == NIADDR && level < NIADDR && x < Pow(Ptrs(dev), level + 1)
      modifies this
      ensures var l := Lookup(dev, old(bufs)[..level + 1], start, Digits(Ptrs(dev), level + 1, x), junk);
              r == Returned(l.0) && bufs == l.1 + old(bufs)[level + 1..]
    {
      hide Pow, Lookup, Digits, Fetch, Ptr, Wrap32, Sized, Continues;
      ghost var n := Ptrs(dev);
      ghost var goal := Lookup(dev, bufs[..level + 1], start, Digits(n, level + 1, x), junk);
      Begins(dev, bufs, start, Digits(n, level + 1, x), level, junk);
      var ind: nat, y: nat := start, x;
      var l: int := level;
      while l >= 0
        invariant -1 <= l <= level && |bufs| == NIADDR
        invariant bufs[level + 1..] == old(bufs)[level + 1..]
        invariant l >= 0 ==> y < Pow(n, l + 1) && Continues(dev, bufs, ind, Digits(n, l + 1, y), level, junk, goal)
        invariant l < 0 ==> Continues(dev, bufs, ind, [], level, junk, goal)
      {
        if ind == 0 {
          Ends(dev, bufs, 0, Digits(n, l + 1, y), level, junk, goal);
          WrapSmall(0);
          return 0;
        }
        ghost var before := bufs;
        var ok := Load(l, ind, junk);
        GoesOn(dev, before, bufs, ind, Digits(n, l + 1, y), level, junk, goal);
        if !ok {
          return -1;
        }
        var idx: nat;
        idx, y := Index(l, y);
        ind := Ptr(bufs[l].buf, idx);
        l := l - 1;
      }
      Ends(dev, bufs, ind, [], level, junk, goal);
      return Wrap32(ind);
    }

    /** Lines 203-208: the index at level `l`, and the rest. */
    method Index(l: nat, y: nat) returns (idx: nat, rest: nat)
      requires Shape() && l < NIADDR && y < Pow(Ptrs(dev), l + 1)
      ensures var w := Digits(Ptrs(dev), l + 1, y);
              && idx == w[0] && (l == 0 ==> w[1..] == []) && (l > 0 ==> rest < Pow(Ptrs(dev), l) && w[1..] == Digits(Ptrs(dev), l, rest))
    {
      hide Pow, Wrap32, Digits;
      TrueCounts(Ptrs(dev));
      DigitsStep(Ptrs(dev), l, y);
      if l > 0 {
        assert nindir[l - 1] == Pow(Ptrs(dev), l);
        return y / nindir[l - 1], y % nindir[l - 1];
      }
      return y, y;
    }

    /** Lines 183-199: index block `b` in the buffer for level `l`.  A failed read leaves a
        new buffer, with anything in it, under the old number. */
    method Load(l: nat, b: nat, junk: seq<byte>) returns (ok: bool)
      requires Shape() && |bufs| == NIADDR && l < NIADDR
      modifies this
      ensures var f := Fetch(dev, old(bufs[l]), b, junk); ok == f.0 && bufs == old(bufs)[l := f.1]
    {
      if bufs[l].blkno == b {
        return true;
      }
      var buf;
      ok, buf := ReadAt(dev, Place(dev, b), dev.bs, junk);
      bufs := bufs[l := if ok then Cached(b, buf, false) else Cached(bufs[l].blkno, buf, true)];
    }

    /** `block_map`.  Without use of a spoiled buffer the result is the walk; where the
        index blocks are near, it is the walk on the file system as it is. */
    method BlockMap(file_block: nat, junk: seq<byte>) returns (r: int)
      requires Valid() && |junk| == dev.bs && file_block < SHORT
      modifies this
      ensures Valid()
      ensures LeftOut(Ptrs(dev), file_block) ==> r == -1
      ensures LeftOut(Ptrs(dev), file_block) || file_block < NDADDR || Locate(Ptrs(dev), file_block - NDADDR, 0).TooHigh? ==>
                bufs == old(bufs)
      ensures !LeftOut(Ptrs(dev), file_block) && !old(UsesSpoiled(dev, inode, bufs, file_block)) ==>
                r == Returned(Map(dev, inode, file_block))
      ensures !LeftOut(Ptrs(dev), file_block) && !old(UsesSpoiled(dev, inode, bufs, file_block)) && NearIndex(dev, inode, file_block) ==>
                r == Returned(Map(Ideal(dev), inode, file_block))
      ensures file_block >= NDADDR && !LeftOut(Ptrs(dev), file_block) ==>
                var spot := Locate(Ptrs(dev), file_block - NDADDR, 0);
                spot.Spot? ==>
                var l := Lookup(dev, old(bufs)[..spot.level + 1], inode.indirect[spot.level], Digits(Ptrs(dev), spot.level + 1, spot.x), junk);
                r == Returned(l.0) && bufs == l.1 + old(bufs)[spot.level + 1..]
    {
      hide Pow, Leaf, Wrap32, Locate, Digits, Lookup, Uses, Walk, True, NearWay;
      if NearIndex(dev, inode, file_block) {
        MapNear(dev, inode, file_block);
      }
      if file_block < NDADDR {
        return Wrap32(inode.direct[file_block]);
      }
      var spot := Find(file_block - NDADDR);
      if spot.TooHigh? {
        return -1;
      }
      Served(dev, inode, bufs, spot, junk);
      r := Descend(inode.indirect[spot.level], spot.level, spot.x, junk);
    }
  }
}
