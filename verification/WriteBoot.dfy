/** Installing the boot loader: a contiguous file with the image, and a boot block
    that tells the console where it is (tools/e2writeboot.c:193-232). */
module WriteBoot {
  import opened Bits
  import opened Bitmap
  import opened Volume
  import opened Allocator
  import opened FileTree
  import opened FileMap
  import opened FileData
  import opened Fill
  import opened Truncate
  import opened BlockCache
  import opened BlockLog
  import opened BitStream
  import BlockBytes

  /** Half a block: what the console reads at a time. */
  const SECTOR_WORDS: nat := 128

  function Sector(disk: seq<Block>, s: nat): (r: seq<word>)
    requires s < 2 * |disk|
  {
    disk[s / 2][s % 2 * SECTOR_WORDS..s % 2 * SECTOR_WORDS + SECTOR_WORDS]
  }

  const TWO_31: int := 0x8000_0000
  const TWO_32: nat := 0x1_0000_0000
  const TWO_64: nat := 0x1_0000_0000_0000_0000

  /** `bs_start * blocksize` in a 32-bit `int`. */
  function Start32(first: nat): (r: int)
    ensures -TWO_31 <= r < TWO_31
  {
    Wrap32(first * 1024)
  }

  /** That divided by 512, rounding toward zero, in a 64-bit field. */
  function Lbn(first: nat): (r: nat)
    ensures r < TWO_64
  {
    var x := Start32(first);
    if -512 < x then (if x < 0 then 0 else x / 512) else TWO_64 - (-x) / 512
  }

  /** The field is right exactly for blocks in the first 2 GiB of the device. */
  lemma LbnRight(first: nat)
    requires first < TWO_31
    ensures Lbn(first) == 2 * first <==> first < 0x20_0000
  {
    assert first * 1024 == TWO_32 * (first / 0x40_0000) + (first % 0x40_0000) * 1024;
  }

  /** For any block: within each 4 GiB, the sector counted from their start for the first
      2 GiB, and a negative number for the others. */
  lemma LbnWraps(first: nat)
    ensures var r := first % 0x40_0000;
            Lbn(first) == if r < 0x20_0000 then 2 * r else TWO_64 - 2 * (0x40_0000 - r)
  {
    hide Wrap32;
    var k, r := first / 0x40_0000, first % 0x40_0000;
    assert first * 1024 == r * 1024 + k * 0x1_0000_0000;
    WrapShift(r * 1024, k);
    if r < 0x20_0000 {
      WrapSmall(r * 1024);
    } else {
      WrapShift(r * 1024 - 0x1_0000_0000, 1);
      WrapSmall(r * 1024 - 0x1_0000_0000);
    }
  }

  // ----- the boot block -----

  /** 64-bit value number `i` of a block, low word first. */
  function Quad(b: Block, i: nat): (r: nat)
    requires i < 128
    ensures r < TWO_64
  {
    b[2 * i] + TWO_32 * b[2 * i + 1]
  }

  function PutQuad(b: Block, i: nat, x: nat): (r: Block)
    requires i < 128 && x < TWO_64
    ensures Quad(r, i) == x
    ensures forall j :: 0 <= j < 128 && j != i ==> Quad(r, j) == Quad(b, j)
  {
    b[2 * i := x % TWO_32][2 * i + 1 := x / TWO_32]
  }

  /** The places of `count`, `lbn`, `flags` and `chk_sum` in `struct boot_block`. */
  const COUNT: nat := 60
  const LBN: nat := 61
  const FLAGS: nat := 62
  const CHKSUM: nat := 63

  /** In the bytes of the sector: `count` is at byte 480, and the others follow. */
  lemma FieldsAt(b: Block)
    ensures var s := BlockBytes.ToBytes(b);
            && Peek(s, 8 * 480, 64) == Quad(b, COUNT) && Peek(s, 8 * 488, 64) == Quad(b, LBN)
            && Peek(s, 8 * 496, 64) == Quad(b, FLAGS) && Peek(s, 8 * 504, 64) == Quad(b, CHKSUM)
  {
    hide Quad;
    QuadIs(b, COUNT);
    QuadIs(b, LBN);
    QuadIs(b, FLAGS);
    QuadIs(b, CHKSUM);
  }

  lemma QuadIs(b: Block, i: nat)
    requires i < 128
    ensures Peek(BlockBytes.ToBytes(b), 64 * i, 64) == Quad(b, i)
  {
    hide Peek, Pow2, BlockBytes.ToBytes;
    PeekJoin(BlockBytes.ToBytes(b), 64 * i, 32, 32);
    BlockBytes.WordsAre(b, 2 * i);
    BlockBytes.WordsAre(b, 2 * i + 1);
    WordPow();
  }

  /** The sum of the first `n` values, as 64-bit addition gives it. */
  function QuadSum(b: Block, n: nat): (r: nat)
    requires n <= 128
    ensures r < TWO_64
  {
    if n == 0 then 0 else (QuadSum(b, n - 1) + Quad(b, n - 1)) % TWO_64
  }

  lemma {:induction false} QuadSumSame(a: Block, b: Block, n: nat)
    requires n <= 128 && forall j :: 0 <= j < n ==> Quad(a, j) == Quad(b, j)
    ensures QuadSum(a, n) == QuadSum(b, n)
  {
    hide Quad;
    if n > 0 {
      QuadSumSame(a, b, n - 1);
    }
  }

  /** Lines 209-225. */
  method BootBlock(count: nat, lbn: nat) returns (b: Block)
    requires count < TWO_64 && lbn < TWO_64
    ensures Quad(b, COUNT) == count && Quad(b, LBN) == lbn && Quad(b, FLAGS) == 0
    ensures Quad(b, CHKSUM) == QuadSum(b, CHKSUM)
    ensures forall j :: 0 <= j < 128 && !(COUNT <= j <= CHKSUM) ==> Quad(b, j) == 0
  {
    hide PutQuad, QuadSum;
    b := ZeroBlock();
    assert forall j :: 0 <= j < 128 ==> Quad(b, j) == 0;
    b := PutQuad(b, COUNT, count);
    b := PutQuad(b, LBN, lbn);
    b := PutQuad(b, FLAGS, 0);
    var sum := Checksum(b);
    ghost var before := b;
    b := PutQuad(b, CHKSUM, sum);
    QuadSumSame(before, b, CHKSUM);
    SumStep(before);
  }

  lemma SumStep(b: Block)
    requires Quad(b, CHKSUM) == 0
    ensures QuadSum(b, CHKSUM + 1) == QuadSum(b, CHKSUM)
  {
    hide Quad;
  }

  method Checksum(b: Block) returns (sum: nat)
    ensures sum == QuadSum(b, CHKSUM + 1)
  {
    hide Quad;
    sum := 0;
    var i := 0;
    while i < 64
      invariant i <= 64 && sum == QuadSum(b, i)
    {
      sum := (sum + Quad(b, i)) % TWO_64;
      i := i + 1;
    }
  }

  // ----- the installation -----

  /** The image is in the blocks from `first` on. */
  ghost predicate Installed(disk: seq<Block>, first: nat, image: seq<Block>)
  {
    first + |image| <= |disk| && forall i :: 0 <= i < |image| ==> disk[first + i] == image[i]
  }

  /** Read sector by sector from there, the device gives the image. */
  lemma SectorsInstalled(disk: seq<Block>, first: nat, image: seq<Block>, t: nat)
    requires Installed(disk, first, image) && t < 2 * |image|
    ensures Sector(disk, 2 * first + t) == Sector(image, t)
  {
    assert (2 * first + t) / 2 == first + t / 2 && (2 * first + t) % 2 == t % 2;
  }

  /** The disk with the first `n` blocks of the image in their places. */
  function Overwritten(disk: seq<Block>, first: nat, image: seq<Block>, n: nat): (r: seq<Block>)
    requires n <= |image| && first + n <= |disk|
    ensures |r| == |disk| && forall b :: 0 <= b < |disk| ==> r[b] == if first <= b < first + n then image[b - first] else disk[b]
  {
    disk[..first] + image[..n] + disk[first + n..]
  }

  lemma OverwrittenNext(disk: seq<Block>, first: nat, image: seq<Block>, n: nat)
    requires n < |image| && first + n < |disk|
    ensures Overwritten(disk, first, image, n)[first + n := image[n]] == Overwritten(disk, first, image, n + 1)
    ensures Overwritten(disk, first, image, 0) == disk
  {
  }

  /** The first `n` blocks of the file are the run. */
  ghost predicate OnRun(v: Vol, root: seq<nat>, first: nat, n: nat)
  {
    |root| == NROOT && forall i :: 0 <= i < n ==> Lookup(v, root, i) == first + i
  }

  lemma OnRunAt(v: Vol, root: seq<nat>, first: nat, n: nat, i: nat)
    requires Tree(v, root) && OnRun(v, root, first, n) && i < n <= IND1LIM && first > 0
    ensures |root| == NROOT && Lookup(v, root, i) == first + i < |v.disk|
  {
    hide At, InUse, IsBitmap, PathOf;
    assert Lookup(v, root, i) == At(v.disk, root, PathOf(i));
    OwnedAt(v, root, PathOf(i));
  }

  lemma OnRunKept(v: Vol, root: seq<nat>, w: Vol, root': seq<nat>, first: nat, n: nat, i: nat, data: Block)
    requires OnRun(v, root, first, n) && first > 0 && Stored(v, root, w, root', i, data)
    ensures OnRun(w, root', first, n)
  {
    hide Lookup, Content;
  }

  /** Lines 199-206: the blocks of the file are written where the run is, and nothing
      else. */
  method WriteImage(fs: FileSystem, ip: Inode, first: nat, image: seq<Block>)
    requires Ok(fs.V()) && fs.Synced() && Tree(fs.V(), ip.block) && OnRun(fs.V(), ip.block, first, |image|)
    requires first > 0 && |image| <= IND1LIM && !fs.readonly && first + |image| <= |fs.disk|
    modifies fs, ip`block, ip`blocks
    ensures Ok(fs.V()) && fs.V() == old(fs.V()).(disk := Overwritten(old(fs.disk), first, image, |image|))
    ensures ip.block == old(ip.block) && ip.blocks == old(ip.blocks)
    ensures fs.Synced() && old(fs.used) <= fs.used
    ensures forall b :: first <= b < first + |image| ==> b in fs.used
    ensures |image| <= DIRECTLIM ==> fs.used == old(fs.used) + Run(first, |image|)
  {
    hide FileSystem.Synced, Ok, Tree, Lookup, Stored, SameFile, OthersKept, Stuck, OnRun, Wrote, Overwritten;
    ghost var v, root := fs.V(), ip.block;
    Untouched(v.disk, first, image);
    var i := 0;
    while i < |image|
      invariant i <= |image| && Ok(fs.V()) && fs.Synced() && Tree(fs.V(), ip.block)
      invariant OnRun(fs.V(), ip.block, first, |image|)
      invariant fs.V() == v.(disk := Overwritten(v.disk, first, image, i)) && ip.block == root && ip.blocks == old(ip.blocks)
      invariant old(fs.used) <= fs.used
      invariant forall b :: first <= b < first + i ==> b in fs.used
      invariant |image| <= DIRECTLIM ==> fs.used == old(fs.used) + Run(first, i)
    {
      ghost var w, blocks := fs.V(), ip.blocks;
      OnRunAt(w, root, first, |image|, i);
      DirectLookup(w, root, i);
      ghost var stored := Bwrite(fs, ip, i, image[i]);
      WroteMapped(w, root, fs.V(), ip.block, i, image[i], stored, blocks, ip.blocks);
      OnRunKept(w, root, fs.V(), ip.block, first, |image|, i, image[i]);
      OnRunAt(fs.V(), root, first, |image|, i);
      OverwrittenNext(v.disk, first, image, i);
      i := i + 1;
    }
  }

  lemma Untouched(disk: seq<Block>, first: nat, image: seq<Block>)
    requires first <= |disk|
    ensures Overwritten(disk, first, image, 0) == disk
  {
  }

  /** What the console finds. */
  ghost predicate Bootable(disk: seq<Block>, first: nat, image: seq<Block>)
  {
    && |disk| > 0 && Installed(disk, first, image)
    && Quad(disk[0], COUNT) == 2 * |image| && Quad(disk[0], LBN) == Lbn(first)
    && Quad(disk[0], CHKSUM) == QuadSum(disk[0], CHKSUM)
  }

  /** `NoRoom` and `LostRun` are the failures of `ext2_fill_contiguous`, `NullSlot` is
      `bwrite` copying the boot block to a null pointer. */
  datatype Result = NoRoom | LostRun | NullSlot(first: nat) | Done(first: nat)

  /** A boot block with these fields, and zeros elsewhere. */
  ghost predicate IsBoot(b: Block, count: nat, lbn: nat)
  {
    && Quad(b, COUNT) == count && Quad(b, LBN) == lbn && Quad(b, FLAGS) == 0
    && Quad(b, CHKSUM) == QuadSum(b, CHKSUM)
    && forall j :: 0 <= j < 128 && !(COUNT <= j <= CHKSUM) ==> Quad(b, j) == 0
  }

  /** The file was given its run in `w`; then the image was written there, and nothing
      else. */
  ghost predicate Placed(v: Vol, root: seq<nat>, w: Vol, root': seq<nat>, x: Vol, first: nat, image: seq<Block>)
  {
    && Shape(v) && FirstRun(v, |image|, first) && FilledOk(v, root, w, root', first, |image|)
    && first > 0 && first + |image| <= |w.disk| && x == w.(disk := Overwritten(w.disk, first, image, |image|))
  }

  /** Lines 193-232 for an empty file: fill, write, and write the boot block.  That goes
      through if and only if 32 different blocks have been used by then.  `w` is the volume
      when the file has its blocks, and `x` when they are written. */
  method Install(fs: FileSystem, ip: Inode, image: seq<Block>) returns (r: Result, ghost w: Vol, ghost x: Vol)
    requires Ok(fs.V()) && fs.Synced() && ip.block == NoBlocks() && |fs.disk| > 0
    modifies fs, ip
    ensures r.NoRoom? <==> |image| > IND1LIM || fs.readonly || Cramped(old(fs.V()), |image|)
    ensures r.NoRoom? ==> fs.V() == old(fs.V()) && ip.block == old(ip.block) && ip.blocks == old(ip.blocks) && ip.size == old(ip.size)
    ensures r.LostRun? ==> |image| > DIRECTLIM && Leaked(old(fs.V()), fs.V(), |image|)
    ensures r.LostRun? ==> ip.block == old(ip.block) && ip.blocks == 2 * |image| && ip.size == old(ip.size)
    ensures r.Done? || r.NullSlot? ==> Placed(old(fs.V()), old(ip.block), w, ip.block, x, r.first, image)
    ensures r.Done? || r.NullSlot? ==>
              ip.size == |image| * 1024 && ip.blocks == 2 * |image| + if |image| > DIRECTLIM then 2 else 0
    ensures r.NullSlot? ==> fs.V() == x
    ensures r.Done? ==>
              && |fs.disk| == |x.disk| > 0 && fs.V() == x.(disk := x.disk[0 := fs.disk[0]])
              && IsBoot(fs.disk[0], 2 * |image|, Lbn(r.first))
    ensures r.Done? ==> Ok(fs.V()) && fs.Tracked() && Safe(fs.log, [])
    ensures r.Done? ==> Bootable(fs.disk, r.first, image)
    ensures r.Done? ==> forall b :: r.first <= b < r.first + |image| ==> b in fs.used
    ensures r.NullSlot? ==> fs.Synced() && forall bb :: !Safe(fs.log + [Op.Write(0, bb)], [])
    ensures |image| >= NBUFS - 1 ==> !r.NullSlot?
    ensures |image| <= DIRECTLIM && |old(fs.used)| + |old(fs.groups)| + |image| < NBUFS ==> !r.Done?
  {
    hide FileSystem.Synced, Ok, Tree, Installed, Cramped, Quad, QuadSum, Leaked, OnRun, FilledOk, Shape, IsBitmap, Run,
         Safe, Tracks, Touched, FirstRun, Overwritten;
    ghost var v, root := fs.V(), ip.block;
    OkShape(v);
    var filled := FillContiguous(fs, ip, |image|);
    w, x := fs.V(), fs.V();
    if !filled.Filled? {
      return if filled.Failed? then NoRoom else LostRun, w, x;
    }
    var first := filled.first;
    ghost var used := fs.used;
    FilledStart(v, root, w, ip.block, first, image);
    WriteImage(fs, ip, first, image);
    x := fs.V();
    ManyUsed(v, root, w, first, image, fs.used);
    if |image| <= DIRECTLIM {
      FewUsed(v, old(fs.used), used, first, |image|);
    }
    OverwrittenInstalled(w.disk, first, image);
    var bb := BootBlock(2 * |image|, Lbn(first));
    BootSafe(fs);
    if |fs.used| < NBUFS {
      return NullSlot(first), w, x;
    }
    BootKeeps(fs.V(), first, image, bb);
    fs.WriteBlock(0, bb);
    return Done(first), w, x;
  }

  lemma OverwrittenInstalled(disk: seq<Block>, first: nat, image: seq<Block>)
    requires first + |image| <= |disk|
    ensures Installed(Overwritten(disk, first, image, |image|), first, image)
  {
  }

  lemma BootSafe(fs: FileSystem)
    requires fs.Synced()
    ensures forall bb :: Safe(fs.log + [Op.Write(0, bb)], []) <==> |fs.used| >= NBUFS
  {
    hide Tracks, Touched, Safe;
    forall bb
      ensures Safe(fs.log + [Op.Write(0, bb)], []) <==> |fs.used| >= NBUFS
    {
      SafeBoot(fs.log, bb);
    }
  }

  /** The blocks of the image and a bitmap. */
  lemma ManyUsed(v: Vol, root: seq<nat>, w: Vol, first: nat, image: seq<Block>, used: set<nat>)
    requires Ok(v) && (exists root' :: FilledOk(v, root, w, root', first, |image|))
    requires forall b :: first <= b < first + |image| ==> b in used
    requires exists b :: b in used && IsBitmap(w, b)
    ensures |used| >= |image| + 1
  {
    hide Ok, Lookup, Tree, InUse, IsBitmap, Shape;
    var root' :| FilledOk(v, root, w, root', first, |image|);
    var s := FilledSet(first, |image|, if |image| > DIRECTLIM then root'[IND] else 0);
    var b :| b in used && IsBitmap(w, b);
    SameBitmaps(v, w);
    BitmapInUse(v, b);
    assert b !in s;
    Smaller(Run(first, |image|) + {b}, used);
  }

  lemma BitmapInUse(v: Vol, b: nat)
    requires Ok(v) && IsBitmap(v, b)
    ensures Shape(v) && InUse(v, b)
  {
    hide InUse, Padded, Counted;
  }

  lemma Smaller(a: set<nat>, b: set<nat>)
    requires a <= b
    ensures |a| <= |b|
  {
    assert b == a + (b - a);
  }

  lemma FewUsed(v: Vol, before: set<nat>, used: set<nat>, first: nat, n: nat)
    requires before <= used && forall b :: b in used && b !in before ==> IsBitmap(v, b)
    ensures |used + Run(first, n)| <= |before| + |v.groups| + n
  {
    hide Run;
    Smaller(used + Run(first, n), before + BitmapSet(v.groups) + Run(first, n));
  }

  lemma FilledStart(v: Vol, root: seq<nat>, w: Vol, root': seq<nat>, first: nat, image: seq<Block>)
    requires Ok(v) && FilledOk(v, root, w, root', first, |image|) && root == NoBlocks() && first > 0 && |image| <= IND1LIM
    requires FirstRun(v, |image|, first)
    ensures Ok(w) && Tree(w, root') && OnRun(w, root', first, |image|) && |w.disk| == |v.disk| && first + |image| <= |w.disk|
  {
    hide Ok, Tree, Lookup, Took, FirstRun;
    if |image| > 0 {
      OnRunAt(w, root', first, |image|, |image| - 1);
    } else {
      FirstRunFits(v, first);
    }
  }

  /** A run of no blocks is also at a block of the device. */
  lemma FirstRunFits(v: Vol, first: nat)
    requires Ok(v) && FirstRun(v, 0, first)
    ensures first < |v.disk|
  {
    hide Padded, Counted, Used, ZeroRun, NoRun, TooSmall, InUse, BlockNo, GroupOf, BitOf, IsBitmap, Bm;
    var g, i := GroupOf(v.bpg, first), BitOf(v.bpg, first);
    BlockNoOnly(v.bpg, g, i, first);
    ZeroRunFree(Bm(v, g), i / WORD_BITS, Needed(0), i);
    FreeBit(v, g, i);
  }

  /** Block 0 is nobody's. */
  lemma BootKeeps(w: Vol, first: nat, image: seq<Block>, bb: Block)
    requires Ok(w) && first > 0 && |w.disk| > 0
    ensures Ok(w.(disk := w.disk[0 := bb]))
    ensures Installed(w.disk, first, image) ==> Installed(w.disk[0 := bb], first, image)
  {
    hide Padded, Counted, InUse;
    OkElsewhere(w, w.(disk := w.disk[0 := bb]));
  }

  /** Lines 124-126 and 193-232: the file exists, so its blocks are freed first, which
      gives `u`. */
  method Reinstall(fs: FileSystem, ip: Inode, image: seq<Block>) returns (r: Result, ghost u: Vol, ghost w: Vol, ghost x: Vol)
    requires Ok(fs.V()) && fs.Synced() && Tree(fs.V(), ip.block) && |fs.disk| > 0
    modifies fs, ip
    ensures |old(ip.block)| == NROOT && Ok(u) && Shape(u) && Claimed(u, old(fs.V()), Reach(old(fs.disk), old(ip.block), NROOT))
    ensures r.NoRoom? <==> |image| > IND1LIM || fs.readonly || Cramped(u, |image|)
    ensures r.NoRoom? ==> fs.V() == u && ip.block == NoBlocks() && ip.blocks == old(ip.blocks) && ip.size == 0
    ensures r.LostRun? ==> |image| > DIRECTLIM && Leaked(u, fs.V(), |image|)
    ensures r.LostRun? ==> ip.block == NoBlocks() && ip.blocks == 2 * |image| && ip.size == 0
    ensures r.Done? || r.NullSlot? ==> Placed(u, NoBlocks(), w, ip.block, x, r.first, image)
    ensures r.Done? || r.NullSlot? ==>
              ip.size == |image| * 1024 && ip.blocks == 2 * |image| + if |image| > DIRECTLIM then 2 else 0
    ensures r.NullSlot? ==> fs.V() == x
    ensures r.Done? ==>
              && |fs.disk| == |x.disk| > 0 && fs.V() == x.(disk := x.disk[0 := fs.disk[0]])
              && IsBoot(fs.disk[0], 2 * |image|, Lbn(r.first))
    ensures r.Done? ==> Ok(fs.V()) && fs.Tracked() && Safe(fs.log, [])
    ensures r.Done? ==> Bootable(fs.disk, r.first, image)
    ensures r.Done? ==> forall b :: r.first <= b < r.first + |image| ==> b in fs.used
    ensures r.NullSlot? ==> fs.Synced() && forall bb :: !Safe(fs.log + [Op.Write(0, bb)], [])
    ensures |image| >= NBUFS - 1 ==> !r.NullSlot?
  {
    hide FileSystem.Synced, FileSystem.Tracked, Ok, Tree, Bootable, Cramped, Claimed, Reach, Safe, Placed, IsBoot, Leaked;
    ghost var v := fs.V();
    TruncateFile(fs, ip);
    u := fs.V();
    OkShape(u);
    ClaimedSize(u, v, Reach(old(fs.disk), old(ip.block), NROOT));
    assert ip.block == NoBlocks();
    r, w, x := Install(fs, ip, image);
  }

  /** Half a block of the device. */
  function DeviceSector(device: map<nat, Block>, s: nat): (r: seq<word>)
    requires s / 2 in device
  {
    device[s / 2][s % 2 * SECTOR_WORDS..s % 2 * SECTOR_WORDS + SECTOR_WORDS]
  }

  /** What the console gets when it reads `count` sectors from `lbn` on, as the boot block
      says, is the image. */
  ghost predicate Boots(device: map<nat, Block>, image: seq<Block>)
  {
    && 0 in device && Quad(device[0], COUNT) == 2 * |image|
    && Quad(device[0], CHKSUM) == QuadSum(device[0], CHKSUM)
    && forall t :: 0 <= t < 2 * |image| ==>
                     (Quad(device[0], LBN) + t) / 2 in device && DeviceSector(device, Quad(device[0], LBN) + t) == Sector(image, t)
  }

  /** A device with all that the cache shows boots the image, if the run begins in the
      first 2 GiB. */
  lemma ConsoleReads(disk: seq<Block>, first: nat, image: seq<Block>)
    requires Bootable(disk, first, image) && first < 0x20_0000
    ensures Boots(AsMap(disk), image)
  {
    hide Quad, QuadSum, Lbn, Sector;
    LbnRight(first);
    forall t | 0 <= t < 2 * |image|
      ensures (2 * first + t) / 2 in AsMap(disk) && DeviceSector(AsMap(disk), 2 * first + t) == Sector(image, t)
    {
      SectorsInstalled(disk, first, image, t);
      SectorOf(disk, 2 * first + t);
    }
  }

  lemma SectorOf(disk: seq<Block>, s: nat)
    requires s < 2 * |disk|
    ensures s / 2 in AsMap(disk) && DeviceSector(AsMap(disk), s) == Sector(disk, s)
  {
  }

  /** The calls that an installation made, made to a cache over the device as it was, and
      the flush at the end.  Every block gets to its place if and only if all blocks used
      lie in the first 2 GiB; then the device is what the cache showed, and boots.  If the
      image reaches beyond, what is there stays as it was. */
  method Commit(cache: Cache<Block>, fs: FileSystem, calls: seq<Op<Block>>, junk: Block, ghost first: nat, ghost image: seq<Block>)
    returns (out: Outcome)
    requires cache.Valid() && cache.view == AsMap(fs.start) && cache.Recent() == [] && cache.used == {} && cache.bs == 1024
    requires calls == fs.log && fs.Tracked() && Safe(calls, []) && Bootable(fs.disk, first, image) && |image| > 0
    requires first in fs.used
    modifies cache, cache.buflist
    ensures out == Fine && cache.Placed() <==> forall b :: b in fs.used ==> b < 0x20_0000
    ensures out == Fine && cache.Placed() ==> cache.device == AsMap(fs.disk) && Boots(cache.device, image)
    ensures out == Fine ==> forall b :: b >= 0x20_0000 ==>
              (b in cache.device <==> b in cache.device0) && (b in cache.device ==> cache.device[b] == cache.device0[b])
  {
    hide Safe, Tracks, Touched, Cache.Valid, Cache.Recent, Quad, QuadSum, Lbn, Bootable, Boots;
    out := Perform(cache, calls, junk, fs.start, fs.disk);
    assert forall b: nat :: Near(b, 1024) <==> b < 0x20_0000;
    if out == Fine && cache.Placed() {
      ConsoleReads(fs.disk, first, image);
    }
  }

  lemma ClaimedSize(w: Vol, v: Vol, s: set<nat>)
    requires Claimed(w, v, s)
    ensures |w.disk| == |v.disk|
  {
  }
}
