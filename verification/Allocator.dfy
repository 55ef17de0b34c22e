/** Allocating and freeing blocks (tools/e2lib.c:330-483). */
module Allocator {
  import opened Bits
  import opened Bitmap
  import opened Volume
  import BlockCache
  import opened BlockLog

  /** `ext2_balloc` passes over a group whose free count is zero, and over one whose
      first block is free: it takes bit 0 for a failed search. */
  ghost predicate PassedOver(v: Vol, g: nat)
    requires Shape(v) && g < |v.groups|
  {
    v.groups[g].free <= 0 || !Used(Bm(v, g), 0)
  }

  ghost predicate Stuck(v: Vol)
    requires Shape(v)
  {
    forall g :: 0 <= g < |v.groups| ==> PassedOver(v, g)
  }

  /** The block that `ext2_balloc` picks. */
  ghost predicate FirstFree(v: Vol, b: nat)
    requires Shape(v)
  {
    && b > 0
    && var g, i := GroupOf(v.bpg, b), BitOf(v.bpg, b);
       && g < |v.groups|
       && (forall h :: 0 <= h < g ==> PassedOver(v, h))
       && !PassedOver(v, g) && !Used(Bm(v, g), i) && forall j :: 0 <= j < i ==> Used(Bm(v, g), j)
  }

  /** The blocks `first`, ..., `first + n - 1`. */
  function Run(first: nat, n: nat): (r: set<nat>)
    ensures |r| == n && forall b :: b in r <==> first <= b < first + n
  {
    if n == 0 then {} else Run(first, n - 1) + {first + n - 1}
  }

  // ----- runs of empty words -----

  predicate ZeroRun(bm: Block, f: nat, n: nat)
    requires f + n <= WORDS
  {
    forall j :: f <= j < f + n ==> bm[j] == 0
  }

  /** No `n` empty words in a row among the first `lpg`, starting before `to`. */
  ghost predicate NoRun(bm: Block, lpg: nat, n: nat, to: nat)
    requires lpg <= WORDS
  {
    forall f :: 0 <= f < to && f + n <= lpg ==> !ZeroRun(bm, f, n)
  }

  /** The block that `ext2_contiguous_balloc` picks: the first run of the first group that
      has one. */
  ghost predicate FirstRun(v: Vol, nblocks: nat, b: nat)
    requires Shape(v)
  {
    && b > 0
    && var g, i := GroupOf(v.bpg, b), BitOf(v.bpg, b);
       && g < |v.groups|
       && (forall h :: 0 <= h < g ==> TooSmall(v, h, nblocks))
       && i % WORD_BITS == 0 && i / WORD_BITS + Needed(nblocks) <= v.bpg / WORD_BITS
       && ZeroRun(Bm(v, g), i / WORD_BITS, Needed(nblocks))
       && NoRun(Bm(v, g), v.bpg / WORD_BITS, Needed(nblocks), i / WORD_BITS)
  }

  lemma RunPicked(v: Vol, g: nat, nblocks: nat, first: nat)
    requires Shape(v) && g < |v.groups| && first + Needed(nblocks) <= v.bpg / WORD_BITS
    requires forall h :: 0 <= h < g ==> TooSmall(v, h, nblocks)
    requires ZeroRun(Bm(v, g), first, Needed(nblocks)) && NoRun(Bm(v, g), v.bpg / WORD_BITS, Needed(nblocks), first)
    ensures FirstRun(v, nblocks, BlockNo(v.bpg, g, first * WORD_BITS))
  {
    hide BlockNo, GroupOf, BitOf, ZeroRun, NoRun, TooSmall, Needed, Bm;
    BlockNoInverse(v.bpg, g, first * WORD_BITS);
  }

  /** Requests are served in whole words, at least one. */
  function Needed(nblocks: nat): (r: nat)
    ensures r >= 1 && nblocks <= r * WORD_BITS && (r > 1 ==> (r - 1) * WORD_BITS < nblocks)
  {
    var n := (nblocks + WORD_BITS - 1) / WORD_BITS;
    if n == 0 then 1 else n
  }

  /** Lines 421-453. */
  method FindRun(bm: Block, lpg: nat, needed: nat) returns (first: nat)
    requires lpg <= WORDS
    ensures first <= lpg
    ensures var n := if needed == 0 then 1 else needed;
            NoRun(bm, lpg, n, first) && (first < lpg ==> first + n <= lpg && ZeroRun(bm, first, n))
  {
    first := 0;
    ghost var n := if needed == 0 then 1 else needed;
    while true
      invariant first <= lpg && NoRun(bm, lpg, n, first)
      decreases lpg - first
    {
      while first < lpg && bm[first] != 0
        invariant first <= lpg && NoRun(bm, lpg, n, first)
      {
        assert !ZeroRun(bm, first, 1);
        assert forall k :: k >= 1 && first + k <= WORDS ==> !ZeroRun(bm, first, k);
        first := first + 1;
      }
      if first == lpg {
        return;
      }
      var last := first;
      while last < lpg && bm[last] == 0
        invariant first <= last <= lpg && forall j :: first <= j < last ==> bm[j] == 0
      {
        last := last + 1;
      }
      if last - first >= needed {
        return;
      }
      forall f | first <= f < last && f + n <= lpg
        ensures !ZeroRun(bm, f, n)
      {
        assert bm[last] != 0;
      }
      first := last;
    }
  }

  lemma ZeroRunFree(bm: Block, f: nat, n: nat, i: nat)
    requires f + n <= WORDS && ZeroRun(bm, f, n) && f * WORD_BITS <= i < (f + n) * WORD_BITS
    ensures !Used(bm, i)
  {
    hide Bit;
    ZeroBits(i % WORD_BITS);
  }

  class FileSystem {
    const bpg: nat
    const readonly: bool
    var disk: seq<Block>
    var groups: seq<Group>
    var free: int
    /** The blocks as they were when the cache was initialised, the calls made to it
        since, and the blocks that these were for. */
    ghost const start: seq<Block>
    ghost var log: seq<BlockCache.Op<Block>>
    var used: set<nat>

    ghost function V(): (r: Vol)
      reads this
    {
      Vol(bpg, groups, disk, free)
    }

    /** The blocks here are what the cache shows after these calls. */
    ghost predicate Tracked()
      reads this`disk, this`log, this`used
    {
      Tracks(log, start, disk) && used == BlockCache.Touched(log)
    }

    /** Nor has block 0 been used yet. */
    ghost predicate Synced()
      reads this`disk, this`log, this`used
    {
      Tracked() && 0 !in used
    }

    constructor (v: Vol, ro: bool)
      ensures V() == v && readonly == ro && Synced() && log == []
    {
      bpg, readonly := v.bpg, ro;
      disk, groups, free := v.disk, v.groups, v.free;
      start, log, used := v.disk, [], {};
    }

    /** `bread`. */
    method ReadBlock(b: nat) returns (x: Block)
      requires Synced() && 0 < b < |disk|
      modifies this`log, this`used
      ensures Synced() && x == disk[b] && used == old(used) + {b}
    {
      hide Tracks, BlockCache.Touched;
      LogRead(log, start, disk, b);
      log := log + [BlockCache.Op<Block>.Read(b)];
      used := used + {b};
      x := disk[b];
    }

    /** `bwrite`. */
    method WriteBlock(b: nat, x: Block)
      requires Synced() && b < |disk|
      modifies this`disk, this`log, this`used
      ensures Tracked() && (b > 0 ==> Synced()) && disk == old(disk)[b := x] && used == old(used) + {b}
      ensures log == old(log) + [BlockCache.Op.Write(b, x)]
    {
      hide Tracks, BlockCache.Touched;
      LogWrite(log, start, disk, b, x);
      log := log + [BlockCache.Op.Write(b, x)];
      disk := disk[b := x];
      used := used + {b};
    }

    /** `ext2_balloc`. */
    method Balloc() returns (r: nat)
      requires Ok(V()) && Synced()
      modifies this
      ensures Ok(V()) && Synced()
      ensures r == 0 <==> readonly || Stuck(old(V()))
      ensures r == 0 ==> V() == old(V())
      ensures r != 0 ==> FirstFree(old(V()), r) && Claimed(old(V()), V(), {r})
      ensures old(used) <= used && forall b :: b in used && b !in old(used) ==> IsBitmap(old(V()), b)
    {
      hide Synced, IsBitmap, Ok, Claimed, BlockNo, Used, PassedOver, FirstFree, Put, Scanned;
      if readonly {
        return 0;
      }
      var i := 0;
      ghost var v := V();
      OkShape(v);
      while i < |groups|
        invariant i <= |groups| && V() == v && Synced()
        invariant forall h :: 0 <= h < i ==> PassedOver(v, h)
        invariant old(used) <= used && forall b :: b in used && b !in old(used) ==> IsBitmap(v, b)
      {
        Passed(v, i);
        if groups[i].free > 0 {
          BitmapOf(v, i);
          var bm := ReadBlock(groups[i].bitmap);
          var blk := FindFirstZero(bm, bpg);
          ZeroFound(v, i, blk);
          if blk != 0 && blk != bpg {
            Take(v, i, blk);
            Picked(v, i, blk);
            WriteBlock(groups[i].bitmap, Put(bm, blk, 1));
            groups := groups[i := groups[i].(free := groups[i].free - 1)];
            free := free - 1;
            return BlockNo(bpg, i, blk);
          }
        }
        i := i + 1;
      }
      return 0;
    }

    /** `ext2_bfree`.  The group is found by unsigned 32-bit arithmetic; for block 0
        it comes out far beyond the table of groups, and then `ok` is false. */
    method Bfree(blk: nat) returns (ok: bool)
      requires Shape(V()) && Synced()
      modifies this
      ensures ok <==> blk > 0 && GroupOf(bpg, blk) < old(|groups|)
      ensures ok ==> V() == Flip(old(V()), GroupOf(bpg, blk), BitOf(bpg, blk), 0)
      ensures !ok ==> V() == old(V())
      ensures Synced() && old(used) <= used
    {
      hide Synced, Put, Used, IsBitmap, GroupIndex, GroupOf, BitOf;
      var g := GroupIndex(bpg, blk);
      IndexIsGroup(V(), blk);
      if g >= |groups| {
        return false;
      }
      var bm := ReadBlock(groups[g].bitmap);
      WriteBlock(groups[g].bitmap, Put(bm, BitOf(bpg, blk), 0));
      groups := groups[g := groups[g].(free := groups[g].free + 1)];
      free := free + 1;
      return true;
    }

    /** `ext2_bfree` of a block that is in use: it alone is given back. */
    method Release(blk: nat) returns (ok: bool)
      requires Ok(V()) && Synced() && 0 < blk < |disk| && InUse(V(), blk) && !IsBitmap(V(), blk)
      modifies this
      ensures ok && Ok(V()) && Synced() && Claimed(V(), old(V()), {blk})
    {
      hide Synced, Shape, Padded, Counted, Claimed, InUse, Flip, Used;
      GiveBack(V(), blk);
      ok := Bfree(blk);
    }

    /** `ext2_contiguous_balloc`. */
    method ContiguousBalloc(nblocks: nat) returns (r: nat)
      requires Ok(V()) && Synced()
      modifies this
      ensures Ok(V()) && Synced()
      ensures r == 0 <==> readonly || Cramped(old(V()), nblocks)
      ensures r == 0 ==> V() == old(V())
      ensures r != 0 ==> FirstRun(old(V()), nblocks, r) && Claimed(old(V()), V(), Run(r, nblocks))
      ensures r != 0 ==> exists b :: b in used && IsBitmap(V(), b)
      ensures old(used) <= used && forall b :: b in used && b !in old(used) ==> IsBitmap(old(V()), b)
    {
      hide Synced, IsBitmap, Ok, Claimed, BlockNo, ZeroRun, NoRun, Run, TooSmall, FirstRun;
      if readonly {
        return 0;
      }
      var needed := (nblocks + WORD_BITS - 1) / WORD_BITS;
      var lpg := bpg / WORD_BITS;
      var i := 0;
      ghost var v := V();
      OkShape(v);
      while i < |groups|
        invariant i <= |groups| && V() == v && Synced()
        invariant forall h :: 0 <= h < i ==> TooSmall(v, h, nblocks)
        invariant old(used) <= used && forall b :: b in used && b !in old(used) ==> IsBitmap(v, b)
      {
        if groups[i].free < nblocks {
          NotEnough(v, i, nblocks);
        } else {
          BitmapOf(v, i);
          var bm := ReadBlock(groups[i].bitmap);
          var first := FindRun(bm, lpg, needed);
          Judged(v, i, nblocks, first);
          if first != lpg {
            RunPicked(v, i, nblocks, first);
            ClaimRun(i, bm, first, nblocks);
            OkShape(V());
            BitmapOf(V(), i);
            return BlockNo(bpg, i, first * WORD_BITS);
          }
        }
        i := i + 1;
      }
      return 0;
    }

    /** Lines 455-468: set the bits one by one, write the bitmap, adjust the counts. */
    method ClaimRun(g: nat, bm0: Block, first: nat, nblocks: nat)
      requires Ok(V()) && Synced() && g < |groups| && first + Needed(nblocks) <= bpg / WORD_BITS
      requires ZeroRun(Bm(V(), g), first, Needed(nblocks)) && bm0 == Bm(V(), g)
      modifies this
      ensures |groups| == old(|groups|) && groups[g].bitmap == old(groups[g].bitmap) && used == old(used) + {groups[g].bitmap}
      ensures Ok(V()) && Synced() && Claimed(old(V()), V(), Run(BlockNo(bpg, g, first * WORD_BITS), nblocks))
    {
      hide Synced, Ok, Claimed, BlockNo, ZeroRun, Run, IsBitmap;
      ghost var v := V();
      OkShape(v);
      BitmapOf(v, g);
      var bm := SetRun(bm0, first, nblocks, v, g);
      WriteBlock(groups[g].bitmap, bm);
      groups := groups[g := groups[g].(free := groups[g].free - nblocks)];
      free := free - nblocks;
      assert V() == WithMap(v, g, bm, nblocks);
    }
  }

  /** Lines 459-462: set the bits of a run in the buffer. */
  method SetRun(bm0: Block, first: nat, nblocks: nat, ghost v: Vol, ghost g: nat) returns (bm: Block)
    requires Ok(v) && Shape(v) && g < |v.groups| && first + Needed(nblocks) <= v.bpg / WORD_BITS
    requires ZeroRun(Bm(v, g), first, Needed(nblocks)) && bm0 == Bm(v, g)
    ensures Partly(v, g, BlockNo(v.bpg, g, first * WORD_BITS), bm, nblocks)
  {
    hide Ok, Claimed, BlockNo, ZeroRun, Run, Put, Used, IsBitmap, Partly;
    var blk: nat := first * WORD_BITS;
    bm := bm0;
    var j := 0;
    ClaimedNone(v);
    PartlyNone(v, g, BlockNo(v.bpg, g, blk));
    while j < nblocks
      invariant j <= nblocks
      invariant Partly(v, g, BlockNo(v.bpg, g, blk), bm, j)
      invariant forall k :: blk + j <= k < v.bpg ==> (Used(bm, k) <==> Used(Bm(v, g), k))
    {
      ZeroRunFree(Bm(v, g), first, Needed(nblocks), blk + j);
      PartlyNext(v, g, blk, bm, j);
      bm := Put(bm, blk + j, 1);
      j := j + 1;
    }
  }

  /** `v` with bitmap `bm` in group `g` and the counts lower by `n`. */
  ghost function WithMap(v: Vol, g: nat, bm: Block, n: nat): (r: Vol)
    requires Shape(v) && g < |v.groups|
  {
    v.(disk := v.disk[v.groups[g].bitmap := bm],
       groups := v.groups[g := v.groups[g].(free := v.groups[g].free - n)],
       free := v.free - n)
  }

  /** With `j` bits set the buffer is what taking `j` blocks would have made. */
  ghost predicate Partly(v: Vol, g: nat, start: nat, bm: Block, j: nat)
    requires Shape(v) && g < |v.groups|
  {
    Ok(WithMap(v, g, bm, j)) && Claimed(v, WithMap(v, g, bm, j), Run(start, j))
  }

  lemma PartlyNone(v: Vol, g: nat, start: nat)
    requires Ok(v) && g < |v.groups|
    ensures Partly(v, g, start, Bm(v, g), 0)
  {
    hide InUse, IsBitmap, Padded, Counted;
    assert WithMap(v, g, Bm(v, g), 0) == v;
    ClaimedNone(v);
  }

  lemma PartlyNext(v: Vol, g: nat, blk: nat, bm: Block, j: nat)
    requires Ok(v) && g < |v.groups| && blk + j < v.bpg && !Used(bm, blk + j)
    requires Partly(v, g, BlockNo(v.bpg, g, blk), bm, j)
    ensures Partly(v, g, BlockNo(v.bpg, g, blk), Put(bm, blk + j, 1), j + 1)
  {
    hide Padded, Counted, InUse, Used, IsBitmap, Claimed, Put;
    var w := WithMap(v, g, bm, j);
    Take(w, g, blk + j);
    ClaimedMore(v, w, Flip(w, g, blk + j, 1), Run(BlockNo(v.bpg, g, blk), j), {BlockNo(v.bpg, g, blk + j)});
    assert Flip(w, g, blk + j, 1) == WithMap(v, g, Put(bm, blk + j, 1), j + 1);
    assert Run(BlockNo(v.bpg, g, blk), j + 1) == Run(BlockNo(v.bpg, g, blk), j) + {BlockNo(v.bpg, g, blk + j)};
  }

  lemma BitmapOf(v: Vol, g: nat)
    requires Shape(v) && g < |v.groups|
    ensures 0 < v.groups[g].bitmap < |v.disk| && IsBitmap(v, v.groups[g].bitmap)
  {
  }

  lemma OkShape(v: Vol)
    requires Ok(v)
    ensures Shape(v)
  {
  }

  lemma NotEnough(v: Vol, g: nat, nblocks: nat)
    requires Shape(v) && g < |v.groups| && v.groups[g].free < nblocks
    ensures TooSmall(v, g, nblocks)
  {
  }

  lemma Judged(v: Vol, g: nat, nblocks: nat, first: nat)
    requires Shape(v) && g < |v.groups| && v.groups[g].free >= nblocks
    requires var lpg := v.bpg / WORD_BITS;
             var n := Needed(nblocks);
             first <= lpg && NoRun(Bm(v, g), lpg, n, first) && (first < lpg ==> first + n <= lpg && ZeroRun(Bm(v, g), first, n))
    ensures TooSmall(v, g, nblocks) <==> first == v.bpg / WORD_BITS
  {
    hide ZeroRun;
  }

  ghost predicate TooSmall(v: Vol, g: nat, nblocks: nat)
    requires Shape(v) && g < |v.groups|
  {
    v.groups[g].free < nblocks || NoRun(Bm(v, g), v.bpg / WORD_BITS, Needed(nblocks), v.bpg / WORD_BITS)
  }

  /** No group has both the free count and the empty words. */
  ghost predicate Cramped(v: Vol, nblocks: nat)
    requires Shape(v)
  {
    forall g :: 0 <= g < |v.groups| ==> TooSmall(v, g, nblocks)
  }

  /** `(blk - 1) / sb.s_blocks_per_group` in unsigned 32-bit arithmetic. */
  function GroupIndex(bpg: nat, blk: nat): (r: nat)
    requires bpg > 0
  {
    if blk == 0 then 0xffff_ffff / bpg else GroupOf(bpg, blk)
  }

  lemma IndexIsGroup(v: Vol, blk: nat)
    requires Shape(v)
    ensures blk == 0 ==> GroupIndex(v.bpg, blk) >= |v.groups|
    ensures blk > 0 ==> GroupIndex(v.bpg, blk) == GroupOf(v.bpg, blk)
  {
    hide GroupOf, IsBitmap;
    if blk == 0 {
      var g := 0xffff_ffff / v.bpg;
      BlockDiv(0xffff_ffff, v.bpg, g);
      FarGroup(v.bpg, |v.groups|, g);
    }
  }

  lemma FarGroup(bpg: nat, n: nat, g: nat)
    requires 0 < bpg && n * bpg < 0x8000_0000 && 0xffff_ffff < g * bpg + bpg && bpg <= MAP_BITS
    ensures n <= g
  {
    if g < n {
      MulMono(bpg, g + 1, n);
    }
  }

  lemma Passed(v: Vol, g: nat)
    requires Shape(v) && g < |v.groups|
    ensures PassedOver(v, g) <==> v.groups[g].free <= 0 || !Used(Bm(v, g), 0)
  {
  }

  lemma Picked(v: Vol, g: nat, i: nat)
    requires Shape(v) && g < |v.groups| && 0 < i < v.bpg && v.groups[g].free > 0 && !Used(Bm(v, g), i)
    requires forall j :: 0 <= j < i ==> Used(Bm(v, g), j)
    requires forall h :: 0 <= h < g ==> PassedOver(v, h)
    ensures FirstFree(v, BlockNo(v.bpg, g, i)) && !Stuck(v)
  {
    hide Used, BlockNo, GroupOf, BitOf;
    BlockNoInverse(v.bpg, g, i);
    assert !PassedOver(v, g);
  }

  /** What the search in a group's bitmap says, given the padding and the count. */
  lemma ZeroFound(v: Vol, g: nat, r: nat)
    requires Ok(v) && g < |v.groups| && v.groups[g].free > 0
    requires || (r < Scanned(v.bpg) && !Used(Bm(v, g), r) && (forall j :: 0 <= j < r ==> Used(Bm(v, g), j)))
             || (r == v.bpg && (forall j :: 0 <= j < Scanned(v.bpg) ==> Used(Bm(v, g), j)))
    ensures r < v.bpg && !Used(Bm(v, g), r)
  {
    hide Used, InUse;
    var i := ZerosSome(Bm(v, g), v.bpg);
  }

  // ----- runs -----

  /** A caller asks for a block or for a run of blocks, or gives back one it holds. */
  datatype Request = One | Several(n: nat) | Back(b: nat)

  /** After any run of requests the blocks in use are those in use at first and,
      besides, exactly the blocks the caller holds, each handed out once; the counts
      are right throughout, and with nothing held every bit is as it was. */
  method Serve(fs: FileSystem, requests: seq<Request>) returns (held: set<nat>)
    requires Ok(fs.V()) && fs.Synced()
    modifies fs
    ensures Ok(fs.V()) && fs.Synced() && Claimed(old(fs.V()), fs.V(), held)
    ensures held == {} ==> fs.V() == old(fs.V())
  {
    hide FileSystem.Synced, Ok, Claimed, Shape;
    held := {};
    ghost var v := fs.V();
    OkShape(v);
    ClaimedNone(v);
    for k := 0 to |requests|
      invariant Ok(fs.V()) && fs.Synced() && Claimed(v, fs.V(), held)
    {
      held := ServeOne(fs, requests[k], held, v);
    }
    if held == {} {
      OkShape(fs.V());
      ClaimedNone(fs.V());
      GivenBack(v, fs.V(), fs.V(), {});
    }
  }

  method ServeOne(fs: FileSystem, request: Request, held: set<nat>, ghost v: Vol) returns (held': set<nat>)
    requires Ok(fs.V()) && fs.Synced() && Ok(v) && Claimed(v, fs.V(), held)
    modifies fs
    ensures Ok(fs.V()) && fs.Synced() && Claimed(v, fs.V(), held')
  {
    hide FileSystem.Synced, Ok, Claimed, Shape, IsBitmap, InUse, Stuck, FirstFree, Cramped, Run;
    held' := held;
    ghost var w := fs.V();
    match request {
      case One =>
        OkShape(w);
        var b := fs.Balloc();
        if b != 0 {
          ClaimedMore(v, w, fs.V(), held, {b});
          held' := held + {b};
        }
      case Several(n) =>
        OkShape(w);
        var b := fs.ContiguousBalloc(n);
        if b != 0 {
          ClaimedMore(v, w, fs.V(), held, Run(b, n));
          held' := held + Run(b, n);
        }
      case Back(b) =>
        if b in held {
          Holding(v, w, held, b);
          var ok := fs.Release(b);
          ClaimedLess(v, w, fs.V(), held, {b});
          held' := held - {b};
        }
    }
  }

  lemma Holding(v: Vol, w: Vol, s: set<nat>, b: nat)
    requires Ok(v) && Claimed(v, w, s) && b in s
    ensures 0 < b < |w.disk| && InUse(w, b) && !IsBitmap(w, b)
  {
    hide Shape, Padded, Counted, InUse;
    SameBitmaps(v, w);
  }
}
