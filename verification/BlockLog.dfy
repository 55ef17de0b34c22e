/** The calls that the file system makes to the cache, and what they come to. */
module BlockLog {
  import opened Bitmap
  import opened BlockCache

  function AsMap(disk: seq<Block>): (r: map<nat, Block>)
  {
    map b: nat | b < |disk| :: disk[b]
  }

  /** After these calls the cache shows `disk`, if it showed `start` at first. */
  ghost predicate Tracks(log: seq<Op<Block>>, start: seq<Block>, disk: seq<Block>)
  {
    After(log, AsMap(start)) == AsMap(disk)
  }

  lemma Shorter<T>(log: seq<T>, x: T)
    ensures (log + [x])[..|log + [x]| - 1] == log && (log + [x])[|log + [x]| - 1] == x
  {
  }

  lemma LogRead(log: seq<Op<Block>>, start: seq<Block>, disk: seq<Block>, b: nat)
    requires Tracks(log, start, disk)
    ensures Tracks(log + [Read(b)], start, disk) && Touched(log + [Read(b)]) == Touched(log) + {b}
  {
    Shorter(log, Op<Block>.Read(b));
  }

  lemma LogWrite(log: seq<Op<Block>>, start: seq<Block>, disk: seq<Block>, b: nat, x: Block)
    requires Tracks(log, start, disk) && b < |disk|
    ensures Tracks(log + [Write(b, x)], start, disk[b := x]) && Touched(log + [Write(b, x)]) == Touched(log) + {b}
  {
    Shorter(log, Op.Write(b, x));
    assert AsMap(disk[b := x]) == AsMap(disk)[b := x];
  }

  /** Calls that keep off block 0 always go through. */
  lemma {:induction false} SafeWithoutZero(log: seq<Op<Block>>, recent: seq<nat>)
    requires 0 !in Touched(log)
    ensures Safe(log, recent)
  {
    hide RecentAfter;
    if |log| > 0 {
      SafeWithoutZero(log[..|log| - 1], recent);
    }
  }

  /** Writing block 0 after such calls goes through if and only if they have used 32
      different blocks. */
  lemma SafeBoot(log: seq<Op<Block>>, x: Block)
    requires 0 !in Touched(log)
    ensures Safe(log + [Write(0, x)], []) <==> |Touched(log)| >= NBUFS
  {
    hide RecentAfter, Touched;
    SafeWithoutZero(log, []);
    Shorter(log, Op.Write(0, x));
    BlockZeroSafe(log);
  }

  /** The calls made to a cache just initialised, and then a flush: they go through, each
      to the right place, if and only if block 0 is not used too early and no block lies
      beyond 2 GiB; and then the device is what the cache showed. */
  method Perform(cache: Cache<Block>, log: seq<Op<Block>>, junk: Block, ghost start: seq<Block>, ghost disk: seq<Block>)
    returns (out: Outcome)
    requires cache.Valid() && cache.view == AsMap(start) && cache.Recent() == [] && cache.used == {} && Tracks(log, start, disk)
    modifies cache, cache.buflist
    ensures out == Fine && cache.Placed() <==> Safe(log, []) && AllNear(Touched(log), cache.bs)
    ensures out == Fine ==> cache.Valid() && cache.view == AsMap(disk) && (cache.Placed() ==> cache.device == AsMap(disk))
    ensures out == Fine ==> FarKept(cache.device0, cache.device, cache.bs)
  {
    hide Cache.Valid, Cache.Recent, Cache.Placed, RecentAfter, FarKept, AllNear;
    var ops := log + [Op<Block>.Flush];
    assert ops[..|ops| - 1] == log && ops[|ops| - 1].Flush?;
    assert cache.used + Touched(ops) == Touched(log);
    var replies;
    out, replies := cache.Run(ops, junk);
  }
}
