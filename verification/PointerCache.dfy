/** Index blocks: where a block is on the device, the walk along the pointers, and the walk
    through one buffer for each level (fs/ext2.c:206-298, fs/ufs.c:178-212). */
module PointerCache {
  import opened Bits
  import opened BitStream
  import Console

  // ----- blocks of the device -----

  /** How a block number becomes a byte offset.  `Plain` is the product itself; the ext2
      reader takes the number for a signed one; UFS shifts and multiplies in 32 bits. */
  datatype Rule = Plain(unit: nat) | Signed(unit: nat) | Shifted(shift: nat)

  /** The device, where the partition starts on it, the block size, and the rule. */
  datatype Dev = Dev(disk: seq<byte>, start: nat, bs: nat, rule: Rule)

  const SHORT: nat := 0x8000_0000
  const WORD: nat := 0x1_0000_0000

  /** Partitions and blocks are whole sectors. */
  predicate Sized(d: Dev)
  {
    && d.bs > 0 && d.bs % Console.SECT_SIZE == 0 && d.start % Console.SECT_SIZE == 0
    && |d.disk| % Console.SECT_SIZE == 0
  }

  function Unit(rule: Rule): (r: nat)
  {
    match rule
    case Plain(unit) => unit
    case Signed(unit) => unit
    case Shifted(shift) => Pow2(shift) * Console.SECT_SIZE
  }

  function Offset(rule: Rule, b: nat): (r: int)
  {
    match rule
    case Plain(unit) => b * unit
    case Signed(unit) => Wrap32(b) * unit
    case Shifted(shift) => Wrap32(Wrap32(b * Pow2(shift)) * Console.SECT_SIZE)
  }

  /** The numbers that the rule has right. */
  predicate Near(rule: Rule, b: nat)
  {
    match rule
    case Plain(_) => true
    case Signed(_) => b < SHORT
    case Shifted(_) => b * Unit(rule) < SHORT
  }

  lemma OffsetExact(rule: Rule, b: nat)
    requires Unit(rule) > 0 && b < WORD
    ensures Offset(rule, b) == b * Unit(rule) <==> Near(rule, b)
  {
    hide Wrap32, Pow2;
    match rule
    case Plain(_) =>
    case Signed(unit) =>
      WrapSmall(b);
      SameProduct(Wrap32(b), b, unit);
    case Shifted(shift) =>
      WrapMul(b * Pow2(shift), Console.SECT_SIZE);
      MulAssoc(b, Pow2(shift), Console.SECT_SIZE);
      WrapSmall(b * Unit(rule));
  }

  lemma SameProduct(a: int, b: int, u: nat)
    requires u > 0
    ensures a * u == b * u <==> a == b
  {
    if a < b {
      MulDist(a, b - a, u);
      MulMono(u, 1, b - a);
    } else if b < a {
      MulDist(b, a - b, u);
      MulMono(u, 1, a - b);
    }
  }

  /** With fragments of `512 * 2^shift` bytes, numbers that differ by 4 GiB of fragments
      have one place. */
  lemma ShiftedAlias(shift: nat, b: nat)
    requires shift <= 23
    ensures Offset(Shifted(shift), b + Pow2(23 - shift)) == Offset(Shifted(shift), b)
  {
    hide Wrap32, Pow2;
    var s := Console.SECT_SIZE;
    Pow2Add(23 - shift, shift);
    assert Pow2(23) == 0x80_0000 by {
      hide *;
      TwentyThree();
    }
    MulDist(b, Pow2(23 - shift), Pow2(shift));
    assert (b + Pow2(23 - shift)) * Pow2(shift) == b * Pow2(shift) + 0x80_0000;
    WrapMul(b * Pow2(shift), s);
    WrapMul(b * Pow2(shift) + 0x80_0000, s);
    WrapShift(b * Pow2(shift) * s, 1);
  }

  lemma TwentyThree()
    ensures Pow2(23) == 0x80_0000
  {
    assert Pow2(11) == 0x800;
    Pow2Add(11, 12);
    Pow2Add(11, 1);
    assert Pow2(1) == 2;
  }

  function Place(d: Dev, b: nat): (r: int)
  {
    d.start + Offset(d.rule, b)
  }

  /** `n` bytes from any place; a place before the device is an error of the device. */
  datatype Contents = Contents(data: seq<byte>) | Unreadable

  function BytesAt(disk: seq<byte>, place: int, n: nat): (r: Contents)
    ensures r.Contents? <==> 0 <= place && place + n <= |disk|
    ensures r.Contents? ==> |r.data| == n && r.data == disk[place..place + n]
  {
    if 0 <= place && place + n <= |disk| then Contents(disk[place..place + n]) else Unreadable
  }

  /** What reading block `b` gives. */
  function Found(d: Dev, b: nat): (r: Contents)
    ensures r.Contents? ==> |r.data| == d.bs
  {
    BytesAt(d.disk, Place(d, b), d.bs)
  }

  /** The device without the rule's mistakes. */
  function Ideal(d: Dev): (r: Dev)
  {
    d.(rule := Plain(Unit(d.rule)))
  }

  lemma NearFound(d: Dev, b: nat)
    requires Unit(d.rule) > 0 && b < WORD && Near(d.rule, b)
    ensures Found(d, b) == Found(Ideal(d), b)
  {
    OffsetExact(d.rule, b);
  }

  /** Zeros but for one byte. */
  function Spike(n: nat, at: nat): (r: seq<byte>)
    ensures |r| == n && forall i :: 0 <= i < n ==> r[i] == if i == at then 1 else 0
  {
    seq(n, i => if i == at then 1 else 0)
  }

  /** A number is read right on every device if and only if the rule has it right. */
  lemma FoundExact(d: Dev, b: nat)
    requires Unit(d.rule) > 0 && b < WORD && Sized(d)
    ensures Near(d.rule, b) <==>
            forall disk: seq<byte> :: Sized(d.(disk := disk)) ==> Found(d.(disk := disk), b) == Found(Ideal(d.(disk := disk)), b)
  {
    hide Offset, Near, Unit;
    OffsetExact(d.rule, b);
    if Near(d.rule, b) {
      forall disk: seq<byte> | Sized(d.(disk := disk))
        ensures Found(d.(disk := disk), b) == Found(Ideal(d.(disk := disk)), b)
      {
        NearFound(d.(disk := disk), b);
      }
    } else {
      var at: nat := d.start + b * Unit(d.rule);
      var e := d.(disk := Spike((at + d.bs) * Console.SECT_SIZE, at));
      assert Place(Ideal(e), b) == at by {
        IdealPlace(e, b);
      }
      assert Found(Ideal(e), b).data[0] == 1;
      var there := Found(e, b);
      assert there.Contents? ==> there.data[0] == 0;
      assert Sized(e) && Found(e, b) != Found(Ideal(e), b);
    }
  }

  lemma IdealPlace(d: Dev, b: nat)
    ensures Place(Ideal(d), b) == d.start + b * Unit(d.rule)
  {
  }

  /** A read of `n` bytes at a place; on failure the buffer has anything, here `junk`. */
  method ReadAt(d: Dev, place: int, n: nat, junk: seq<byte>) returns (ok: bool, buf: seq<byte>)
    requires Sized(d) && n > 0
    ensures BytesAt(d.disk, place, n) == if ok then Contents(buf) else Unreadable
    ensures !ok ==> buf == junk
  {
    if place < 0 {
      return false, junk;
    }
    var got;
    got, buf := Console.Read(d.disk, n, place);
    ok := got == n;
    if !ok {
      buf := junk;
    }
  }

  // ----- pointers -----

  /** Pointer `k` in a block, low byte first; anything else has no pointers. */
  function Ptr(buf: seq<byte>, k: nat): (r: nat)
    ensures r < WORD
  {
    if 4 * k + 4 <= |buf| then
      var b0: nat, b1: nat, b2: nat, b3: nat := buf[4 * k], buf[4 * k + 1], buf[4 * k + 2], buf[4 * k + 3];
      b0 + 0x100 * b1 + 0x1_0000 * b2 + 0x100_0000 * b3
    else 0
  }

  /** It is the 32 bits from there on. */
  lemma PtrIs(buf: seq<byte>, k: nat)
    requires 4 * k + 4 <= |buf|
    ensures Ptr(buf, k) == Peek(buf, 32 * k, 32)
  {
    hide Peek;
    PeekFour(buf, 4 * k);
  }

  /** A block that has the pointer `w` at `k`. */
  function WithPtr(n: nat, k: nat, w: nat): (r: seq<byte>)
    requires 4 * k + 4 <= n && w < WORD
    ensures |r| == n && Ptr(r, k) == w
  {
    var low, mid, high, top := ByteOf(w, 0), ByteOf(w, 1), ByteOf(w, 2), ByteOf(w, 3);
    FourBytes(w);
    seq(n, i => if i == 4 * k then low else if i == 4 * k + 1 then mid
                else if i == 4 * k + 2 then high else if i == 4 * k + 3 then top else 0)
  }

  /** The number of pointers in a block. */
  function Ptrs(d: Dev): (r: nat)
    requires Sized(d)
    ensures r > 0 && 4 * r == d.bs
  {
    var sectors := d.bs / Console.SECT_SIZE;
    assert d.bs == 4 * (128 * sectors);
    d.bs / 4
  }

  predicate Fits(d: Dev, digits: seq<nat>)
    requires Sized(d)
  {
    forall i :: 0 <= i < |digits| ==> digits[i] < Ptrs(d)
  }

  /** Where the walk comes to: a block, 0 for a hole; or a block that cannot be read. */
  datatype Answer = Block(b: nat) | Failed

  /** From pointer `ind` down, taking the given index at each level. */
  function Walk(d: Dev, ind: nat, digits: seq<nat>): (r: Answer)
    decreases |digits|
  {
    if |digits| == 0 || ind == 0 then Block(ind)
    else
      match Found(d, ind)
      case Unreadable => Failed
      case Contents(data) => Walk(d, Ptr(data, digits[0]), digits[1..])
  }

  /** The rule has all index blocks on the way right. */
  predicate NearWay(d: Dev, ind: nat, digits: seq<nat>)
    decreases |digits|
  {
    |digits| == 0 || ind == 0 || (
      && Near(d.rule, ind)
      && var found := Found(d, ind);
         found.Contents? ==> NearWay(d, Ptr(found.data, digits[0]), digits[1..]))
  }

  lemma {:induction false} NearWalk(d: Dev, ind: nat, digits: seq<nat>)
    requires Unit(d.rule) > 0 && ind < WORD && NearWay(d, ind, digits)
    ensures Walk(d, ind, digits) == Walk(Ideal(d), ind, digits)
    decreases |digits|
  {
    hide Offset, Near, Unit, Found, Ptr;
    if |digits| > 0 && ind != 0 {
      NearFound(d, ind);
      var found := Found(d, ind);
      if found.Contents? {
        NearWalk(d, Ptr(found.data, digits[0]), digits[1..]);
      }
    }
  }

  /** A lookup through one index block is right on every device if and only if the rule
      has the number of the block right. */
  lemma WalkExact(d: Dev, b: nat, k: nat)
    requires Unit(d.rule) > 0 && 0 < b < WORD && Sized(d) && k < Ptrs(d)
    ensures Near(d.rule, b) <==>
            forall disk: seq<byte> :: Sized(d.(disk := disk)) ==> Walk(d.(disk := disk), b, [k]) == Walk(Ideal(d.(disk := disk)), b, [k])
  {
    hide Offset, Near, Unit, Walk, Ptr;
    OffsetExact(d.rule, b);
    if Near(d.rule, b) {
      forall disk: seq<byte> | Sized(d.(disk := disk))
        ensures Walk(d.(disk := disk), b, [k]) == Walk(Ideal(d.(disk := disk)), b, [k])
      {
        NearFound(d.(disk := disk), b);
        WalkOne(d.(disk := disk), b, k);
        WalkOne(Ideal(d.(disk := disk)), b, k);
      }
    } else {
      var at: nat := d.start + b * Unit(d.rule);
      var e := d.(disk := Spike((at + d.bs) * Console.SECT_SIZE, at + 4 * k));
      assert Place(Ideal(e), b) == at by {
        IdealPlace(e, b);
      }
      WalkOne(e, b, k);
      WalkOne(Ideal(e), b, k);
      SpikePtr(e.disk, at + 4 * k, at, d.bs, k);
      if Found(e, b).Contents? {
        SpikePtr(e.disk, at + 4 * k, Place(e, b), d.bs, k);
      }
      assert Sized(e) && Walk(e, b, [k]) != Walk(Ideal(e), b, [k]);
    }
  }

  lemma WalkOne(d: Dev, b: nat, k: nat)
    requires b != 0
    ensures Walk(d, b, [k]) == if Found(d, b).Contents? then Block(Ptr(Found(d, b).data, k)) else Failed
  {
    hide Found, Ptr;
    assert [k][1..] == [];
  }

  /** A pointer read from such a device: one exactly from the place of the byte. */
  lemma SpikePtr(disk: seq<byte>, at: nat, place: nat, n: nat, k: nat)
    requires disk == Spike(|disk|, at) && place + n <= |disk| && 4 * k + 4 <= n
    ensures Ptr(disk[place..place + n], k) == 1 <==> place + 4 * k == at
  {
    var data := disk[place..place + n];
    forall i | 4 * k <= i < 4 * k + 4
      ensures data[i] == if place + i == at then 1 else 0
    {
    }
  }

  // ----- the walk through buffers -----

  /** A buffer and the number of the block in it.  After a failed read the number is the
      old one and the contents are not; `spoiled` is what the program does not record. */
  datatype Cached = Cached(blkno: nat, buf: seq<byte>, spoiled: bool)

  /** The number of a buffer that nothing has been read into: -1 in 32 bits. */
  const NONE: nat := 0xffff_ffff

  /** The block is brought into the buffer, unless the number says that it is there. */
  function Fetch(d: Dev, c: Cached, b: nat, junk: seq<byte>): (r: (bool, Cached))
    ensures r.0 ==> r.1.blkno == b
    ensures !r.0 ==> r.1 == Cached(c.blkno, junk, true) && Found(d, b).Unreadable?
  {
    if c.blkno == b then (true, c)
    else
      match Found(d, b)
      case Unreadable => (false, Cached(c.blkno, junk, true))
      case Contents(data) => (true, Cached(b, data, false))
  }

  /** The walk through the buffers, the lowest level first among them. */
  function Lookup(d: Dev, bufs: seq<Cached>, ind: nat, digits: seq<nat>, junk: seq<byte>): (r: (Answer, seq<Cached>))
    requires |bufs| == |digits|
    ensures |r.1| == |bufs|
    decreases |digits|
  {
    if |digits| == 0 || ind == 0 then (Block(ind), bufs)
    else
      var low, l := bufs[..|bufs| - 1], |bufs| - 1;
      var (ok, c) := Fetch(d, bufs[l], ind, junk);
      if !ok then (Failed, low + [c])
      else
        var rest := Lookup(d, low, Ptr(c.buf, digits[0]), digits[1..], junk);
        (rest.0, rest.1 + [c])
  }

  /** Buffers that are not spoiled have what is on the device. */
  ghost predicate True(d: Dev, c: Cached)
  {
    |c.buf| == d.bs && (!c.spoiled ==> Found(d, c.blkno) == Contents(c.buf))
  }

  ghost predicate AllTrue(d: Dev, bufs: seq<Cached>)
  {
    forall l :: 0 <= l < |bufs| ==> True(d, bufs[l])
  }

  /** The lookup takes a pointer from a spoiled buffer. */
  predicate Uses(d: Dev, bufs: seq<Cached>, ind: nat, digits: seq<nat>)
    requires |bufs| == |digits|
    decreases |digits|
  {
    && |digits| > 0 && ind != 0
    && var c, low := bufs[|bufs| - 1], bufs[..|bufs| - 1];
       if c.blkno == ind then c.spoiled || Uses(d, low, Ptr(c.buf, digits[0]), digits[1..])
       else
         var found := Found(d, ind);
         found.Contents? && Uses(d, low, Ptr(found.data, digits[0]), digits[1..])
  }

  lemma {:induction false} LookupKeeps(d: Dev, bufs: seq<Cached>, ind: nat, digits: seq<nat>, junk: seq<byte>)
    requires |bufs| == |digits| && AllTrue(d, bufs) && |junk| == d.bs
    ensures AllTrue(d, Lookup(d, bufs, ind, digits, junk).1)
    decreases |digits|
  {
    hide Found, Ptr;
    if |digits| > 0 && ind != 0 {
      var low, l := bufs[..|bufs| - 1], |bufs| - 1;
      assert True(d, bufs[l]);
      assert AllTrue(d, low);
      var (ok, c) := Fetch(d, bufs[l], ind, junk);
      assert True(d, c);
      if ok {
        LookupKeeps(d, low, Ptr(c.buf, digits[0]), digits[1..], junk);
      }
    }
  }

  /** A lookup that uses no spoiled buffer is right. */
  lemma {:induction false} LookupRight(d: Dev, bufs: seq<Cached>, ind: nat, digits: seq<nat>, junk: seq<byte>)
    requires |bufs| == |digits| && AllTrue(d, bufs) && !Uses(d, bufs, ind, digits)
    ensures Lookup(d, bufs, ind, digits, junk).0 == Walk(d, ind, digits)
    decreases |digits|
  {
    hide Found, Ptr;
    if |digits| > 0 && ind != 0 {
      var low, l := bufs[..|bufs| - 1], |bufs| - 1;
      assert True(d, bufs[l]);
      assert AllTrue(d, low);
      var (ok, c) := Fetch(d, bufs[l], ind, junk);
      if ok {
        assert Found(d, ind) == Contents(c.buf);
        LookupRight(d, low, Ptr(c.buf, digits[0]), digits[1..], junk);
      }
    }
  }

  /** The same buffers, with anything in the spoiled ones. */
  ghost predicate Alike(a: seq<Cached>, b: seq<Cached>)
  {
    |a| == |b| && forall l :: 0 <= l < |a| ==>
      && a[l].blkno == b[l].blkno && a[l].spoiled == b[l].spoiled && |a[l].buf| == |b[l].buf|
      && (!a[l].spoiled ==> a[l] == b[l])
  }

  /** The lookup comes to `goal`, whatever a spoiled buffer that it uses has in it. */
  ghost predicate Steady(d: Dev, bufs: seq<Cached>, ind: nat, digits: seq<nat>, goal: Answer)
    requires |bufs| == |digits|
    decreases |digits|
  {
    if |digits| == 0 || ind == 0 then goal == Block(ind)
    else
      var c, low := bufs[|bufs| - 1], bufs[..|bufs| - 1];
      if c.blkno == ind && c.spoiled then |digits| > 1 && forall w: nat :: w < WORD ==> Steady(d, low, w, digits[1..], goal)
      else if c.blkno == ind then Steady(d, low, Ptr(c.buf, digits[0]), digits[1..], goal)
      else
        match Found(d, ind)
        case Unreadable => goal == Failed
        case Contents(data) => Steady(d, low, Ptr(data, digits[0]), digits[1..], goal)
  }

  lemma {:induction false} SteadyHolds(d: Dev, bufs: seq<Cached>, other: seq<Cached>, ind: nat, digits: seq<nat>, goal: Answer, junk: seq<byte>)
    requires |bufs| == |digits| && Alike(bufs, other) && Steady(d, bufs, ind, digits, goal)
    ensures Lookup(d, other, ind, digits, junk).0 == goal
    decreases |digits|
  {
    hide Found, Ptr;
    if |digits| > 0 && ind != 0 {
      var low, c, e := bufs[..|bufs| - 1], bufs[|bufs| - 1], other[|bufs| - 1];
      assert Alike(low, other[..|bufs| - 1]);
      var (ok, f) := Fetch(d, e, ind, junk);
      if ok {
        SteadyHolds(d, low, other[..|bufs| - 1], Ptr(f.buf, digits[0]), digits[1..], goal, junk);
      }
    }
  }

  /** Where it does not, there are contents with which it comes to something else. */
  lemma {:induction false} Unsteady(d: Dev, bufs: seq<Cached>, ind: nat, digits: seq<nat>, goal: Answer, junk: seq<byte>)
    returns (other: seq<Cached>)
    requires Sized(d) && Fits(d, digits) && |bufs| == |digits| && AllTrue(d, bufs) && !Steady(d, bufs, ind, digits, goal)
    ensures Alike(bufs, other) && Lookup(d, other, ind, digits, junk).0 != goal
    decreases |digits|
  {
    hide Found, Ptr, WithPtr, Lookup, AllTrue, Fits;
    other := bufs;
    if |digits| > 0 && ind != 0 {
      var low, c, rest := bufs[..|bufs| - 1], bufs[|bufs| - 1], digits[1..];
      LowerTrue(d, bufs, digits);
      var (ok, f) := Fetch(d, c, ind, junk);
      if ok {
        var w := Ptr(f.buf, digits[0]);
        if c.blkno == ind && c.spoiled {
          if |digits| == 1 {
            w := if goal == Block(0) then 1 else 0;
          } else {
            var v: nat :| v < WORD && !Steady(d, low, v, rest, goal);
            w := v;
          }
          c := c.(buf := WithPtr(d.bs, digits[0], w));
        }
        other := Unsteady(d, low, w, rest, goal, junk);
        LookupStep(d, other, c, ind, digits, junk);
        other := other + [c];
        AlikeStep(bufs, other);
        return;
      }
      LookupStep(d, low, c, ind, digits, junk);
      assert low + [c] == bufs;
    } else {
      assert Lookup(d, bufs, ind, digits, junk).0 == Block(ind) by {
        LookupStops(d, bufs, ind, digits, junk);
      }
    }
    AlikeSelf(bufs);
  }

  lemma LowerTrue(d: Dev, bufs: seq<Cached>, digits: seq<nat>)
    requires Sized(d) && |bufs| == |digits| > 0 && AllTrue(d, bufs) && Fits(d, digits)
    ensures AllTrue(d, bufs[..|bufs| - 1]) && Fits(d, digits[1..])
    ensures |bufs[|bufs| - 1].buf| == d.bs && digits[0] < Ptrs(d)
  {
    assert True(d, bufs[|bufs| - 1]);
  }

  lemma LookupStops(d: Dev, bufs: seq<Cached>, ind: nat, digits: seq<nat>, junk: seq<byte>)
    requires |bufs| == |digits| && (|digits| == 0 || ind == 0)
    ensures Lookup(d, bufs, ind, digits, junk).0 == Block(ind)
  {
  }

  lemma LookupStep(d: Dev, low: seq<Cached>, c: Cached, ind: nat, digits: seq<nat>, junk: seq<byte>)
    requires |low| + 1 == |digits| && ind != 0
    ensures var (ok, f) := Fetch(d, c, ind, junk);
            Lookup(d, low + [c], ind, digits, junk).0 ==
            if ok then Lookup(d, low, Ptr(f.buf, digits[0]), digits[1..], junk).0 else Failed
  {
    hide Fetch, Ptr;
    assert (low + [c])[..|low|] == low;
  }

  lemma AlikeSelf(a: seq<Cached>)
    ensures Alike(a, a)
  {
  }

  lemma AlikeStep(a: seq<Cached>, b: seq<Cached>)
    requires |a| == |b| > 0 && Alike(a[..|a| - 1], b[..|b| - 1]) && Alike([a[|a| - 1]], [b[|b| - 1]])
    ensures Alike(a, b)
  {
    var n := |a| - 1;
    assert a == a[..n] + [a[n]] && b == b[..n] + [b[n]];
  }

  /** Exactly the steady lookups come to the goal with all contents of the spoiled buffers. */
  lemma SteadyExact(d: Dev, bufs: seq<Cached>, ind: nat, digits: seq<nat>, goal: Answer, junk: seq<byte>)
    requires Sized(d) && Fits(d, digits) && |bufs| == |digits| && AllTrue(d, bufs)
    ensures Steady(d, bufs, ind, digits, goal) <==>
            forall other :: Alike(bufs, other) ==> Lookup(d, other, ind, digits, junk).0 == goal
  {
    hide Lookup, Steady, Fits;
    if Steady(d, bufs, ind, digits, goal) {
      forall other | Alike(bufs, other)
        ensures Lookup(d, other, ind, digits, junk).0 == goal
      {
        SteadyHolds(d, bufs, other, ind, digits, goal, junk);
      }
    } else {
      var other := Unsteady(d, bufs, ind, digits, goal, junk);
    }
  }

  /** Without use of a spoiled buffer the lookup is steady; with it, only some lookups
      of a hole are. */
  lemma {:induction false} UseUnsteady(d: Dev, bufs: seq<Cached>, ind: nat, digits: seq<nat>, goal: Answer)
    requires |bufs| == |digits| && AllTrue(d, bufs)
    ensures !Uses(d, bufs, ind, digits) ==> Steady(d, bufs, ind, digits, Walk(d, ind, digits))
    ensures Uses(d, bufs, ind, digits) && Steady(d, bufs, ind, digits, goal) ==> goal == Block(0) && |digits| > 1
    decreases |digits|
  {
    hide Found, Ptr;
    if |digits| > 0 && ind != 0 {
      var low, c, rest := bufs[..|bufs| - 1], bufs[|bufs| - 1], digits[1..];
      assert AllTrue(d, low) && True(d, c);
      if c.blkno == ind && c.spoiled {
        if |digits| > 1 && Steady(d, bufs, ind, digits, goal) {
          assert Steady(d, low, 0, rest, goal);
        }
      } else {
        var (ok, f) := Fetch(d, c, ind, []);
        if ok {
          UseUnsteady(d, low, Ptr(f.buf, digits[0]), rest, goal);
        }
      }
    }
  }

  /** A lookup of anything but a hole, or through one index block, is right whatever the
      failed reads have left, if and only if it uses no spoiled buffer. */
  lemma LookupExact(d: Dev, bufs: seq<Cached>, ind: nat, digits: seq<nat>, junk: seq<byte>)
    requires Sized(d) && Fits(d, digits) && |bufs| == |digits| && AllTrue(d, bufs)
    requires Walk(d, ind, digits) != Block(0) || |digits| <= 1
    ensures !Uses(d, bufs, ind, digits) <==>
            forall other :: Alike(bufs, other) ==> Lookup(d, other, ind, digits, junk).0 == Walk(d, ind, digits)
  {
    hide Lookup, Steady, Fits, Uses, Walk, AllTrue;
    SteadyExact(d, bufs, ind, digits, Walk(d, ind, digits), junk);
    UseUnsteady(d, bufs, ind, digits, Walk(d, ind, digits));
  }

  /** A lookup that does not fail leaves each buffer as it is, or filled anew. */
  ghost predicate Refilled(bufs: seq<Cached>, after: seq<Cached>)
  {
    |bufs| == |after| && forall l :: 0 <= l < |bufs| ==> after[l] == bufs[l] || !after[l].spoiled
  }

  lemma {:induction false} LookupRefills(d: Dev, bufs: seq<Cached>, ind: nat, digits: seq<nat>, junk: seq<byte>)
    requires |bufs| == |digits|
    ensures Lookup(d, bufs, ind, digits, junk).0 != Failed ==> Refilled(bufs, Lookup(d, bufs, ind, digits, junk).1)
    decreases |digits|
  {
    hide Found, Ptr;
    if |digits| > 0 && ind != 0 {
      var low, l := bufs[..|bufs| - 1], |bufs| - 1;
      var (ok, c) := Fetch(d, bufs[l], ind, junk);
      if ok {
        LookupRefills(d, low, Ptr(c.buf, digits[0]), digits[1..], junk);
      }
    }
  }

  /** A block that can be read, then one that cannot, then the first again: the answer is
      what the failed read has left. */
  lemma StaleAnswer(d: Dev, c: Cached, b: nat, x: nat, k: nat, junk: seq<byte>)
    requires b != 0 && x != 0 && c.blkno != b && Found(d, b).Contents? && Found(d, x).Unreadable?
    ensures var first := Lookup(d, [c], b, [k], junk);
            var second := Lookup(d, first.1, x, [k], junk);
            var third := Lookup(d, second.1, b, [k], junk);
            && first.0 == Walk(d, b, [k]) == Block(Ptr(Found(d, b).data, k))
            && second.0 == Walk(d, x, [k]) == Failed
            && third.0 == Block(Ptr(junk, k))
  {
    hide Found, Ptr;
    var data := Found(d, b).data;
    LookupOne(d, c, b, k, junk);
    LookupOne(d, Cached(b, data, false), x, k, junk);
    LookupOne(d, Cached(b, junk, true), b, k, junk);
    WalkOne(d, b, k);
    WalkOne(d, x, k);
  }

  lemma LookupOne(d: Dev, c: Cached, b: nat, k: nat, junk: seq<byte>)
    requires b != 0
    ensures var (ok, f) := Fetch(d, c, b, junk);
            Lookup(d, [c], b, [k], junk) == (if ok then Block(Ptr(f.buf, k)) else Failed, [f])
  {
    hide Fetch, Found, Ptr;
    var (ok, f) := Fetch(d, c, b, junk);
    var none: seq<Cached> := [];
    assert [c][..0] == none && [k][1..] == [] && none + [f] == [f];
    assert Lookup(d, none, Ptr(f.buf, k), [], junk) == (Block(Ptr(f.buf, k)), none);
  }

  /** A device of two blocks of 512 bytes.  The first pointer in block 1 is to block 1; a
      failed read of block 2 that leaves zeros makes a hole of it. */
  lemma StaleHappens(rule: Rule)
    requires rule == Signed(512) || rule == Shifted(0)
    ensures var d, junk := Dev(Spike(1024, 512), 0, 512, rule), Spike(512, 512);
            var first := Lookup(d, [Cached(NONE, junk, true)], 1, [0], junk);
            var second := Lookup(d, first.1, 2, [0], junk);
            && Sized(d) && first.0 == Block(1) && second.0 == Failed
            && Walk(d, 1, [0]) == Block(1) && Lookup(d, second.1, 1, [0], junk).0 == Block(0)
  {
    hide Lookup, Walk;
    var d, junk := Dev(Spike(1024, 512), 0, 512, rule), Spike(512, 512);
    assert Pow2(0) == 1;
    assert Place(d, 1) == 512 && Place(d, 2) == 1024;
    assert Found(d, 1).data[0] == 1 && Found(d, 1).data[1] == 0 && Found(d, 1).data[2] == 0 && Found(d, 1).data[3] == 0;
    assert Ptr(Found(d, 1).data, 0) == 1 && Ptr(junk, 0) == 0;
    StaleAnswer(d, Cached(NONE, junk, true), 1, 2, 0, junk);
  }
}
