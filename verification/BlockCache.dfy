/** The 32-slot write-back cache of tools/bio.c. */
module BlockCache {
  import opened Bits

  const NBUFS: nat := 32

  datatype Option<T> = None | Some(value: T)

  /** `struct bio_buf`; `None` is the null pointer. */
  datatype Slot<B> = Slot(blkno: nat, last: nat, dirty: bool, data: Option<B>)

  predicate Full<B>(slot: Slot<B>)
  {
    slot.data.Some?
  }

  /** Slots that hold data are for different blocks; a slot is dirty only with data. */
  ghost predicate Distinct<B>(slots: seq<Slot<B>>)
  {
    && (forall i :: 0 <= i < |slots| && slots[i].dirty ==> Full(slots[i]))
    && (forall i, j :: 0 <= i < j < |slots| && Full(slots[i]) && Full(slots[j]) ==> slots[i].blkno != slots[j].blkno)
  }

  /** A slot without data is as `binit` left it, and then no slot is for block 0. */
  ghost predicate Initial<B>(slots: seq<Slot<B>>)
  {
    forall i, j :: 0 <= i < |slots| && 0 <= j < |slots| && !Full(slots[i]) ==>
                     slots[i].blkno == 0 && slots[i].last == 0 && (Full(slots[j]) ==> slots[j].blkno != 0)
  }

  ghost predicate Pending<B>(slots: seq<Slot<B>>, b: nat)
  {
    exists i :: 0 <= i < |slots| && slots[i].dirty && slots[i].blkno == b
  }

  /** `view` is the device with the dirty slots written to it, and the clean slots
      are copies of what is on the device. */
  ghost predicate Overlays<B(!new)>(slots: seq<Slot<B>>, device: map<nat, B>, view: map<nat, B>)
  {
    && (forall i :: 0 <= i < |slots| && slots[i].dirty && Full(slots[i]) ==>
                      slots[i].blkno in view && view[slots[i].blkno] == slots[i].data.value)
    && (forall i :: 0 <= i < |slots| && !slots[i].dirty && Full(slots[i]) && slots[i].blkno in device ==>
                      device[slots[i].blkno] == slots[i].data.value)
    && (forall b :: b in view <==> b in device || Pending(slots, b))
    && (forall b :: b in device && !Pending(slots, b) ==> b in view && view[b] == device[b])
  }

  /** A dirty slot can be written out at any time: the view stays. */
  lemma WriteOut<B(!new)>(slots: seq<Slot<B>>, device: map<nat, B>, view: map<nat, B>, k: nat)
    requires Distinct(slots) && Overlays(slots, device, view) && k < |slots| && slots[k].dirty
    ensures var slots' := slots[k := slots[k].(dirty := false)];
            Overlays(slots', device[slots[k].blkno := slots[k].data.value], view)
  {
    var slots' := slots[k := slots[k].(dirty := false)];
    forall b
      ensures Pending(slots', b) <==> Pending(slots, b) && b != slots[k].blkno
    {
      if Pending(slots, b) && b != slots[k].blkno {
        var i :| 0 <= i < |slots| && slots[i].dirty && slots[i].blkno == b;
        assert slots'[i].dirty && slots'[i].blkno == b;
      }
    }
  }

  /** With no dirty slot the device is the view. */
  lemma CleanDevice<B(!new)>(slots: seq<Slot<B>>, device: map<nat, B>, view: map<nat, B>)
    requires Overlays(slots, device, view) && forall i :: 0 <= i < |slots| ==> !slots[i].dirty
    ensures device == view
  {
    assert forall b :: !Pending(slots, b);
  }

  /** A clean slot can be given to another block as a copy of the device. */
  lemma LoadSlot<B(!new)>(slots: seq<Slot<B>>, device: map<nat, B>, view: map<nat, B>, k: nat, slot: Slot<B>)
    requires Overlays(slots, device, view) && k < |slots| && !slots[k].dirty && !slot.dirty && Full(slot)
    requires slot.blkno in device ==> slot.data.value == device[slot.blkno]
    ensures Overlays(slots[k := slot], device, view)
  {
    var slots' := slots[k := slot];
    forall b
      ensures Pending(slots', b) <==> Pending(slots, b)
    {
      if Pending(slots, b) {
        var i :| 0 <= i < |slots| && slots[i].dirty && slots[i].blkno == b;
        assert slots'[i].dirty && slots'[i].blkno == b;
      }
    }
  }

  /** A write goes to the one slot for the block, or to a clean slot. */
  lemma StoreSlot<B(!new)>(slots: seq<Slot<B>>, device: map<nat, B>, view: map<nat, B>, k: nat, slot: Slot<B>)
    requires Overlays(slots, device, view) && k < |slots| && slot.dirty && Full(slot)
    requires slots[k].dirty ==> slots[k].blkno == slot.blkno
    requires forall i :: 0 <= i < |slots| && i != k && Full(slots[i]) ==> slots[i].blkno != slot.blkno
    requires forall i :: 0 <= i < |slots| && slots[i].dirty ==> Full(slots[i])
    ensures Overlays(slots[k := slot], device, view[slot.blkno := slot.data.value])
  {
    var slots' := slots[k := slot];
    forall b
      ensures Pending(slots', b) <==> Pending(slots, b) || b == slot.blkno
    {
      assert slots'[k].dirty;
      if Pending(slots, b) && b != slot.blkno {
        var i :| 0 <= i < |slots| && slots[i].dirty && slots[i].blkno == b;
        assert slots'[i].dirty && slots'[i].blkno == b;
      }
    }
  }

  // ----- places on the device -----

  /** `lseek(bio_fd, blkno * bio_blocksize, 0)` with a product of two `int`s: it fails for
      a negative offset, and otherwise goes to the block at that offset. */
  datatype Seek = NoSeek | To(block: nat)

  function Target(b: nat, bs: nat): (r: Seek)
    requires bs > 0
  {
    var x := Wrap32(b * bs);
    if x < 0 then NoSeek else To(x / bs)
  }

  predicate Unseekable(b: nat, bs: nat)
  {
    bs > 0 && Target(b, bs).NoSeek?
  }

  /** The block begins in the first 2 GiB. */
  predicate Near(b: nat, bs: nat)
  {
    b * bs < 0x8000_0000
  }

  ghost predicate AllNear(s: set<nat>, bs: nat)
  {
    forall b :: b in s ==> Near(b, bs)
  }

  /** The seek goes to the block's own place if and only if that is so. */
  lemma TargetExact(b: nat, bs: nat)
    requires bs > 0
    ensures Target(b, bs) == To(b) <==> Near(b, bs)
    ensures Target(b, bs).To? ==> Near(Target(b, bs).block, bs)
  {
    hide Wrap32;
    WrapSmall(b * bs);
    var x := Wrap32(b * bs);
    if x >= 0 {
      var p := x / bs;
      assert x == bs * p + x % bs;
      if p == b {
        MulCommutes(b, bs);
        assert x >= b * bs;
      } else if Near(b, bs) {
        DivUnique(x, bs, b, 0);
      }
    }
  }

  lemma MulCommutes(a: nat, b: nat)
    ensures a * b == b * a
  {
  }

  /** With blocks of 1 KiB, of every 4 GiB the blocks of the first 2 are taken for those of
      the first 2 of the device, and those of the others cannot be sought. */
  lemma FarBlocks(b: nat)
    ensures Target(b, 1024) == if b % 0x40_0000 < 0x20_0000 then To(b % 0x40_0000) else NoSeek
  {
    hide Wrap32;
    var k, r := b / 0x40_0000, b % 0x40_0000;
    assert b * 1024 == r * 1024 + k * 0x1_0000_0000;
    WrapShift(r * 1024, k);
    if r < 0x20_0000 {
      WrapSmall(r * 1024);
    } else {
      WrapShift(r * 1024 - 0x1_0000_0000, 1);
      WrapSmall(r * 1024 - 0x1_0000_0000);
    }
  }

  /** No block beyond 2 GiB is ever written. */
  ghost predicate FarKept<B(!new)>(device0: map<nat, B>, device: map<nat, B>, bs: nat)
  {
    forall b: nat :: !Near(b, bs) ==> (b in device <==> b in device0) && (b in device ==> device[b] == device0[b])
  }

  lemma FarWrite<B(!new)>(device0: map<nat, B>, device: map<nat, B>, b: nat, bs: nat, x: B)
    requires bs > 0 && FarKept(device0, device, bs) && Target(b, bs).To?
    ensures FarKept(device0, device[Target(b, bs).block := x], bs)
  {
    hide Target, Near;
    TargetExact(b, bs);
  }

  /** So what the caller sees there is not on the device. */
  lemma FarLost<B(!new)>(device0: map<nat, B>, device: map<nat, B>, bs: nat, b: nat, view: map<nat, B>)
    requires FarKept(device0, device, bs) && !Near(b, bs) && b in view && (b in device0 ==> device0[b] != view[b])
    ensures device != view
  {
    hide Near;
  }

  /** `used` are the blocks that the caller has asked for, `sought` those for which the
      device has been: the others are in dirty slots. */
  ghost predicate Sought<B>(slots: seq<Slot<B>>, sought: set<nat>, used: set<nat>)
  {
    && sought <= used
    && (forall i :: 0 <= i < |slots| && slots[i].dirty ==> slots[i].blkno in used)
    && (forall b :: b in used ==> b in sought || Pending(slots, b))
  }

  lemma SoughtHit<B>(slots: seq<Slot<B>>, sought: set<nat>, used: set<nat>, k: nat, slot: Slot<B>)
    requires Sought(slots, sought, used) && k < |slots| && slot.blkno == slots[k].blkno
    requires slots[k].dirty ==> slot.dirty
    requires slot.dirty || slot.blkno in sought
    ensures Sought(slots[k := slot], sought, used + {slot.blkno})
  {
    var slots' := slots[k := slot];
    forall b | b in used + {slot.blkno}
      ensures b in sought || Pending(slots', b)
    {
      if b !in sought {
        if b == slot.blkno {
          assert slots'[k].dirty;
        } else {
          var i :| 0 <= i < |slots| && slots[i].dirty && slots[i].blkno == b;
          assert slots'[i].dirty && slots'[i].blkno == b;
        }
      }
    }
  }

  lemma SoughtClean<B>(slots: seq<Slot<B>>, sought: set<nat>, used: set<nat>, k: nat)
    requires Sought(slots, sought, used) && k < |slots| && slots[k].dirty
    ensures Sought(slots[k := slots[k].(dirty := false)], sought + {slots[k].blkno}, used)
  {
    var slots' := slots[k := slots[k].(dirty := false)];
    forall b | b in used
      ensures b in sought + {slots[k].blkno} || Pending(slots', b)
    {
      if b !in sought && b != slots[k].blkno {
        var i :| 0 <= i < |slots| && slots[i].dirty && slots[i].blkno == b;
        assert slots'[i].dirty && slots'[i].blkno == b;
      }
    }
  }

  lemma SoughtReplace<B>(slots: seq<Slot<B>>, sought: set<nat>, used: set<nat>, k: nat, slot: Slot<B>)
    requires Sought(slots, sought, used) && k < |slots| && !slots[k].dirty
    ensures Sought(slots[k := slot], if slot.dirty then sought else sought + {slot.blkno}, used + {slot.blkno})
  {
    var slots' := slots[k := slot];
    forall b | b in used + {slot.blkno}
      ensures b in (if slot.dirty then sought else sought + {slot.blkno}) || Pending(slots', b)
    {
      if b == slot.blkno {
        assert slot.dirty ==> slots'[k].dirty;
      } else if b !in sought {
        var i :| 0 <= i < |slots| && slots[i].dirty && slots[i].blkno == b;
        assert slots'[i].dirty && slots'[i].blkno == b;
      }
    }
  }

  /** A slot with data is dirty, or the device has been sought for it. */
  ghost predicate Fetched<B>(slots: seq<Slot<B>>, sought: set<nat>)
  {
    forall i :: 0 <= i < |slots| && Full(slots[i]) ==> slots[i].dirty || slots[i].blkno in sought
  }

  // ----- recency -----

  ghost predicate Listed<B>(slots: seq<Slot<B>>, order: seq<nat>, counter: nat)
  {
    forall k :: 0 <= k < |order| ==> order[k] < |slots| && Full(slots[order[k]]) && 0 < slots[order[k]].last <= counter
  }

  ghost predicate ByAge<B>(slots: seq<Slot<B>>, order: seq<nat>)
    requires forall k :: 0 <= k < |order| ==> order[k] < |slots|
  {
    forall k, l :: 0 <= k < l < |order| ==> slots[order[l]].last < slots[order[k]].last
  }

  ghost predicate Complete<B>(slots: seq<Slot<B>>, order: seq<nat>)
  {
    forall i :: 0 <= i < |slots| && Full(slots[i]) ==> i in order
  }

  /** `order` lists the slots with data, the latest used first. */
  ghost predicate Ranked<B>(slots: seq<Slot<B>>, order: seq<nat>, counter: nat)
  {
    Listed(slots, order, counter) && ByAge(slots, order) && Complete(slots, order)
  }

  function Without(s: seq<nat>, x: nat): (r: seq<nat>)
    ensures |r| <= |s|
    ensures forall y :: y in r <==> y in s && y != x
  {
    if |s| == 0 then [] else if s[0] == x then Without(s[1..], x) else [s[0]] + Without(s[1..], x)
  }

  /** The least-recently-used discipline on block numbers: the one just used comes
      first, and the list is cut to the capacity. */
  function Touch(recent: seq<nat>, b: nat): (r: seq<nat>)
    ensures b in r && |r| <= NBUFS
  {
    var s := [b] + Without(recent, b);
    assert s[0] == b;
    if |s| <= NBUFS then s else assert s[..NBUFS][0] == b; s[..NBUFS]
  }

  ghost function Blocks<B>(slots: seq<Slot<B>>, order: seq<nat>): (r: seq<nat>)
    requires forall k :: 0 <= k < |order| ==> order[k] < |slots|
    ensures |r| == |order|
  {
    seq(|order|, k requires 0 <= k < |order| => slots[order[k]].blkno)
  }

  lemma {:induction false} WithoutAt(s: seq<nat>, k: nat)
    requires k < |s| && forall j :: 0 <= j < |s| && j != k ==> s[j] != s[k]
    ensures Without(s, s[k]) == s[..k] + s[k + 1..]
  {
    if k == 0 {
      WithoutNone(s[1..], s[0]);
    } else {
      WithoutAt(s[1..], k - 1);
      assert s[..k] + s[k + 1..] == [s[0]] + (s[1..][..k - 1] + s[1..][k..]);
    }
  }

  lemma {:induction false} WithoutNone(s: seq<nat>, x: nat)
    requires x !in s
    ensures Without(s, x) == s
  {
    if |s| > 0 {
      WithoutNone(s[1..], x);
    }
  }

  ghost function Members(s: seq<nat>): (r: set<nat>)
    ensures forall x :: x in r <==> x in s
  {
    set x | x in s
  }

  lemma {:induction false} MembersCount(s: seq<nat>)
    requires forall k, l :: 0 <= k < l < |s| ==> s[k] != s[l]
    ensures |Members(s)| == |s|
  {
    if |s| > 0 {
      var n := |s| - 1;
      MembersCount(s[..n]);
      assert Members(s) == Members(s[..n]) + {s[n]};
    }
  }

  ghost function Range(n: nat): (r: set<nat>)
    ensures |r| == n && forall x: nat :: x in r <==> x < n
  {
    if n == 0 then {} else Range(n - 1) + {n - 1}
  }

  /** A slot that is not listed leaves room, and if none is missing the list is full. */
  lemma RankedCount<B>(slots: seq<Slot<B>>, order: seq<nat>, counter: nat, v: nat)
    requires Ranked(slots, order, counter) && v < |slots|
    ensures v !in order ==> |order| < |slots|
    ensures (forall i :: 0 <= i < |slots| ==> Full(slots[i])) ==> |order| == |slots|
    ensures |order| <= |slots|
  {
    forall k, l | 0 <= k < l < |order|
      ensures order[k] != order[l]
    {
      assert slots[order[l]].last < slots[order[k]].last;
    }
    MembersCount(order);
    var all := Range(|slots|);
    Subset(Members(order), all);
    if v !in order {
      Subset(Members(order), all - {v});
    }
    if forall i :: 0 <= i < |slots| ==> Full(slots[i]) {
      assert Members(order) == all;
    }
  }

  lemma Subset(a: set<nat>, b: set<nat>)
    requires a <= b
    ensures |a| <= |b|
  {
    assert b == a + (b - a);
  }

  /** Position `k` brought to the front. */
  ghost function Front(order: seq<nat>, k: nat): (r: seq<nat>)
    requires k < |order|
    ensures |r| == |order| && r[0] == order[k]
    ensures forall l :: 0 <= l < k ==> r[l + 1] == order[l]
    ensures forall l :: 0 < l <= k ==> r[l] == order[l - 1]
    ensures forall l :: k < l < |order| ==> r[l] == order[l]
  {
    [order[k]] + (order[..k] + order[k + 1..])
  }

  lemma FrontComplete<B>(slots: seq<Slot<B>>, order: seq<nat>, k: nat)
    requires Complete(slots, order) && k < |order|
    ensures Complete(slots, Front(order, k))
  {
    hide Front;
    var r := Front(order, k);
    forall i | 0 <= i < |slots| && Full(slots[i])
      ensures i in r
    {
      var l :| 0 <= l < |order| && order[l] == i;
      assert l < k ==> r[l + 1] == i;
    }
  }

  lemma DifferentSlots<B>(slots: seq<Slot<B>>, order: seq<nat>, counter: nat)
    requires Ranked(slots, order, counter)
    ensures forall k, l :: 0 <= k < l < |order| ==> order[k] != order[l]
  {
    hide Complete;
    forall k, l | 0 <= k < l < |order|
      ensures order[k] != order[l]
    {
      assert slots[order[l]].last < slots[order[k]].last;
    }
  }

  /** Using a slot that has data. */
  lemma RankHit<B>(slots: seq<Slot<B>>, order: seq<nat>, counter: nat, k: nat, slot: Slot<B>)
    requires Ranked(slots, order, counter) && k < |order| && Full(slot) && slot.last == counter + 1
    ensures Ranked(slots[order[k] := slot], Front(order, k), counter + 1)
  {
    hide Complete, Front;
    DifferentSlots(slots, order, counter);
    FrontComplete(slots, order, k);
    var slots', order' := slots[order[k] := slot], Front(order, k);
    assert Complete(slots', order') by {
      HitComplete(slots, order', order[k], slot);
    }
    assert Listed(slots', order', counter + 1);
    FrontByAge(slots, slots', order, k);
  }

  lemma HitComplete<B>(slots: seq<Slot<B>>, order: seq<nat>, i: nat, slot: Slot<B>)
    requires Complete(slots, order) && i < |slots| && i in order
    ensures Complete(slots[i := slot], order)
  {
  }

  lemma FrontByAge<B>(slots: seq<Slot<B>>, slots': seq<Slot<B>>, order: seq<nat>, k: nat)
    requires (forall l :: 0 <= l < |order| ==> order[l] < |slots|) && |slots'| == |slots| && k < |order|
    requires ByAge(slots, order)
    requires forall l :: 0 <= l < |order| && l != k ==> slots'[order[l]].last == slots[order[l]].last < slots'[order[k]].last
    ensures forall l :: 0 <= l < |order| ==> Front(order, k)[l] < |slots'|
    ensures ByAge(slots', Front(order, k))
  {
    hide Front;
    var r := Front(order, k);
    forall a, b | 0 <= a < b < |r|
      ensures slots'[r[b]].last < slots'[r[a]].last
    {
      var b0 := if b <= k then b - 1 else b;
      assert r[b] == order[b0] && b0 != k;
      if a > 0 {
        var a0 := if a <= k then a - 1 else a;
        assert r[a] == order[a0] && a0 != k && a0 < b0;
      }
    }
  }

  /** The block numbers then are in the order that the discipline asks for. */
  lemma HitBlocks<B>(slots: seq<Slot<B>>, order: seq<nat>, counter: nat, k: nat, slot: Slot<B>)
    requires Ranked(slots, order, counter) && Distinct(slots) && |slots| == NBUFS
    requires k < |order| && slot.blkno == slots[order[k]].blkno
    ensures Blocks(slots[order[k] := slot], Front(order, k)) == Touch(Blocks(slots, order), slot.blkno)
  {
    hide Without, Complete, Ranked;
    BlocksDiffer(slots, order, counter);
    var bs := Blocks(slots, order);
    var slots' := slots[order[k] := slot];
    WithoutAt(bs, k);
    RankedCount(slots, order, counter, 0);
    SameBlocks(slots, slots', Front(order, k));
    assert Blocks(slots, Front(order, k)) == [slot.blkno] + (bs[..k] + bs[k + 1..]);
  }

  lemma SameBlocks<B>(slots: seq<Slot<B>>, slots': seq<Slot<B>>, order: seq<nat>)
    requires forall k :: 0 <= k < |order| ==> order[k] < |slots| == |slots'| && slots[order[k]].blkno == slots'[order[k]].blkno
    ensures Blocks(slots, order) == Blocks(slots', order)
  {
  }

  lemma BlocksDiffer<B>(slots: seq<Slot<B>>, order: seq<nat>, counter: nat)
    requires Ranked(slots, order, counter) && Distinct(slots)
    ensures forall k :: 0 <= k < |order| ==> order[k] < |slots|
    ensures forall k, l :: 0 <= k < l < |order| ==> Blocks(slots, order)[k] != Blocks(slots, order)[l]
  {
    hide Complete;
    DifferentSlots(slots, order, counter);
  }

  /** The slot used longest ago, the first such, as the loops at lines 83-90 find it. */
  ghost predicate Oldest<B>(slots: seq<Slot<B>>, v: nat)
  {
    v < |slots| && forall i :: 0 <= i < |slots| ==> slots[v].last <= slots[i].last
  }

  /** The list when the oldest slot is given to another block. */
  ghost function Recycled(order: seq<nat>, v: nat): (r: seq<nat>)
    ensures 1 <= |r| <= |order| + 1 && r[0] == v
    ensures forall l :: 1 <= l < |r| ==> r[l] == order[l - 1]
  {
    [v] + if |order| > 0 && v in order then order[..|order| - 1] else order
  }

  /** Giving the oldest slot to a block that no slot holds. */
  lemma RankMiss<B>(slots: seq<Slot<B>>, order: seq<nat>, counter: nat, v: nat, slot: Slot<B>)
    requires Ranked(slots, order, counter) && Initial(slots) && Oldest(slots, v)
    requires Full(slot) && slot.last == counter + 1
    ensures Ranked(slots[v := slot], Recycled(order, v), counter + 1)
  {
    hide Complete, Recycled, Initial, Oldest;
    RecycledRest(slots, order, counter, v);
    var slots', order' := slots[v := slot], Recycled(order, v);
    assert Complete(slots', order') by {
      MissComplete(slots, order, counter, v, slot);
    }
    assert Listed(slots', order', counter + 1);
    assert ByAge(slots', order');
  }

  /** The other positions are for other slots. */
  lemma RecycledRest<B>(slots: seq<Slot<B>>, order: seq<nat>, counter: nat, v: nat)
    requires Ranked(slots, order, counter) && Initial(slots) && Oldest(slots, v)
    ensures v < |slots|
    ensures forall l :: 1 <= l < |Recycled(order, v)| ==> Recycled(order, v)[l] != v
  {
    DifferentSlots(slots, order, counter);
    if v in order {
      OldestIsLast(slots, order, counter, v);
    }
  }

  lemma MissComplete<B>(slots: seq<Slot<B>>, order: seq<nat>, counter: nat, v: nat, slot: Slot<B>)
    requires Ranked(slots, order, counter) && Initial(slots) && Oldest(slots, v)
    ensures Complete(slots[v := slot], Recycled(order, v))
  {
    hide Listed, ByAge, Initial;
    var slots', r := slots[v := slot], Recycled(order, v);
    if v in order {
      OldestIsLast(slots, order, counter, v);
    }
    forall j | 0 <= j < |slots'| && Full(slots'[j])
      ensures j in r
    {
      if j != v {
        var l :| 0 <= l < |order| && order[l] == j;
        assert r[l + 1] == j;
      }
    }
  }

  lemma MissBlocks<B>(slots: seq<Slot<B>>, order: seq<nat>, counter: nat, v: nat, slot: Slot<B>)
    requires Ranked(slots, order, counter) && Initial(slots) && Oldest(slots, v) && |slots| == NBUFS
    requires forall i :: 0 <= i < |slots| && Full(slots[i]) ==> slots[i].blkno != slot.blkno
    ensures forall l :: 0 <= l < |Recycled(order, v)| ==> Recycled(order, v)[l] < |slots|
    ensures Blocks(slots[v := slot], Recycled(order, v)) == Touch(Blocks(slots, order), slot.blkno)
  {
    hide Without, Complete, Initial, Oldest, Recycled;
    RecycledRest(slots, order, counter, v);
    var slots', r := slots[v := slot], Recycled(order, v);
    var bs := Blocks(slots, order);
    WithoutNone(bs, slot.blkno);
    RecycledLength(slots, order, counter, v);
    assert Blocks(slots', r) == ([slot.blkno] + bs)[..|r|];
  }

  lemma RecycledLength<B>(slots: seq<Slot<B>>, order: seq<nat>, counter: nat, v: nat)
    requires Ranked(slots, order, counter) && Initial(slots) && Oldest(slots, v)
    ensures |Recycled(order, v)| == if |order| == |slots| then |slots| else |order| + 1
    ensures |order| <= |slots|
  {
    hide ByAge, Listed, Complete, Initial;
    RankedCount(slots, order, counter, v);
    if v in order {
      OldestIsLast(slots, order, counter, v);
    }
  }

  lemma OldestIsLast<B>(slots: seq<Slot<B>>, order: seq<nat>, counter: nat, v: nat)
    requires Ranked(slots, order, counter) && Initial(slots) && Oldest(slots, v) && v in order
    ensures |order| == |slots| && order[|slots| - 1] == v
  {
    forall i | 0 <= i < |slots|
      ensures Full(slots[i])
    {
      assert slots[v].last <= slots[i].last;
    }
    RankedCount(slots, order, counter, v);
    var k :| 0 <= k < |order| && order[k] == v;
    var z := order[|order| - 1];
    var mine, least := slots[v].last, slots[z].last;
    assert mine <= least;
    assert k < |order| - 1 ==> least < mine;
  }

  // ----- the cache -----

  class Cache<B(!new)> {
    const buflist: array<Slot<B>>
    /** `bio_blocksize`. */
    const bs: nat
    /** `bio_counter`. */
    var counter: nat
    /** What is on the device, by the place of the block; a block that is not in the map
        cannot be read. */
    var device: map<nat, B>
    ghost const device0: map<nat, B>
    /** The blocks asked for, and those for which the device has been sought. */
    ghost var used: set<nat>
    ghost var sought: set<nat>
    /** The flat array of blocks that the caller sees. */
    ghost var view: map<nat, B>
    /** The slots with data, the latest used first. */
    ghost var order: seq<nat>

    /** Every seek so far went to the block's own place. */
    ghost predicate Placed()
      reads this`sought
    {
      AllNear(sought, bs)
    }

    ghost predicate Valid()
      reads this, buflist
    {
      && buflist.Length == NBUFS && bs > 0 && 0x1_0000_0000 % bs == 0
      && Distinct(buflist[..]) && Initial(buflist[..])
      && (Placed() ==> Overlays(buflist[..], device, view))
      && Ranked(buflist[..], order, counter)
      && Sought(buflist[..], sought, used) && Fetched(buflist[..], sought)
      && FarKept(device0, device, bs)
    }

    /** The blocks in the cache, the latest used first. */
    ghost function Recent(): (r: seq<nat>)
      requires Valid()
      reads this, buflist
    {
      Blocks(buflist[..], order)
    }

    /** Block 0 is taken to be cached by a slot whose data pointer is null. */
    predicate NullHit(b: nat)
      reads this, buflist
    {
      b == 0 && exists i :: 0 <= i < buflist.Length && !Full(buflist[i])
    }

    /** That is so until 32 blocks are in the cache. */
    lemma NullHitIff(b: nat)
      requires Valid()
      ensures NullHit(b) <==> b == 0 && |Recent()| < NBUFS
    {
      hide Distinct, Initial, Overlays, ByAge, Complete, Sought, Fetched, FarKept, AllNear;
      if v :| 0 <= v < NBUFS && !Full(buflist[..][v]) {
        RankedCount(buflist[..], order, counter, v);
      } else {
        RankedCount(buflist[..], order, counter, 0);
      }
    }

    /** `binit`. */
    constructor (dev: map<nat, B>, blocksize: nat)
      requires blocksize > 0 && 0x1_0000_0000 % blocksize == 0
      ensures Valid() && device == dev && view == dev && Recent() == [] && fresh(buflist)
      ensures bs == blocksize && used == {} && device0 == dev
    {
      buflist := new Slot<B>[NBUFS](_ => Slot(0, 0, false, None));
      counter, device, view, order := 0, dev, dev, [];
      bs, device0, used, sought := blocksize, dev, {}, {};
      new;
      assert forall b :: !Pending(buflist[..], b);
    }

    /** Lines 72-82: the first slot tagged with the block, or none. */
    method Find(b: nat) returns (i: nat)
      requires Valid()
      ensures i <= NBUFS
      ensures i == NBUFS ==> !NullHit(b) && forall j :: 0 <= j < NBUFS ==> buflist[j].blkno != b
      ensures i < NBUFS ==> buflist[i].blkno == b && (Full(buflist[i]) <==> !NullHit(b))
    {
      i := 0;
      while i < NBUFS
        invariant i <= NBUFS && forall j :: 0 <= j < i ==> buflist[j].blkno != b
      {
        if buflist[i].blkno == b {
          assert !Full(buflist[..][i]) ==> NullHit(b);
          if NullHit(b) {
            NullTag(buflist[..], i);
          }
          return;
        }
        i := i + 1;
      }
    }

    /** Lines 85-92: the slot used longest ago. */
    method Victim() returns (v: nat)
      requires Valid()
      ensures Oldest(buflist[..], v)
    {
      v := 0;
      var i := 1;
      var low := buflist[0].last;
      while i < NBUFS
        invariant 1 <= i <= NBUFS && v < i && low == buflist[v].last
        invariant forall j :: 0 <= j < i ==> low <= buflist[j].last
      {
        if buflist[i].last < low {
          low, v := buflist[i].last, i;
        }
        i := i + 1;
      }
    }

    /** Lines 94-104: write a dirty slot to where the seek goes. */
    method Clean(v: nat) returns (ok: bool)
      requires Valid() && v < NBUFS
      modifies this`device, this`sought, buflist
      ensures !ok ==> exists b :: b in used && Unseekable(b, bs)
      ensures ok ==> Valid() && !buflist[v].dirty && (old(Oldest(buflist[..], v)) ==> Oldest(buflist[..], v))
      ensures ok ==> buflist[..] == old(buflist[..])[v := old(buflist[v]).(dirty := false)]
      ensures ok ==> Recent() == old(Recent()) && old(sought) <= sought
    {
      hide Initial, Overlays, ByAge, Complete, Target, Near, Sought, Fetched, FarKept;
      ok := true;
      if buflist[v].dirty {
        var b := buflist[v].blkno;
        TargetExact(b, bs);
        UsedDirty(buflist[..], sought, used, v);
        var seek := Target(b, bs);
        if seek.NoSeek? {
          return false;
        }
        CleanKeeps(buflist[..], order, counter, v);
        SoughtClean(buflist[..], sought, used, v);
        FetchedClean(buflist[..], sought, v);
        FarWrite(device0, device, b, bs, buflist[v].data.value);
        if AllNear(sought + {b}, bs) {
          WriteOut(buflist[..], device, view, v);
        }
        device := device[seek.block := buflist[v].data.value];
        buflist[v] := buflist[v].(dirty := false);
        sought := sought + {b};
        assert buflist[..] == old(buflist[..])[v := old(buflist[v]).(dirty := false)];
        SameBlocks(old(buflist[..]), buflist[..], order);
      } else {
        assert buflist[..][v] == buflist[v].(dirty := false);
      }
    }

    /** A slot that has the block is used: its contents may change, its tag may not. */
    method Hit(i: nat, slot: Slot<B>, ghost after: map<nat, B>)
      requires Valid() && i < NBUFS && Full(buflist[i]) && Full(slot)
      requires slot.blkno == buflist[i].blkno && slot.last == counter + 1 && (buflist[i].dirty ==> slot.dirty)
      requires Placed() ==> Overlays(buflist[..][i := slot], device, after)
      modifies this`counter, this`order, this`view, this`used, buflist
      ensures Valid() && view == after && used == old(used) + {slot.blkno}
      ensures Recent() == Touch(old(Recent()), slot.blkno)
    {
      hide Overlays, Touch, Distinct, Initial, Listed, ByAge, Front, Blocks, Sought, Fetched, FarKept, AllNear;
      ghost var k: nat :| k < |order| && order[k] == i;
      RankHit(buflist[..], order, counter, k, slot);
      HitBlocks(buflist[..], order, counter, k, slot);
      TagKeeps(buflist[..], i, slot);
      FetchedHit(buflist[..], sought, i, slot);
      SoughtHit(buflist[..], sought, used, i, slot);
      buflist[i] := slot;
      assert buflist[..] == old(buflist[..])[i := slot];
      counter, order, view, used := counter + 1, Front(order, k), after, used + {slot.blkno};
    }

    /** The oldest slot, which is clean, is given to a block that no slot has; if it was
        read for it, the device has been sought. */
    method Replace(v: nat, slot: Slot<B>, ghost after: map<nat, B>)
      requires Valid() && Oldest(buflist[..], v) && Full(slot) && slot.last == counter + 1 && !buflist[v].dirty
      requires forall j :: 0 <= j < NBUFS ==> buflist[j].blkno != slot.blkno
      requires Placed() && (slot.dirty || Near(slot.blkno, bs)) ==> Overlays(buflist[..][v := slot], device, after)
      modifies this`counter, this`order, this`view, this`used, this`sought, buflist
      ensures Valid() && view == after && used == old(used) + {slot.blkno}
      ensures sought == if slot.dirty then old(sought) else old(sought) + {slot.blkno}
      ensures Recent() == Touch(old(Recent()), slot.blkno)
    {
      hide Overlays, Touch, Distinct, Initial, Listed, ByAge, Recycled, Blocks, Sought, Fetched, FarKept;
      RankMiss(buflist[..], order, counter, v, slot);
      MissBlocks(buflist[..], order, counter, v, slot);
      TagKeeps(buflist[..], v, slot);
      FetchedReplace(buflist[..], sought, v, slot);
      SoughtReplace(buflist[..], sought, used, v, slot);
      buflist[v] := slot;
      assert buflist[..] == old(buflist[..])[v := slot];
      counter, order, view, used := counter + 1, Recycled(order, v), after, used + {slot.blkno};
      if !slot.dirty {
        sought := sought + {slot.blkno};
      }
    }

    /** `bread`.  A block that cannot be read leaves `junk`, whatever the buffer held. */
    method BRead(b: nat, junk: B) returns (out: Outcome, x: B)
      requires Valid()
      modifies this, buflist
      ensures out == NullPointer <==> old(NullHit(b))
      ensures out == SeekFailed ==> exists c :: c in old(used) + {b} && Unseekable(c, bs)
      ensures out == Fine ==> Valid() && view == old(view) && Recent() == Touch(old(Recent()), b)
      ensures out == Fine ==> used == old(used) + {b} && old(sought) <= sought
      ensures out == Fine && Placed() && b in view ==> x == view[b]
    {
      hide Distinct, Initial, Overlays, Ranked, Oldest, Touch, Blocks, NullHit, Sought, Fetched, FarKept, Target, Near;
      var i := Find(b);
      if i < NBUFS {
        if buflist[i].data.None? {
          return NullPointer, junk;
        }
        x := buflist[i].data.value;
        if Placed() {
          TheSlot(buflist[..], device, view, i);
          TouchSlot(buflist[..], device, view, i, counter + 1);
        }
        Hit(i, buflist[i].(last := counter + 1), view);
        return Fine, x;
      }
      var v := Victim();
      TargetExact(b, bs);
      var ok := Clean(v);
      var seek := Target(b, bs);
      if !ok || seek.NoSeek? {
        assert seek.NoSeek? ==> Unseekable(b, bs) && b in old(used) + {b};
        return SeekFailed, junk;
      }
      var p := seek.block;
      x := if p in device then device[p] else junk;
      if Placed() && Near(b, bs) {
        NoSlot(buflist[..], device, view, b);
        LoadSlot(buflist[..], device, view, v, Slot(b, counter + 1, false, Some(x)));
      }
      Replace(v, Slot(b, counter + 1, false, Some(x)), view);
      return Fine, x;
    }

    /** `bwrite`. */
    method BWrite(b: nat, x: B) returns (out: Outcome)
      requires Valid()
      modifies this, buflist
      ensures out == NullPointer <==> old(NullHit(b))
      ensures out == SeekFailed ==> exists c :: c in old(used) + {b} && Unseekable(c, bs)
      ensures out == Fine ==> Valid() && view == old(view)[b := x] && Recent() == Touch(old(Recent()), b)
      ensures out == Fine ==> used == old(used) + {b} && old(sought) <= sought
    {
      hide Distinct, Initial, Overlays, Ranked, Oldest, Touch, Blocks, NullHit, Sought, Fetched, FarKept, Near;
      var i := Find(b);
      if i < NBUFS {
        if buflist[i].data.None? {
          return NullPointer;
        }
        if Placed() {
          TheSlot(buflist[..], device, view, i);
          StoreSlot(buflist[..], device, view, i, Slot(b, counter + 1, true, Some(x)));
        }
        Hit(i, Slot(b, counter + 1, true, Some(x)), view[b := x]);
        return Fine;
      }
      var v := Victim();
      var ok := Clean(v);
      if !ok {
        return SeekFailed;
      }
      if Placed() {
        NoSlot(buflist[..], device, view, b);
        StoreSlot(buflist[..], device, view, v, Slot(b, counter + 1, true, Some(x)));
      }
      Replace(v, Slot(b, counter + 1, true, Some(x)), view[b := x]);
      return Fine;
    }

    /** `bflush`: afterwards the device has been sought for every block, and if that went
        to the right places it is what the caller sees. */
    method BFlush() returns (out: Outcome)
      requires Valid()
      modifies this`device, this`sought, buflist
      ensures out != NullPointer
      ensures out == SeekFailed ==> exists c :: c in used && Unseekable(c, bs)
      ensures out == Fine ==> Valid() && Recent() == old(Recent()) && old(sought) <= sought == used
      ensures out == Fine && Placed() ==> device == view
    {
      hide Distinct, Initial, Overlays, Ranked, Sought, Fetched, FarKept, Near, AllNear;
      var i := 0;
      while i < NBUFS
        invariant i <= NBUFS && Valid() && Recent() == old(Recent()) && old(sought) <= sought
        invariant forall j :: 0 <= j < i ==> !buflist[j].dirty
      {
        var ok := Clean(i);
        if !ok {
          return SeekFailed;
        }
        i := i + 1;
      }
      SoughtAll(buflist[..], sought, used);
      if Placed() {
        CleanDevice(buflist[..], device, view);
      }
      return Fine;
    }

    /** Any sequence of calls that keeps within the first 2 GiB, and off block 0 until all
        slots are filled, goes through and gives the answers of a flat array of blocks.
        If it ends with a flush, that is the only way for it to go through with every seek
        to the right place; and blocks beyond 2 GiB are not on the device then. */
    method Run(ops: seq<Op<B>>, junk: B) returns (out: Outcome, replies: seq<Option<B>>)
      requires Valid()
      modifies this, buflist
      ensures out == NullPointer ==> !Safe(ops, old(Recent()))
      ensures out == SeekFailed ==> (exists c :: c in old(used) + Touched(ops) && Unseekable(c, bs)) && !AllNear(old(used) + Touched(ops), bs)
      ensures out == Fine ==> Valid() && Safe(ops, old(Recent())) && used == old(used) + Touched(ops)
      ensures out == Fine ==> view == After(ops, old(view)) && Recent() == RecentAfter(ops, old(Recent()))
      ensures out == Fine && |ops| > 0 && ops[|ops| - 1].Flush? ==> sought == used && (Placed() ==> device == view)
      ensures out == Fine ==> sought <= used && FarKept(device0, device, bs)
      ensures Safe(ops, old(Recent())) && AllNear(old(used) + Touched(ops), bs) ==> out == Fine && Placed()
      ensures |ops| > 0 && ops[|ops| - 1].Flush? ==>
                (out == Fine && Placed() <==> Safe(ops, old(Recent())) && AllNear(old(used) + Touched(ops), bs))
      ensures out == Fine && Placed() ==>
                |replies| == |ops| && forall i :: 0 <= i < |ops| ==> Answers(ops, old(view), i, replies[i])
    {
      hide Cache.Valid, Cache.Recent, Touch, FarKept, RecentAfter, After, Touched, Safe, AllNear;
      out, replies := Fine, [];
      ghost var view0, recent0, used0 := view, Recent(), used;
      var n := 0;
      RunStart(ops, view0, recent0);
      while n < |ops|
        invariant n == |replies| <= |ops| && Valid() && out == Fine
        invariant Safe(ops[..n], recent0) && used == used0 + Touched(ops[..n])
        invariant n > 0 && ops[n - 1].Flush? ==> sought == used && (Placed() ==> device == view)
        invariant view == After(ops[..n], view0) && Recent() == RecentAfter(ops[..n], recent0)
        invariant Placed() ==> forall i :: 0 <= i < n ==> Answers(ops, view0, i, replies[i])
      {
        RunStep(ops, view0, recent0, n);
        ghost var before := sought;
        var x;
        out, x := Perform(ops[n], junk);
        if out != Fine {
          RunStops(ops, recent0, used0, n, bs);
          return;
        }
        PlacedBefore(before, sought, bs);
        replies := replies + [x];
        n := n + 1;
      }
      assert ops[..n] == ops;
      RunEnds();
      PlacedBefore(sought, used, bs);
    }

    lemma RunEnds()
      requires Valid()
      ensures sought <= used && FarKept(device0, device, bs)
    {
    }

    /** One call. */
    method Perform(op: Op<B>, junk: B) returns (out: Outcome, x: Option<B>)
      requires Valid()
      modifies this, buflist
      ensures out == NullPointer ==> Barred(op, old(Recent()))
      ensures out == SeekFailed ==> exists c :: c in old(used) + Uses(op) && Unseekable(c, bs)
      ensures out == Fine ==> Valid() && !Barred(op, old(Recent())) && used == old(used) + Uses(op) && old(sought) <= sought
      ensures out == Fine ==> view == Effect(op, old(view)) && Recent() == RecentOne(op, old(Recent()))
      ensures out == Fine && op.Flush? ==> sought == used && (Placed() ==> device == view)
      ensures out == Fine && Placed() && op.Read? && op.blkno in old(view) ==> x == Some(old(view)[op.blkno])
    {
      hide Distinct, Initial, Overlays, Ranked, Touch, Blocks, NullHit, Sought, Fetched, FarKept, Near;
      x := None;
      match op {
        case Read(b) =>
          NullHitIff(b);
          var y;
          out, y := BRead(b, junk);
          x := Some(y);
        case Write(b, y) =>
          NullHitIff(b);
          out := BWrite(b, y);
        case Flush =>
          out := BFlush();
      }
    }
  }

  // ----- one call -----

  function Uses<B>(op: Op<B>): (r: set<nat>)
  {
    if op.Flush? then {} else {op.blkno}
  }

  function Effect<B>(op: Op<B>, view: map<nat, B>): (r: map<nat, B>)
  {
    if op.Write? then view[op.blkno := op.data] else view
  }

  function RecentOne<B>(op: Op<B>, recent: seq<nat>): (r: seq<nat>)
  {
    if op.Flush? then recent else Touch(recent, op.blkno)
  }

  predicate Barred<B>(op: Op<B>, recent: seq<nat>)
  {
    !op.Flush? && op.blkno == 0 && |recent| < NBUFS
  }

  lemma RunStart<B>(ops: seq<Op<B>>, view: map<nat, B>, recent: seq<nat>)
    ensures var none := ops[..0];
            After(none, view) == view && RecentAfter(none, recent) == recent && Touched(none) == {} && Safe(none, recent)
  {
  }

  lemma RunStep<B>(ops: seq<Op<B>>, view: map<nat, B>, recent: seq<nat>, n: nat)
    requires n < |ops|
    ensures After(ops[..n + 1], view) == Effect(ops[n], After(ops[..n], view))
    ensures RecentAfter(ops[..n + 1], recent) == RecentOne(ops[n], RecentAfter(ops[..n], recent))
    ensures Touched(ops[..n + 1]) == Touched(ops[..n]) + Uses(ops[n])
    ensures Safe(ops[..n + 1], recent) <==> Safe(ops[..n], recent) && !Barred(ops[n], RecentAfter(ops[..n], recent))
  {
    assert ops[..n + 1][..n] == ops[..n];
  }

  lemma RunStops<B>(ops: seq<Op<B>>, recent: seq<nat>, used: set<nat>, n: nat, bs: nat)
    requires n < |ops|
    ensures Barred(ops[n], RecentAfter(ops[..n], recent)) ==> !Safe(ops, recent)
    ensures (exists c :: c in used + Touched(ops[..n]) + Uses(ops[n]) && Unseekable(c, bs)) ==>
              (exists c :: c in used + Touched(ops) && Unseekable(c, bs)) && !AllNear(used + Touched(ops), bs)
  {
    hide After, RecentAfter, Near;
    RunStep(ops, map[], recent, n);
    TouchedPrefix(ops, n + 1);
    forall c | Unseekable(c, bs)
      ensures !Near(c, bs)
    {
      TargetExact(c, bs);
    }
    if Safe(ops, recent) {
      SafePrefix(ops, recent, n + 1);
    }
  }

  lemma PlacedBefore(before: set<nat>, sought: set<nat>, bs: nat)
    requires before <= sought
    ensures AllNear(sought, bs) ==> AllNear(before, bs)
  {
  }

  /** `NullPointer` is a copy from or to a null pointer, `SeekFailed` a transfer at
      whatever place the last one left; what comes of either is not modelled. */
  datatype Outcome = Fine | NullPointer | SeekFailed

  lemma UsedDirty<B>(slots: seq<Slot<B>>, sought: set<nat>, used: set<nat>, v: nat)
    requires Sought(slots, sought, used) && v < |slots| && slots[v].dirty
    ensures slots[v].blkno in used
  {
  }

  lemma SoughtAll<B>(slots: seq<Slot<B>>, sought: set<nat>, used: set<nat>)
    requires Sought(slots, sought, used) && forall i :: 0 <= i < |slots| ==> !slots[i].dirty
    ensures sought == used
  {
  }

  lemma FetchedClean<B>(slots: seq<Slot<B>>, sought: set<nat>, v: nat)
    requires Fetched(slots, sought) && v < |slots|
    ensures Fetched(slots[v := slots[v].(dirty := false)], sought + {slots[v].blkno})
  {
  }

  lemma FetchedHit<B>(slots: seq<Slot<B>>, sought: set<nat>, k: nat, slot: Slot<B>)
    requires Fetched(slots, sought) && k < |slots| && Full(slots[k]) && slot.blkno == slots[k].blkno
    requires slots[k].dirty ==> slot.dirty
    ensures Fetched(slots[k := slot], sought) && (slot.dirty || slot.blkno in sought)
  {
  }

  lemma FetchedReplace<B>(slots: seq<Slot<B>>, sought: set<nat>, v: nat, slot: Slot<B>)
    requires Fetched(slots, sought) && v < |slots|
    ensures Fetched(slots[v := slot], if slot.dirty then sought else sought + {slot.blkno})
  {
  }

  // ----- runs -----

  datatype Op<B> = Read(blkno: nat) | Write(blkno: nat, data: B) | Flush

  /** The flat array after a run. */
  ghost function After<B>(ops: seq<Op<B>>, view: map<nat, B>): (r: map<nat, B>)
  {
    if |ops| == 0 then view
    else
      var n := |ops| - 1;
      var before := After(ops[..n], view);
      if ops[n].Write? then before[ops[n].blkno := ops[n].data] else before
  }

  ghost function RecentAfter<B>(ops: seq<Op<B>>, recent: seq<nat>): (r: seq<nat>)
  {
    if |ops| == 0 then recent
    else
      var n := |ops| - 1;
      var before := RecentAfter(ops[..n], recent);
      if ops[n].Flush? then before else Touch(before, ops[n].blkno)
  }

  /** A read answers with the block as the writes before it left it. */
  ghost predicate Answers<B>(ops: seq<Op<B>>, view: map<nat, B>, i: nat, reply: Option<B>)
    requires i < |ops|
  {
    ops[i].Read? && ops[i].blkno in After(ops[..i], view) ==> reply == Some(After(ops[..i], view)[ops[i].blkno])
  }

  ghost predicate Safe<B>(ops: seq<Op<B>>, recent: seq<nat>)
  {
    if |ops| == 0 then true
    else
      var n := |ops| - 1;
      Safe(ops[..n], recent) && (!ops[n].Flush? && ops[n].blkno == 0 ==> |RecentAfter(ops[..n], recent)| >= NBUFS)
  }

  /** The blocks that a run uses. */
  ghost function Touched<B>(ops: seq<Op<B>>): (r: set<nat>)
  {
    if |ops| == 0 then {}
    else
      var n := |ops| - 1;
      Touched(ops[..n]) + if ops[n].Flush? then {} else {ops[n].blkno}
  }

  lemma {:induction false} TouchedPrefix<B>(ops: seq<Op<B>>, n: nat)
    requires n <= |ops|
    ensures Touched(ops[..n]) <= Touched(ops)
    decreases |ops|
  {
    if n == |ops| {
      assert ops[..n] == ops;
    } else {
      assert ops[..|ops| - 1][..n] == ops[..n];
      TouchedPrefix(ops[..|ops| - 1], n);
    }
  }

  ghost predicate NoRepeats(s: seq<nat>)
  {
    forall k, l :: 0 <= k < l < |s| ==> s[k] != s[l]
  }

  lemma {:induction false} WithoutNoRepeats(s: seq<nat>, x: nat)
    requires NoRepeats(s)
    ensures NoRepeats(Without(s, x)) && |Without(s, x)| == if x in s then |s| - 1 else |s|
  {
    if |s| > 0 {
      WithoutNoRepeats(s[1..], x);
      var rest := Without(s[1..], x);
      assert s[0] !in s[1..];
      if s[0] == x {
        WithoutNone(s[1..], x);
      } else {
        assert forall k :: 0 <= k < |rest| ==> rest[k] in rest && rest[k] != s[0];
      }
    }
  }

  /** What a run has brought into an empty cache: all blocks it has used, or 32 of them. */
  ghost predicate Reflects(recent: seq<nat>, touched: set<nat>)
  {
    && NoRepeats(recent) && |recent| <= NBUFS && Members(recent) <= touched
    && (|recent| < NBUFS ==> Members(recent) == touched)
  }

  lemma TouchReflects(recent: seq<nat>, touched: set<nat>, b: nat)
    requires Reflects(recent, touched)
    ensures Reflects(Touch(recent, b), touched + {b})
  {
    hide Without;
    WithoutNoRepeats(recent, b);
    var s := [b] + Without(recent, b);
    assert NoRepeats(s);
    assert Members(s) == Members(recent) + {b};
    if |s| > NBUFS {
      assert forall x :: x in s[..NBUFS] ==> x in s;
    }
  }

  lemma {:induction false} RunReflects<B>(ops: seq<Op<B>>)
    ensures Reflects(RecentAfter(ops, []), Touched(ops))
  {
    hide Touch, Reflects;
    if |ops| == 0 {
      ReflectsNothing();
    } else {
      var n := |ops| - 1;
      RunReflects(ops[..n]);
      if !ops[n].Flush? {
        TouchReflects(RecentAfter(ops[..n], []), Touched(ops[..n]), ops[n].blkno);
      } else {
        assert Touched(ops[..n]) + {} == Touched(ops[..n]);
      }
    }
  }

  lemma ReflectsNothing()
    ensures Reflects([], {})
  {
    assert Members([]) == {};
  }

  /** After `binit`, block 0 can be used from the time on that 32 different blocks have
      been used, and not before. */
  lemma BlockZeroSafe<B>(ops: seq<Op<B>>)
    ensures |RecentAfter(ops, [])| >= NBUFS <==> |Touched(ops)| >= NBUFS
  {
    hide RecentAfter, Touched;
    RunReflects(ops);
    var r := RecentAfter(ops, []);
    MembersCount(r);
    Subset(Members(r), Touched(ops));
  }

  lemma {:induction false} SafePrefix<B>(ops: seq<Op<B>>, recent: seq<nat>, n: nat)
    requires n <= |ops| && Safe(ops, recent)
    ensures Safe(ops[..n], recent)
    decreases |ops|
  {
    hide RecentAfter;
    if n == |ops| {
      assert ops[..n] == ops;
    } else {
      assert ops[..|ops| - 1][..n] == ops[..n];
      SafePrefix(ops[..|ops| - 1], recent, n);
    }
  }

  /** The slot that has a block is the only one, and it has what the caller sees. */
  lemma TheSlot<B(!new)>(slots: seq<Slot<B>>, device: map<nat, B>, view: map<nat, B>, i: nat)
    requires Distinct(slots) && Overlays(slots, device, view) && i < |slots| && Full(slots[i])
    ensures forall j :: 0 <= j < |slots| && slots[j].dirty ==> Full(slots[j])
    ensures forall j :: 0 <= j < |slots| && j != i && Full(slots[j]) ==> slots[j].blkno != slots[i].blkno
    ensures slots[i].blkno in view ==> view[slots[i].blkno] == slots[i].data.value
  {
    var b := slots[i].blkno;
    if !slots[i].dirty {
      assert !Pending(slots, b);
    }
  }

  /** A block that no slot has is on the device as the caller sees it. */
  lemma NoSlot<B(!new)>(slots: seq<Slot<B>>, device: map<nat, B>, view: map<nat, B>, b: nat)
    requires Distinct(slots) && Overlays(slots, device, view) && forall j :: 0 <= j < |slots| ==> slots[j].blkno != b
    ensures forall j :: 0 <= j < |slots| && slots[j].dirty ==> Full(slots[j])
    ensures b in view <==> b in device
    ensures b in view ==> view[b] == device[b]
  {
    assert !Pending(slots, b);
  }

  lemma CleanKeeps<B>(slots: seq<Slot<B>>, order: seq<nat>, counter: nat, v: nat)
    requires Distinct(slots) && Initial(slots) && Ranked(slots, order, counter) && v < |slots|
    ensures var slots' := slots[v := slots[v].(dirty := false)];
            Distinct(slots') && Initial(slots') && Ranked(slots', order, counter)
  {
  }

  lemma TagKeeps<B>(slots: seq<Slot<B>>, k: nat, slot: Slot<B>)
    requires Distinct(slots) && Initial(slots) && k < |slots| && Full(slot)
    requires (Full(slots[k]) && slots[k].blkno == slot.blkno) || forall j :: 0 <= j < |slots| ==> slots[j].blkno != slot.blkno
    ensures Distinct(slots[k := slot]) && Initial(slots[k := slot])
  {
  }

  lemma TouchSlot<B(!new)>(slots: seq<Slot<B>>, device: map<nat, B>, view: map<nat, B>, k: nat, last: nat)
    requires Overlays(slots, device, view) && k < |slots|
    ensures Overlays(slots[k := slots[k].(last := last)], device, view)
  {
    var slots' := slots[k := slots[k].(last := last)];
    forall b
      ensures Pending(slots', b) <==> Pending(slots, b)
    {
      if Pending(slots, b) {
        var i :| 0 <= i < |slots| && slots[i].dirty && slots[i].blkno == b;
        assert slots'[i].dirty && slots'[i].blkno == b;
      }
    }
  }

  lemma NullTag<B>(slots: seq<Slot<B>>, i: nat)
    requires Initial(slots) && i < |slots| && slots[i].blkno == 0
    requires exists j :: 0 <= j < |slots| && !Full(slots[j])
    ensures !Full(slots[i])
  {
  }
}
