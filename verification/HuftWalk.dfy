/** Walking the finished tables (zip/inflate.c:372-381): exactly which code sets
    are decoded as the canonical code prescribes. */
module HuftWalk {
  import opened Bits
  import opened CanonicalCode
  import opened HuftPlan
  import opened HuftTables
  import opened HuftBuild

  /** No sub-table is wider than the stride. */
  ghost predicate NoOverwide(pl: Plan)
    requires Sized(pl)
  {
    forall w, i :: 0 < w < pl.g && Stride(pl.l, w) && 0 <= i < Pow2(w) ==> !Overwide(pl, w, Rev(pl.g, i))
  }

  ghost predicate IsTables(pl: Plan, pool: Pool)
    requires Sized(pl)
  {
    exists info :: Complete(pl, pool, info)
  }

  /** What the tables should answer for the coming bits `v`. */
  function Expected(pl: Plan, v: nat): (r: WalkResult)
    requires Sized(pl)
  {
    Hit(PayloadAt(pl, Rev(pl.g, v)), LenAt(pl, Rev(pl.g, v)))
  }

  // ----- the base table -----

  lemma BaseWidth(pl: Plan, pool: Pool, info: seq<Info>)
    requires Sized(pl) && PlanOk(pl) && Complete(pl, pool, info)
    ensures info[0].width >= pl.l && info[0].pfx == 0 && |pool[0]| == Pow2(info[0].width)
  {
    hide Low, Rev, Filled, Holes, LenAt;
    assert InfoOk(pl, info[0]);
    RevShort(0, pl.g, 0);
    if info[0].width < pl.l {
      CumBelow(pl, info[0].width);
    }
  }

  /** The element selected by the first `l` bits does not depend on the later ones. */
  lemma BaseSlot(pl: Plan, pool: Pool, info: seq<Info>, v: nat)
    requires Sized(pl) && PlanOk(pl) && Complete(pl, pool, info)
    ensures var v0 := Low(v, pl.l);
            && v0 < Pow2(pl.l) <= |pool[0]| && v0 < Pow2(pl.g)
            && Slot(info[0], v0) == v0 && Under(info[0], v0)
            && EntryOk(pl, pool, info, 0, v0)
  {
    hide Rev, LenAt, PlanOk, EntryOk, InfoOk, Cum, Holes;
    var v0 := Low(v, pl.l);
    BaseWidth(pl, pool, info);
    LowBound(v, pl.l);
    Pow2Mono(pl.l, info[0].width);
    Pow2Mono(pl.l, pl.g);
    LowSmall(v0, info[0].width);
    RevBound(pl.g, v0);
  }

  /** Cutting a string after `l` bits keeps its owner, if that has at most `l` bits. */
  lemma CutOwner(pl: Plan, v: nat)
    requires Sized(pl) && PlanOk(pl)
    ensures var k, k0 := LenAt(pl, Rev(pl.g, v)), LenAt(pl, Rev(pl.g, Low(v, pl.l)));
            && (k <= pl.l <==> k0 <= pl.l)
            && (k <= pl.l ==> Expected(pl, v) == Expected(pl, Low(v, pl.l)))
  {
    hide Rev, LenAt, PlanOk, PayloadAt, Low;
    var v0 := Low(v, pl.l);
    var k, k0 := LenAt(pl, Rev(pl.g, v)), LenAt(pl, Rev(pl.g, v0));
    if k <= pl.l {
      LowLow(v, k, pl.l);
      SameOwner(pl, v, v0);
    }
    if k0 <= pl.l {
      LowLow(v, k0, pl.l);
      SameOwner(pl, v0, v);
    }
  }

  // ----- decoding -----

  /** Bits past the longest code change nothing. */
  lemma CutLong(pl: Plan, ti: Info, v: nat)
    requires Sized(pl) && ti.w + ti.width <= pl.g
    ensures var v' := Low(v, pl.g);
            && v' < Pow2(pl.g) && Rev(pl.g, v') == Rev(pl.g, v)
            && Slot(ti, v') == Slot(ti, v)
            && (Under(ti, v') <==> Under(ti, v))
  {
    hide Rev, Low, Shr, Pow2;
    LowBound(v, pl.g);
    RevLow(pl.g, v, pl.g);
    LowLow(v, ti.w, pl.g);
    ShrLow(v, ti.w, pl.g - ti.w);
    LowLow(Shr(v, ti.w), ti.width, pl.g - ti.w);
  }

  /** From a sub-table, when no sub-table is too wide. */
  lemma {:induction false} WalkSub(pl: Plan, pool: Pool, info: seq<Info>, t: nat, v: nat)
    requires Sized(pl) && PlanOk(pl) && Complete(pl, pool, info) && NoOverwide(pl)
    requires t < |info| && Under(info[t], v) && info[t].w > 0
    ensures Walk(pool, t, info[t].width, Shr(v, info[t].w), info[t].w) == Expected(pl, v)
    decreases pl.g - info[t].w
  {
    hide Rev, LenAt, PlanOk, PayloadAt, Low, Shr, Pow2, Holes, Overwide, Slot;
    var ti := info[t];
    assert InfoOk(pl, ti);
    CutLong(pl, ti, v);
    var v' := Low(v, pl.g);
    RevBound(pl.g, v);
    assert EntryOk(pl, pool, info, t, v');
    SlotIs(ti, v);
    if LenAt(pl, Rev(pl.g, v)) > ti.w + pl.l {
      assert !Overwide(pl, ti.w, Rev(pl.g, ti.pfx));
      var next := pool[t][Slot(ti, v)].t;
      ShrShr(v, ti.w, pl.l);
      LowLow(v, ti.w + pl.l, pl.g);
      WalkSub(pl, pool, info, next, v);
    }
  }

  lemma SlotIs(ti: Info, v: nat)
    ensures Slot(ti, v) == Low(Shr(v, ti.w), ti.width)
  {
  }

  /** Every bit string is decoded as expected when no sub-table is too wide. */
  lemma WalkBase(pl: Plan, pool: Pool, info: seq<Info>, v: nat)
    requires Sized(pl) && PlanOk(pl) && Complete(pl, pool, info) && NoOverwide(pl)
    ensures Walk(pool, 0, pl.l, v, 0) == Expected(pl, v)
  {
    hide Rev, LenAt, PlanOk, PayloadAt, Low, Shr, Pow2, Holes, Overwide, Filled, InfoOk, NoOverwide;
    var v0 := Low(v, pl.l);
    BaseSlot(pl, pool, info, v);
    CutOwner(pl, v);
    if LenAt(pl, Rev(pl.g, v)) > pl.l {
      LowLow(v, pl.l, pl.l);
      ShrZero(v);
      WalkSub(pl, pool, info, pool[0][v0].t, v);
    }
  }

  lemma ShrZero(v: nat)
    ensures Shr(v, 0) == v
  {
  }

  // ----- when a sub-table is too wide -----

  /** The string that starts with the `w` bits of `i` and goes on with ones. */
  function Ones(w: nat, i: nat, g: nat): (v: nat)
    requires w <= g
  {
    if g == w then i else Ones(w, i, g - 1) + Pow2(g - 1)
  }

  lemma {:induction false} OnesLow(w: nat, i: nat, g: nat)
    requires w <= g && i < Pow2(w)
    ensures Ones(w, i, g) < Pow2(g) && Low(Ones(w, i, g), w) == i
  {
    if g == w {
      LowSmall(i, w);
    } else {
      OnesLow(w, i, g - 1);
      LowJoin(Ones(w, i, g - 1), 1, g - 1);
      LowLow(Ones(w, i, g), w, g - 1);
    }
  }

  lemma {:induction false} OnesBit(w: nat, i: nat, g: nat, t: nat)
    requires w <= t < g && i < Pow2(w)
    ensures Bit(Ones(w, i, g), t) == 1
  {
    OnesLow(w, i, g - 1);
    LowJoin(Ones(w, i, g - 1), 1, g - 1);
    if t < g - 1 {
      OnesBit(w, i, g - 1, t);
      BitOfLow(Ones(w, i, g), t, g - 1);
    }
  }

  lemma {:induction false} OnesRev(w: nat, i: nat, g: nat)
    requires w <= g && i < Pow2(w)
    ensures Rev(g, Ones(w, i, g)) == Rev(w, i) * Pow2(g - w) + Pow2(g - w) - 1
  {
    hide Low, Shr;
    if w < g {
      OnesRev(w, i, g - 1);
      OnesLow(w, i, g - 1);
      LowJoin(Ones(w, i, g - 1), 1, g - 1);
      RevLow(g - 1, Ones(w, i, g), g - 1);
      MulDouble(Rev(w, i), Pow2(g - 1 - w));
    }
  }

  lemma {:induction false} StrideGap(l: nat, a: nat, b: nat)
    requires l > 0 && Stride(l, a) && Stride(l, b) && a <= b
    ensures a == b || a + l <= b
  {
    if a > 0 {
      StrideGap(l, a - l, b - l);
    }
  }

  /** A string all of whose later bits are ones selects a high element of a wide table. */
  lemma HighSlot(pl: Plan, ti: Info, i: nat, v: nat)
    requires Sized(pl) && i < Pow2(ti.w) && ti.w + ti.width <= pl.g && v == Ones(ti.w, i, pl.g)
    requires ti.width > pl.l
    ensures Slot(ti, v) >= Pow2(pl.l)
  {
    hide Ones, Low, Shr, Pow2;
    OnesBit(ti.w, i, pl.g, ti.w + pl.l);
    BitOfShr(v, ti.w, pl.l);
    BitOfLow(Shr(v, ti.w), pl.l, ti.width);
    if Slot(ti, v) < Pow2(pl.l) {
      BitOfSmall(Slot(ti, v), pl.l);
    }
  }

  /** Such a string gets lost on its way down, at the latest in the wide table. */
  lemma {:induction false} LostSub(pl: Plan, pool: Pool, info: seq<Info>, t: nat, w: nat, i: nat, v: nat)
    requires Sized(pl) && PlanOk(pl) && Complete(pl, pool, info)
    requires Stride(pl.l, w) && w < pl.g && i < Pow2(w) && Overwide(pl, w, Rev(pl.g, i))
    requires v == Ones(w, i, pl.g) && v < Pow2(pl.g) && LenAt(pl, Rev(pl.g, v)) > w + pl.l && Low(v, w) == i
    requires t < |info| && Under(info[t], v) && 0 < info[t].w <= w
    ensures Walk(pool, t, info[t].width, Shr(v, info[t].w), info[t].w) == Lost
    decreases pl.g - info[t].w
  {
    hide Rev, LenAt, PlanOk, PayloadAt, Low, Shr, Pow2, Overwide, Ones;
    var ti := info[t];
    assert InfoOk(pl, ti);
    RevBound(pl.g, v);
    assert EntryOk(pl, pool, info, t, v) && Unwritten(pl, pool, info, t, v);
    StrideGap(pl.l, ti.w, w);
    if ti.w == w {
      HighSlot(pl, ti, i, v);
    } else if Slot(ti, v) < Pow2(pl.l) {
      ShrShr(v, ti.w, pl.l);
      LostSub(pl, pool, info, pool[t][Slot(ti, v)].t, w, i, v);
    }
  }

  lemma OverwideOwner(pl: Plan, w: nat, i: nat)
    requires Sized(pl) && w <= pl.g && i < Pow2(w) && Overwide(pl, w, Rev(pl.g, i))
    ensures LenAt(pl, Rev(pl.g, Ones(w, i, pl.g))) > w + pl.l
  {
    hide LenAt, Pow2;
    OnesRev(w, i, pl.g);
    RevShort(w, pl.g, i);
  }

  lemma LostBase(pl: Plan, pool: Pool, info: seq<Info>, w: nat, i: nat)
    requires Sized(pl) && PlanOk(pl) && Complete(pl, pool, info)
    requires Stride(pl.l, w) && 0 < w < pl.g && i < Pow2(w) && Overwide(pl, w, Rev(pl.g, i))
    ensures Ones(w, i, pl.g) < Pow2(pl.g)
    ensures Walk(pool, 0, pl.l, Ones(w, i, pl.g), 0) == Lost
  {
    hide Rev, LenAt, PlanOk, PayloadAt, Low, Shr, Pow2, Holes, Overwide, Filled, InfoOk, Ones;
    var v := Ones(w, i, pl.g);
    OnesLow(w, i, pl.g);
    OverwideOwner(pl, w, i);
    BaseSlot(pl, pool, info, v);
    CutOwner(pl, v);
    LowLow(v, pl.l, pl.l);
    LostSub(pl, pool, info, pool[0][Low(v, pl.l)].t, w, i, v);
  }

  /** The tables decode every bit string correctly exactly when no prefix is in
      the family for which the builder makes a sub-table wider than its stride. */
  lemma TablesExact(pl: Plan, pool: Pool)
    requires Sized(pl) && PlanOk(pl) && IsTables(pl, pool)
    ensures NoOverwide(pl) <==>
            forall v: nat :: Walk(pool, 0, pl.l, v, 0) == Expected(pl, v)
  {
    hide Rev, PlanOk, Low, Shr, Pow2, Overwide, Ones, Complete, Walk;
    var info: seq<Info> :| Complete(pl, pool, info);
    if NoOverwide(pl) {
      forall v: nat
        ensures Walk(pool, 0, pl.l, v, 0) == Expected(pl, v)
      {
        WalkBase(pl, pool, info, v);
      }
    } else {
      var w, i :| 0 < w < pl.g && Stride(pl.l, w) && 0 <= i < Pow2(w) && Overwide(pl, w, Rev(pl.g, i));
      LostBase(pl, pool, info, w, i);
    }
  }

  // ----- symbols -----

  /** A string that starts with the code of a symbol is decoded to that symbol.  One
      that starts with no code is decoded to a dummy code: to an unset element, if its
      distance from the real codes is less than the number of symbols without a code,
      and otherwise to the marker for an invalid code. */
  lemma ExpectedIsCanonical(pl: Plan, v: nat)
    requires Sized(pl) && PlanOk(pl)
    ensures forall s :: 0 <= s < |pl.lens| && StartsWith(pl.lens, v, s) ==>
              Expected(pl, v) == Hit(SymPayload(pl.al, s), pl.lens[s])
    ensures (forall s :: 0 <= s < |pl.lens| ==> !StartsWith(pl.lens, v, s)) ==>
              Expected(pl, v) ==
              Hit(if Rev(pl.g, v) - Kraft(pl.lens, pl.g, pl.g) < Count(pl.lens, 0) then Stale else Invalid, pl.g)
  {
    hide Rev, LenAt, PlanOk, StartsWith, IdxAt, Count, Kraft;
    forall s | 0 <= s < |pl.lens| && StartsWith(pl.lens, v, s)
      ensures Expected(pl, v) == Hit(SymPayload(pl.al, s), pl.lens[s])
    {
      OwnerIsSymbol(pl, v, s);
    }
    if forall s :: 0 <= s < |pl.lens| ==> !StartsWith(pl.lens, v, s) {
      FillerIs(pl, v);
    }
  }

  // ----- the elements of the tables -----

  /** What the lookup loop relies on: codes and links take at least one bit and
      no more than the index had, and links lead to tables at most `l` bits wide. */
  ghost predicate SlimEntry(pool: Pool, l: nat, t: nat, ent: Huft)
    requires t < |pool|
  {
    && (ent.Leaf? ==> 1 <= ent.b <= l && Pow2(ent.b) <= |pool[t]|)
    && (ent.Sub? ==>
          && ent.b == l && Pow2(l) <= |pool[t]|
          && 1 <= ent.width <= l && t < ent.t < |pool| && |pool[ent.t]| == Pow2(ent.width))
  }

  ghost predicate Slim(pool: Pool, l: nat)
  {
    forall t, j :: 0 <= t < |pool| && 0 <= j < |pool[t]| ==> SlimEntry(pool, l, t, pool[t][j])
  }

  /** The string that selects element `j` of table `t`. */
  lemma Selector(pl: Plan, ti: Info, j: nat) returns (v: nat)
    requires Sized(pl) && InfoOk(pl, ti) && j < Pow2(ti.width)
    ensures v < Pow2(pl.g) && Under(ti, v) && Slot(ti, v) == j
  {
    hide Low, Shr, Pow2, Rev, Overwide, Cum;
    v := ti.pfx + j * Pow2(ti.w);
    LowJoin(ti.pfx, j, ti.w);
    LowSmall(j, ti.width);
    Pow2Add(ti.w, ti.width);
    Pow2Mono(ti.w + ti.width, pl.g);
    MulMono(Pow2(ti.w), j + 1, Pow2(ti.width));
    MulDist(j, 1, Pow2(ti.w));
  }

  lemma TablesSlim(pl: Plan, pool: Pool, info: seq<Info>, t: nat, j: nat)
    requires Sized(pl) && PlanOk(pl) && Complete(pl, pool, info) && NoOverwide(pl)
    requires t < |pool| && j < |pool[t]|
    ensures SlimEntry(pool, pl.l, t, pool[t][j])
    ensures t == 0 ==> (j < Pow2(pl.l) ==> pool[t][j] != Unset)
    ensures t > 0 && info[t].w > 0 ==> pool[t][j] != Unset
  {
    hide Low, Shr, Pow2, Rev, LenAt, PayloadAt, PlanOk, Overwide;
    assert InfoOk(pl, info[t]);
    var v := Selector(pl, info[t], j);
    RevBound(pl.g, v);
    assert EntryOk(pl, pool, info, t, v) && Unwritten(pl, pool, info, t, v);
    assert pool[t][j].Sub? ==> InfoOk(pl, info[pool[t][j].t]);
    if pool[t][j].Leaf? {
      Pow2Mono(pool[t][j].b, info[t].width);
    } else if pool[t][j].Sub? {
      Pow2Mono(pl.l, info[t].width);
    }
  }
}
