/** Opening a table (zip/inflate.c:235-278): how wide it becomes, and that linking
    it in keeps the invariant of the building loop. */
module HuftOpen {
  import opened Bits
  import opened CanonicalCode
  import opened HuftPlan
  import opened HuftTables
  import opened HuftSteps

  /** The code `i` of `k` bits does not fit the innermost open table, and nothing
      has been placed below its first `st.w + l` bits yet. */
  ghost predicate MustOpen(pl: Plan, pool: Pool, info: seq<Info>, st: Stack, i: nat, k: nat, done: nat)
    requires Sized(pl) && Shape(pl, pool, info)
  {
    && StackOk(pl, pool, info, st)
    && Closed(pl, info, st, done)
    && 0 <= st.w + pl.l < k <= pl.g
    && i < Pow2(st.w + pl.l)
    && done == Rev(pl.g, i) && Cum(pl.cnt, pl.g, k - 1) <= done
    && (st.h >= 0 ==> 0 <= st.w && Low(i, st.w) == st.x[st.h])
  }

  function Linked(pl: Plan, pool: Pool, st: Stack, i: nat, j: nat): (r: Pool)
    requires st.h >= 0 ==> st.h < |st.u| && st.u[st.h] < |pool| && st.w >= 0 && Shr(i, st.w) < |pool[st.u[st.h]]|
  {
    if st.h < 0 then pool
    else pool[st.u[st.h] := pool[st.u[st.h]][Shr(i, st.w) := Sub(j, pl.l, |pool|)]]
  }

  function FreshTable(j: nat): (r: seq<Huft>)
    ensures |r| == Pow2(j) && forall n :: 0 <= n < |r| ==> r[n] == Unset
  {
    seq(Pow2(j), _ => Unset)
  }

  function Push(pl: Plan, st: Stack, n: nat, i: nat): (r: Stack)
    requires |st.x| == BMAX + 1 && |st.u| == BMAX && -1 <= st.h < BMAX - 1
  {
    Stack(st.h + 1, st.w + pl.l, st.x[st.h + 1 := i], st.u[st.h + 1 := n])
  }

  /** A table that must be descended from is at least as wide as the stride. */
  lemma LinkFits(pl: Plan, pool: Pool, info: seq<Info>, st: Stack, i: nat, k: nat, done: nat)
    requires Sized(pl) && PlanOk(pl) && Shape(pl, pool, info) && MustOpen(pl, pool, info, st, i, k, done) && st.h >= 0
    ensures info[st.u[st.h]].w == st.w && info[st.u[st.h]].pfx == Low(i, st.w)
    ensures info[st.u[st.h]].width >= pl.l
    ensures Shr(i, st.w) < Pow2(pl.l) <= |pool[st.u[st.h]]|
    ensures done < EndOf(pl, info[st.u[st.h]])
  {
    hide Low, Shr, Rev, LenAt, PayloadAt, Cum, LevelLink, PlanOk, Pow2;
    var ti := info[st.u[st.h]];
    assert LevelOk(pl, info, st, st.h);
    assert InfoOk(pl, ti);
    UnderRange(pl, ti, i);
    if ti.width < pl.l {
      CumMono(pl.cnt, pl.g, ti.w + ti.width, k - 1);
    }
    ShrBound(i, st.w, pl.l);
    Pow2Mono(pl.l, ti.width);
  }

  /** Only strings that start with `i` see the new link. */
  lemma LinkFrame(pl: Plan, pool: Pool, info: seq<Info>, st: Stack, i: nat, k: nat, done: nat, j: nat, t: nat, v: nat)
    requires Sized(pl) && PlanOk(pl) && Shape(pl, pool, info) && MustOpen(pl, pool, info, st, i, k, done)
    requires st.h >= 0 ==> Shr(i, st.w) < |pool[st.u[st.h]]|
    requires t < |info| && Under(info[t], v)
    requires Low(v, st.w + pl.l) != i || Slot(info[t], v) >= Pow2(pl.l)
    ensures Linked(pl, pool, st, i, j)[t][Slot(info[t], v)] == pool[t][Slot(info[t], v)]
  {
    hide Pow2, Low, Shr, Rev, PlanOk, LenAt, PayloadAt, Cum, InfoOk, LevelOk, LevelLink;
    if st.h >= 0 && t == st.u[st.h] {
      LinkFits(pl, pool, info, st, i, k, done);
      if Slot(info[t], v) < Pow2(pl.l) {
        SlotMatch(info[t], v, i, st.w + pl.l);
        LowSmall(Slot(info[t], v), pl.l);
      }
    }
  }

  lemma EntryFrame(pl: Plan, pool: Pool, info: seq<Info>, pool': Pool, info': seq<Info>, t: nat, v: nat)
    requires Sized(pl) && PlanOk(pl) && Shape(pl, pool, info) && Shape(pl, pool', info')
    requires info <= info' && t < |info|
    requires EntryOk(pl, pool, info, t, v)
    requires pool'[t][Slot(info[t], v)] == pool[t][Slot(info[t], v)]
    ensures EntryOk(pl, pool', info', t, v)
  {
    hide Pow2, Low, Shr, Rev, PlanOk, LenAt, PayloadAt, Cum, InfoOk;
  }

  ghost predicate IsOpen(pl: Plan, pool: Pool, info: seq<Info>, st: Stack, i: nat, j: nat,
                         pool': Pool, info': seq<Info>, st': Stack)
    requires Sized(pl) && Shape(pl, pool, info) && StackOk(pl, pool, info, st)
  {
    && (st.h >= 0 ==> st.w >= 0 && Shr(i, st.w) < |pool[st.u[st.h]]|)
    && pool' == Linked(pl, pool, st, i, j) + [FreshTable(j)]
    && 0 <= st.w + pl.l && st.h < BMAX - 1
    && info' == info + [Info(st.h + 1, st.w + pl.l, i, j)]
    && st' == Push(pl, st, |pool|, i)
  }

  lemma OpenShape(pl: Plan, pool: Pool, info: seq<Info>, st: Stack, i: nat, j: nat,
                  pool': Pool, info': seq<Info>, st': Stack)
    requires Sized(pl) && PlanOk(pl) && Shape(pl, pool, info) && StackOk(pl, pool, info, st)
    requires IsOpen(pl, pool, info, st, i, j, pool', info', st')
    requires InfoOk(pl, info'[|info|])
    ensures Shape(pl, pool', info')
  {
  }

  lemma OpenFilled(pl: Plan, pool: Pool, info: seq<Info>, st: Stack, i: nat, k: nat, done: nat, j: nat,
                   pool': Pool, info': seq<Info>, st': Stack)
    requires Sized(pl) && PlanOk(pl) && Shape(pl, pool, info) && MustOpen(pl, pool, info, st, i, k, done)
    requires IsOpen(pl, pool, info, st, i, j, pool', info', st') && Shape(pl, pool', info')
    requires Filled(pl, pool, info, done)
    ensures Filled(pl, pool', info', done)
  {
    hide Pow2, Low, Shr, Rev, PlanOk, LenAt, PayloadAt, Cum, InfoOk, EntryOk, LevelOk, LevelLink;
    forall t, v | 0 <= t < |info'| && 0 <= v < Pow2(pl.g) && Under(info'[t], v) && Rev(pl.g, v) < done
      ensures EntryOk(pl, pool', info', t, v)
    {
      RevBlock(st.w + pl.l, pl.g, i, v);
      assert t < |info|;
      LinkFrame(pl, pool, info, st, i, k, done, j, t, v);
      assert EntryOk(pl, pool, info, t, v);
      EntryFrame(pl, pool, info, pool', info', t, v);
    }
  }

  lemma OpenHoles(pl: Plan, pool: Pool, info: seq<Info>, st: Stack, i: nat, k: nat, done: nat, j: nat,
                  pool': Pool, info': seq<Info>, st': Stack)
    requires Sized(pl) && PlanOk(pl) && Shape(pl, pool, info) && MustOpen(pl, pool, info, st, i, k, done)
    requires IsOpen(pl, pool, info, st, i, j, pool', info', st') && Shape(pl, pool', info')
    requires Holes(pl, pool, info)
    ensures Holes(pl, pool', info')
  {
    hide Pow2, Low, Shr, Rev, PlanOk, LenAt, PayloadAt, Cum, InfoOk, LevelOk, LevelLink;
    forall t, v | 0 <= t < |info'| && 0 <= v < Pow2(pl.g) && Under(info'[t], v)
      ensures Unwritten(pl, pool', info', t, v)
    {
      if t < |info| {
        assert Unwritten(pl, pool, info, t, v);
        if Slot(info[t], v) >= Pow2(pl.l) {
          LinkFrame(pl, pool, info, st, i, k, done, j, t, v);
        }
      }
    }
  }

  lemma OpenLevel(pl: Plan, pool: Pool, info: seq<Info>, st: Stack, i: nat, k: nat, done: nat, j: nat,
                  pool': Pool, info': seq<Info>, st': Stack, lv: nat)
    requires Sized(pl) && PlanOk(pl) && Shape(pl, pool, info) && MustOpen(pl, pool, info, st, i, k, done)
    requires IsOpen(pl, pool, info, st, i, j, pool', info', st') && Shape(pl, pool', info')
    requires lv <= st'.h
    ensures StackShape(|info'|, st') && LevelOk(pl, info', st', lv)
  {
    hide Pow2, Low, Shr, Rev, PlanOk, LenAt, PayloadAt, Cum, InfoOk;
    LowSmall(i, st.w + pl.l);
    if lv <= st.h {
      assert LevelOk(pl, info, st, lv) && LevelOk(pl, info, st, st.h);
      LowLow(i, info[st.u[lv]].w, st.w);
    } else if st.h >= 0 {
      assert LevelOk(pl, info, st, st.h);
    }
  }

  lemma OpenLink(pl: Plan, pool: Pool, info: seq<Info>, st: Stack, i: nat, k: nat, done: nat, j: nat,
                  pool': Pool, info': seq<Info>, st': Stack, lv: nat)
    requires Sized(pl) && PlanOk(pl) && Shape(pl, pool, info) && MustOpen(pl, pool, info, st, i, k, done)
    requires IsOpen(pl, pool, info, st, i, j, pool', info', st') && Shape(pl, pool', info')
    requires lv < st'.h
    ensures StackShape(|info'|, st') && LevelLink(pl, pool', info', st', lv)
  {
    hide Pow2, Low, Shr, Rev, PlanOk, LenAt, PayloadAt, Cum, InfoOk;
    assert LevelOk(pl, info, st, lv);
    if lv < st.h {
      assert LevelOk(pl, info, st, lv + 1) && LevelOk(pl, info, st, st.h);
      assert LevelLink(pl, pool, info, st, lv);
    } else {
      LinkFits(pl, pool, info, st, i, k, done);
    }
  }

  lemma OpenStack(pl: Plan, pool: Pool, info: seq<Info>, st: Stack, i: nat, k: nat, done: nat, j: nat,
                  pool': Pool, info': seq<Info>, st': Stack)
    requires Sized(pl) && PlanOk(pl) && Shape(pl, pool, info) && MustOpen(pl, pool, info, st, i, k, done)
    requires IsOpen(pl, pool, info, st, i, j, pool', info', st') && Shape(pl, pool', info')
    ensures StackOk(pl, pool', info', st')
    ensures Low(i, st'.w) == i
  {
    LowSmall(i, st.w + pl.l);
    forall lv | 0 <= lv <= st'.h
      ensures StackShape(|info'|, st') && LevelOk(pl, info', st', lv)
    {
      OpenLevel(pl, pool, info, st, i, k, done, j, pool', info', st', lv);
    }
    forall lv | 0 <= lv < st'.h
      ensures StackShape(|info'|, st') && LevelLink(pl, pool', info', st', lv)
    {
      OpenLink(pl, pool, info, st, i, k, done, j, pool', info', st', lv);
    }
  }

  lemma OpenClosed(pl: Plan, pool: Pool, info: seq<Info>, st: Stack, i: nat, k: nat, done: nat, j: nat,
                   pool': Pool, info': seq<Info>, st': Stack)
    requires Sized(pl) && PlanOk(pl) && Shape(pl, pool, info) && MustOpen(pl, pool, info, st, i, k, done)
    requires IsOpen(pl, pool, info, st, i, j, pool', info', st') && Shape(pl, pool', info')
    ensures Closed(pl, info', st', done)
  {
    hide Pow2, Low, Shr, Rev, PlanOk, LenAt, PayloadAt, Cum;
    forall t | 0 <= t < |info'| && done < EndOf(pl, info'[t])
      ensures OnStack(info', st', t)
    {
      if t < |info| {
        assert OnStack(info, st, t);
      }
    }
  }
}
