/** The steps of the table-building loop (zip/inflate.c:226-316) keep its invariant:
    writing the elements of one code, backing up over finished tables, and
    opening new ones. */
module HuftSteps {
  import opened Bits
  import opened CanonicalCode
  import opened HuftPlan
  import opened HuftTables

  /** The open tables, outermost first: `h`, `w`, and the stacks `x[]` (the bits in
      front of each open table) and `u[]` (the tables). */
  datatype Stack = Stack(h: int, w: int, x: seq<nat>, u: seq<nat>)

  ghost predicate OnStack(info: seq<Info>, st: Stack, t: nat)
    requires t < |info|
  {
    info[t].lv <= st.h && info[t].lv < |st.u| && st.u[info[t].lv] == t
  }

  ghost predicate StackShape(n: nat, st: Stack)
  {
    && |st.x| == BMAX + 1 && |st.u| == BMAX && -1 <= st.h < BMAX
    && (forall lv :: 0 <= lv <= st.h ==> st.u[lv] < n)
  }

  ghost predicate LevelOk(pl: Plan, info: seq<Info>, st: Stack, lv: nat)
    requires StackShape(|info|, st) && lv <= st.h
  {
    var ti := info[st.u[lv]];
    && ti.lv == lv <= ti.w && ti.pfx == st.x[lv]
    && (lv == 0 ==> ti.w == 0 && st.u[0] == 0)
    && (lv == st.h ==> ti.w == st.w)
    && (lv < st.h ==> ti.w + pl.l <= st.w)
    && Low(st.x[st.h], ti.w) == st.x[lv]
  }

  ghost predicate LevelLink(pl: Plan, pool: Pool, info: seq<Info>, st: Stack, lv: nat)
    requires StackShape(|info|, st) && |pool| == |info| && lv < st.h
  {
    var ti, tj := info[st.u[lv]], info[st.u[lv + 1]];
    var j := Shr(st.x[lv + 1], ti.w);
    && st.u[lv] < st.u[lv + 1]
    && tj.w == ti.w + pl.l
    && ti.width >= pl.l
    && j < Pow2(pl.l) && j < |pool[st.u[lv]]|
    && pool[st.u[lv]][j] == Sub(tj.width, pl.l, st.u[lv + 1])
  }

  ghost predicate StackOk(pl: Plan, pool: Pool, info: seq<Info>, st: Stack)
    requires |pool| == |info|
  {
    && StackShape(|info|, st)
    && (st.h == -1 ==> st.w + pl.l == 0 && |info| == 0)
    && (forall lv :: 0 <= lv <= st.h ==> LevelOk(pl, info, st, lv))
    && (forall lv :: 0 <= lv < st.h ==> LevelLink(pl, pool, info, st, lv))
  }

  /** A table whose range is not used up is still open. */
  ghost predicate Closed(pl: Plan, info: seq<Info>, st: Stack, done: nat)
    requires forall t :: 0 <= t < |info| ==> info[t].w <= pl.g
  {
    forall t :: 0 <= t < |info| && done < EndOf(pl, info[t]) ==> OnStack(info, st, t)
  }

  // ----- writing the elements of one code -----

  /** Code `i` of `k` bits is about to go into the innermost open table, `q`. */
  ghost predicate Ready(pl: Plan, pool: Pool, info: seq<Info>, st: Stack, q: nat, i: nat, k: nat, done: nat)
    requires Sized(pl) && Shape(pl, pool, info)
  {
    && StackOk(pl, pool, info, st) && st.h >= 0
    && q == st.u[st.h] && q < |info| && info[q].w == st.w && info[q].pfx == st.x[st.h]
    && Closed(pl, info, st, done)
    && k <= pl.g && st.w < k <= st.w + pl.l
    && k <= st.w + info[q].width
    && i < Pow2(k) && done == Rev(pl.g, i)
    && Low(i, info[q].w) == info[q].pfx
  }

  ghost predicate Owned(pl: Plan, done: nat, k: nat, what: Payload)
    requires Sized(pl) && k <= pl.g
  {
    forall p :: done <= p < done + Pow2(pl.g - k) ==> LenAt(pl, p) == k && PayloadAt(pl, p) == what
  }

  ghost predicate IsFill(pool: Pool, pool': Pool, q: nat, i: nat, w: nat, k: nat, what: Payload)
    requires q < |pool| && w <= k
  {
    && |pool'| == |pool|
    && (forall t :: 0 <= t < |pool| && t != q ==> pool'[t] == pool[t])
    && |pool'[q]| == |pool[q]|
    && (forall j :: 0 <= j < |pool[q]| ==>
          pool'[q][j] == if Low(j, k - w) == Shr(i, w) then Leaf(k - w, what) else pool[q][j])
  }

  /** Elements chosen by earlier positions are not touched. */
  lemma FillOld(pl: Plan, pool: Pool, pool': Pool, info: seq<Info>, st: Stack, q: nat, i: nat, k: nat,
                done: nat, what: Payload, t: nat, v: nat)
    requires Sized(pl) && PlanOk(pl) && Shape(pl, pool, info) && Shape(pl, pool', info)
    requires Ready(pl, pool, info, st, q, i, k, done)
    requires IsFill(pool, pool', q, i, info[q].w, k, what)
    requires t < |info| && Under(info[t], v)
    requires Low(v, k) != i
    ensures pool'[t][Slot(info[t], v)] == pool[t][Slot(info[t], v)]
  {
    hide Pow2, Low, Shr, Rev, PlanOk, LenAt, PayloadAt, Cum, InfoOk, LevelOk, LevelLink;
    if t == q {
      SlotMatch(info[q], v, i, k);
    }
  }

  lemma FillTop(pl: Plan, pool: Pool, pool': Pool, info: seq<Info>, st: Stack, q: nat, i: nat, k: nat,
                done: nat, what: Payload, v: nat)
    requires Sized(pl) && PlanOk(pl) && Shape(pl, pool, info) && Shape(pl, pool', info)
    requires Ready(pl, pool, info, st, q, i, k, done)
    requires IsFill(pool, pool', q, i, info[q].w, k, what)
    requires Under(info[q], v) && Low(v, k) == i
    requires LenAt(pl, Rev(pl.g, v)) == k && PayloadAt(pl, Rev(pl.g, v)) == what
    ensures EntryOk(pl, pool', info, q, v)
  {
    hide Pow2, Low, Shr, Rev, PlanOk, LenAt, PayloadAt, Cum, InfoOk, LevelOk, LevelLink;
    SlotMatch(info[q], v, i, k);
  }

  lemma FillBelow(pl: Plan, pool: Pool, pool': Pool, info: seq<Info>, st: Stack, q: nat, i: nat, k: nat,
                  done: nat, what: Payload, lv: nat, v: nat)
    requires Sized(pl) && PlanOk(pl) && Shape(pl, pool, info) && Shape(pl, pool', info)
    requires Ready(pl, pool, info, st, q, i, k, done)
    requires IsFill(pool, pool', q, i, info[q].w, k, what)
    requires lv < st.h && Under(info[st.u[lv]], v) && Low(v, k) == i
    requires LenAt(pl, Rev(pl.g, v)) == k
    ensures EntryOk(pl, pool', info, st.u[lv], v)
  {
    hide Pow2, Low, Shr, Rev, PlanOk, LenAt, PayloadAt, Cum, InfoOk;
    var t, next := st.u[lv], st.u[lv + 1];
    assert LevelOk(pl, info, st, lv) && LevelOk(pl, info, st, lv + 1) && LevelOk(pl, info, st, st.h);
    assert LevelLink(pl, pool, info, st, lv);
    var ti := info[t];
    LowLow(v, info[next].w, k);
    LowLow(i, info[next].w, st.w);
    assert Low(v, ti.w + pl.l) == st.x[lv + 1];
    if Slot(ti, v) < Pow2(pl.l) {
      SlotShort(ti, v, pl.l);
    }
  }

  /** After the elements of code `i` are written, the tables are right up to the
      end of its block. */
  lemma FillStep(pl: Plan, pool: Pool, pool': Pool, info: seq<Info>, st: Stack, q: nat, i: nat, k: nat,
                 done: nat, what: Payload)
    requires Sized(pl) && PlanOk(pl) && Shape(pl, pool, info) && Shape(pl, pool', info)
    requires Ready(pl, pool, info, st, q, i, k, done) && Owned(pl, done, k, what)
    requires Filled(pl, pool, info, done)
    requires IsFill(pool, pool', q, i, info[q].w, k, what)
    ensures Filled(pl, pool', info, done + Pow2(pl.g - k))
  {
    hide Pow2, Low, Shr, Rev, PlanOk, LenAt, PayloadAt, Cum, InfoOk, LevelOk, LevelLink;
    forall t, v | 0 <= t < |info| && 0 <= v < Pow2(pl.g) && Under(info[t], v)
                  && Rev(pl.g, v) < done + Pow2(pl.g - k)
      ensures EntryOk(pl, pool', info, t, v)
    {
      RevBlock(k, pl.g, i, v);
      if Rev(pl.g, v) < done {
        FillOld(pl, pool, pool', info, st, q, i, k, done, what, t, v);
        assert EntryOk(pl, pool, info, t, v);
      } else {
        UnderRange(pl, info[t], v);
        assert OnStack(info, st, t);
        if info[t].lv == st.h {
          FillTop(pl, pool, pool', info, st, q, i, k, done, what, v);
        } else {
          FillBelow(pl, pool, pool', info, st, q, i, k, done, what, info[t].lv, v);
        }
      }
    }
  }

  lemma FillHoles(pl: Plan, pool: Pool, pool': Pool, info: seq<Info>, st: Stack, q: nat, i: nat, k: nat,
                  done: nat, what: Payload)
    requires Sized(pl) && PlanOk(pl) && Shape(pl, pool, info) && Shape(pl, pool', info)
    requires Ready(pl, pool, info, st, q, i, k, done) && Owned(pl, done, k, what)
    requires Holes(pl, pool, info)
    requires IsFill(pool, pool', q, i, info[q].w, k, what)
    ensures Holes(pl, pool', info)
  {
    hide Pow2, Low, Shr, Rev, PlanOk, LenAt, PayloadAt, Cum, InfoOk, LevelOk, LevelLink;
    forall t, v | 0 <= t < |info| && 0 <= v < Pow2(pl.g) && Under(info[t], v)
      ensures Unwritten(pl, pool', info, t, v)
    {
      assert Unwritten(pl, pool, info, t, v);
      RevBlock(k, pl.g, i, v);
      if Low(v, k) != i {
        FillOld(pl, pool, pool', info, st, q, i, k, done, what, t, v);
      }
    }
  }

  lemma FillStack(pl: Plan, pool: Pool, pool': Pool, info: seq<Info>, st: Stack, q: nat, i: nat, k: nat,
                  done: nat, what: Payload)
    requires Sized(pl) && PlanOk(pl) && Shape(pl, pool, info)
    requires Ready(pl, pool, info, st, q, i, k, done)
    requires IsFill(pool, pool', q, i, info[q].w, k, what)
    ensures StackOk(pl, pool', info, st)
  {
    hide Pow2, Low, Shr, Rev, PlanOk, LenAt, PayloadAt, Cum, InfoOk;
    forall lv | 0 <= lv < st.h
      ensures LevelLink(pl, pool', info, st, lv)
    {
      assert LevelOk(pl, info, st, lv) && LevelOk(pl, info, st, lv + 1);
      assert LevelLink(pl, pool, info, st, lv);
    }
  }

  // ----- the next code -----

  /** The backwards increment of a `k`-bit code: clear ones from the top down to
      the first zero, and set that. */
  function RevInc(k: nat, i: nat): (r: nat)
  {
    if k == 0 then 0
    else if Bit(i, k - 1) == 1 then RevInc(k - 1, Low(i, k - 1))
    else i + Pow2(k - 1)
  }

  lemma {:induction false} RevIncBound(k: nat, i: nat)
    requires i < Pow2(k)
    ensures RevInc(k, i) < Pow2(k)
  {
    if k > 0 {
      LowSucc(i, k - 1);
      LowSmall(i, k);
      LowBound(i, k - 1);
      if Bit(i, k - 1) == 1 {
        RevIncBound(k - 1, Low(i, k - 1));
      }
    }
  }

  /** In reversed order this is counting; all ones wrap to zero. */
  lemma {:induction false} RevIncCounts(k: nat, i: nat)
    requires i < Pow2(k)
    ensures Rev(k, i) + 1 == Pow2(k) ==> RevInc(k, i) == 0
    ensures Rev(k, i) + 1 < Pow2(k) ==> Rev(k, RevInc(k, i)) == Rev(k, i) + 1
  {
    hide Low, Shr;
    if k > 0 {
      var b := k - 1;
      var low := Low(i, b);
      LowBound(i, b);
      RevLow(b, i, b);
      RevBound(b, i);
      if Bit(i, b) == 1 {
        RevIncCounts(b, low);
        RevIncBound(b, low);
        BitOfSmall(RevInc(b, low), b);
      } else {
        LowSucc(i, b);
        LowSmall(i, k);
        LowJoin(i, 1, b);
        RevLow(b, i + Pow2(b), b);
      }
    }
  }

  /** When the increment changes the first `w` bits, the rest become zero. */
  lemma {:induction false} RevIncCarry(k: nat, i: nat, w: nat)
    requires i < Pow2(k) && w <= k
    requires Low(RevInc(k, i), w) != Low(i, w)
    ensures RevInc(k, i) < Pow2(w)
  {
    if w == k {
      RevIncBound(k, i);
    } else {
      var b := k - 1;
      LowBound(i, b);
      LowLow(i, w, b);
      if Bit(i, b) == 1 {
        RevIncCarry(b, Low(i, b), w);
      } else {
        LowSucc(i, b);
        LowSmall(i, k);
        LowJoin(i, 1, b);
        LowLow(i + Pow2(b), w, b);
      }
    }
  }

  lemma ScaleStep(r: nat, n: nat, u: nat)
    requires r < n && u > 0
    ensures (r + 1) * u == r * u + u <= n * u
    ensures r * u + u == n * u <==> r + 1 == n
  {
    MulDist(r, 1, u);
    MulMono(u, r + 1, n);
    if r + 1 < n {
      MulMono(u, r + 2, n);
      MulDist(r + 1, 1, u);
    }
  }

  /** The block of a `k`-bit code ends inside the code space. */
  lemma BlockEnd(g: nat, k: nat, i: nat)
    requires k <= g && i < Pow2(k)
    ensures Rev(g, i) + Pow2(g - k) <= Pow2(g)
    ensures Rev(g, i) + Pow2(g - k) == Pow2(g) <==> Rev(k, i) + 1 == Pow2(k)
  {
    RevShort(k, g, i);
    RevBound(k, i);
    Pow2Add(k, g - k);
    ScaleStep(Rev(k, i), Pow2(k), Pow2(g - k));
  }

  /** In positions: the next code starts where this one ends. */
  lemma RevIncPosition(g: nat, k: nat, i: nat)
    requires k <= g && i < Pow2(k)
    ensures RevInc(k, i) < Pow2(k)
    ensures Rev(g, i) + Pow2(g - k) <= Pow2(g)
    ensures Rev(g, i) + Pow2(g - k) < Pow2(g) ==> Rev(g, RevInc(k, i)) == Rev(g, i) + Pow2(g - k)
    ensures Rev(g, i) + Pow2(g - k) == Pow2(g) ==> RevInc(k, i) == 0
  {
    BlockEnd(g, k, i);
    RevIncBound(k, i);
    RevIncCounts(k, i);
    RevBound(k, i);
    RevShort(k, g, i);
    RevShort(k, g, RevInc(k, i));
    MulDist(Rev(k, i), 1, Pow2(g - k));
  }

  // ----- backing up -----

  /** Code `i` was in the table, the next code `i'` is not: the table is finished. */
  lemma Finished(pl: Plan, ti: Info, i: nat, i': nat, done: nat, done': nat)
    requires Sized(pl) && PlanOk(pl) && InfoOk(pl, ti)
    requires done == Rev(pl.g, i) && done < done'
    requires done' == Rev(pl.g, i') || done' == Pow2(pl.g)
    requires Low(i, ti.w) == ti.pfx && Low(i', ti.w) != ti.pfx
    ensures EndOf(pl, ti) <= done'
  {
    UnderRange(pl, ti, i);
    UnderRange(pl, ti, i');
    BlockEnd(pl.g, ti.w, ti.pfx);
  }

  function Pop(pl: Plan, st: Stack): (r: Stack)
  {
    Stack(st.h - 1, st.w - pl.l, st.x, st.u)
  }

  lemma PopStack(pl: Plan, pool: Pool, info: seq<Info>, st: Stack)
    requires Sized(pl) && PlanOk(pl) && Shape(pl, pool, info)
    requires StackOk(pl, pool, info, st) && st.h > 0
    ensures StackOk(pl, pool, info, Pop(pl, st))
  {
    hide Pow2, Low, Shr, Rev, PlanOk, LenAt, PayloadAt, Cum, InfoOk;
    var h, st' := st.h, Pop(pl, st);
    assert LevelOk(pl, info, st, h) && LevelOk(pl, info, st, h - 1) && LevelLink(pl, pool, info, st, h - 1);
    forall lv | 0 <= lv <= st'.h
      ensures LevelOk(pl, info, st', lv)
    {
      assert LevelOk(pl, info, st, lv);
      if lv < h - 1 {
        assert LevelOk(pl, info, st, lv + 1) && LevelLink(pl, pool, info, st, lv);
      }
      LowLow(st.x[h], info[st.u[lv]].w, st'.w);
    }
    forall lv | 0 <= lv < st'.h
      ensures LevelLink(pl, pool, info, st', lv)
    {
      assert LevelLink(pl, pool, info, st, lv);
    }
  }

  lemma PopClosed(pl: Plan, pool: Pool, info: seq<Info>, st: Stack, done: nat)
    requires Sized(pl) && PlanOk(pl) && Shape(pl, pool, info)
    requires StackOk(pl, pool, info, st) && st.h > 0
    requires Closed(pl, info, st, done)
    requires EndOf(pl, info[st.u[st.h]]) <= done
    ensures Closed(pl, info, Pop(pl, st), done)
  {
    hide Pow2, Low, Shr, Rev, PlanOk, LenAt, PayloadAt, Cum;
    forall t | 0 <= t < |info| && done < EndOf(pl, info[t])
      ensures OnStack(info, Pop(pl, st), t)
    {
      assert OnStack(info, st, t);
    }
  }
}
