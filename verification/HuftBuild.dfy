/** `huft_build` (zip/inflate.c:122-322). */
module HuftBuild {
  import opened Bits
  import opened CanonicalCode
  import opened HuftPlan
  import opened HuftTables
  import opened HuftSteps
  import opened HuftOpen
  import opened HuftLoop

  /** The invariant of the code-placing loop: the tables are right up to position
      `done`, which is where code `i` of `k` bits goes next. */
  ghost predicate Building(pl: Plan, pool: Pool, info: seq<Info>, st: Stack, i: nat, k: nat, done: nat)
    requires Sized(pl)
  {
    && Shape(pl, pool, info)
    && StackOk(pl, pool, info, st)
    && Closed(pl, info, st, done)
    && Filled(pl, pool, info, done)
    && Holes(pl, pool, info)
    && Between(pl, st, i, k, done)
  }

  ghost predicate Between(pl: Plan, st: Stack, i: nat, k: nat, done: nat)
    requires |st.x| == BMAX + 1 && -1 <= st.h < BMAX
  {
    && 1 <= k && i < Pow2(k) && 0 <= st.w + pl.l && st.w < k
    && done <= Pow2(pl.g)
    && (done < Pow2(pl.g) ==> done == Rev(pl.g, i))
    && (st.h >= 0 ==> 0 <= st.w && Low(i, st.w) == st.x[st.h])
    && (st.w + pl.l < k ==> i < Pow2(st.w + pl.l))
  }

  /** `q` and `z` name the innermost open table whenever the next code fits it. */
  ghost predicate Current(pl: Plan, pool: Pool, st: Stack, q: nat, z: nat, k: nat)
  {
    k <= st.w + pl.l ==> 0 <= st.h < |st.u| && q == st.u[st.h] && q < |pool| && z == |pool[q]|
  }

  lemma OpenReady(pl: Plan, pool: Pool, info: seq<Info>, st: Stack, i: nat, k: nat, done: nat)
    requires Sized(pl) && PlanOk(pl) && Building(pl, pool, info, st, i, k, done)
    requires k <= pl.g && done < Pow2(pl.g) && st.w + pl.l < k && Cum(pl.cnt, pl.g, k - 1) <= done
    ensures MustOpen(pl, pool, info, st, i, k, done)
    ensures st.h < BMAX - 1 && Stride(pl.l, st.w + pl.l)
    ensures st.h >= 0 ==> Shr(i, st.w) < |pool[st.u[st.h]]|
  {
    if st.h >= 0 {
      assert LevelOk(pl, info, st, st.h);
      assert InfoOk(pl, info[st.u[st.h]]);
      LinkFits(pl, pool, info, st, i, k, done);
    }
  }

  lemma OpenBuilding(pl: Plan, pool: Pool, info: seq<Info>, st: Stack, i: nat, k: nat, done: nat, j: nat,
                     pool': Pool, info': seq<Info>, st': Stack)
    requires Sized(pl) && PlanOk(pl) && Building(pl, pool, info, st, i, k, done) && MustOpen(pl, pool, info, st, i, k, done)
    requires done < Pow2(pl.g) && IsOpen(pl, pool, info, st, i, j, pool', info', st')
    requires InfoOk(pl, info'[|info|])
    ensures Building(pl, pool', info', st', i, k, done)
  {
    hide Pow2, Low, Shr, Rev, PlanOk, LenAt, PayloadAt, Cum, InfoOk, LevelLink, LevelOk, Filled, Holes, EntryOk;
    OpenShape(pl, pool, info, st, i, j, pool', info', st');
    OpenFilled(pl, pool, info, st, i, k, done, j, pool', info', st');
    OpenHoles(pl, pool, info, st, i, k, done, j, pool', info', st');
    OpenStack(pl, pool, info, st, i, k, done, j, pool', info', st');
    OpenClosed(pl, pool, info, st, i, k, done, j, pool', info', st');
    Pow2Mono(st.w + pl.l, st.w + pl.l + pl.l);
  }

  /** Lines 242-256, for a prefix under which nothing has been placed yet. */
  method ChooseWidth(pl: Plan, w: nat, k: nat, a: nat, ghost lv: nat, ghost i: nat, ghost done: nat, ghost m: nat)
    returns (j: nat)
    requires Sized(pl) && PlanOk(pl) && w < k <= pl.g && Stride(pl.l, w) && i < Pow2(w) && done == Rev(pl.g, i)
    requires m + a + 1 == pl.cnt[k] && done == Cum(pl.cnt, pl.g, k - 1) + m * Pow2(pl.g - k)
    ensures InfoOk(pl, Info(lv, w, i, j))
  {
    BlockEnd(pl.g, w, i);
    j := TableBits(pl, w, k, a, done, m);
    NewInfoOk(pl, lv, w, i, k, done, m, a, j);
  }

  /** One round of lines 235-278. */
  method OpenTable(pl: Plan, pool: Pool, st: Stack, i: nat, k: nat, a: nat,
                   ghost info: seq<Info>, ghost done: nat, ghost m: nat)
    returns (pool': Pool, st': Stack, z: nat, ghost info': seq<Info>)
    requires Sized(pl) && PlanOk(pl) && Building(pl, pool, info, st, i, k, done)
    requires k <= pl.g && done < Pow2(pl.g) && st.w + pl.l < k
    requires m + a + 1 == pl.cnt[k] && done == Cum(pl.cnt, pl.g, k - 1) + m * Pow2(pl.g - k)
    ensures Building(pl, pool', info', st', i, k, done)
    ensures st'.w == st.w + pl.l && st'.h == st.h + 1
    ensures st'.u[st'.h] == |pool| && |pool'| == |pool| + 1 && |pool'[|pool|]| == z
  {
    hide Pow2, Low, Shr, Rev, PlanOk, LenAt, PayloadAt, InfoOk, LevelLink, LevelOk, Filled, Holes;
    var w := st.w + pl.l;
    OpenReady(pl, pool, info, st, i, k, done);
    var j := ChooseWidth(pl, w, k, a, st.h + 1, i, done, m);
    z := Pow2(j);
    pool' := Linked(pl, pool, st, i, j) + [FreshTable(j)];
    st' := Push(pl, st, |pool|, i);
    info' := info + [Info(st.h + 1, w, i, j)];
    OpenBuilding(pl, pool, info, st, i, k, done, j, pool', info', st');
  }

  lemma NewInfoOk(pl: Plan, lv: nat, w: nat, i: nat, k: nat, done: nat, m: nat, a: nat, j: nat)
    requires Sized(pl) && PlanOk(pl) && w < k <= pl.g && Stride(pl.l, w) && i < Pow2(w) && done == Rev(pl.g, i)
    requires m + a + 1 == pl.cnt[k] && done == Cum(pl.cnt, pl.g, k - 1) + m * Pow2(pl.g - k)
    requires k - w <= j <= pl.g - w
    requires j < pl.l ==> done + Pow2(pl.g - w) <= Cum(pl.cnt, pl.g, w + j)
    requires j > pl.l <==> k - w > pl.l || (k - w == pl.l && Cum(pl.cnt, pl.g, k) < done + Pow2(pl.g - w))
    ensures InfoOk(pl, Info(lv, w, i, j))
  {
    hide PlanOk, Pow2, Rev, LenAt, Cum;
    BlockEnd(pl.g, w, i);
    BlockOwner(pl, k, m, done, done);
    WidthIsOverwide(pl, w, k, done);
  }

  /** Lines 235-278: open tables until the code fits the innermost one. */
  method OpenTables(pl: Plan, pool0: Pool, st0: Stack, q0: nat, z0: nat, i: nat, k: nat, a: nat,
                    ghost info0: seq<Info>, ghost done: nat, ghost m: nat)
    returns (pool: Pool, st: Stack, q: nat, z: nat, ghost info: seq<Info>)
    requires Sized(pl) && PlanOk(pl) && Building(pl, pool0, info0, st0, i, k, done) && Current(pl, pool0, st0, q0, z0, k)
    requires k <= pl.g && done < Pow2(pl.g)
    requires m + a + 1 == pl.cnt[k] && done == Cum(pl.cnt, pl.g, k - 1) + m * Pow2(pl.g - k)
    ensures Building(pl, pool, info, st, i, k, done) && Current(pl, pool, st, q, z, k)
    ensures k <= st.w + pl.l
  {
    pool, st, q, z, info := pool0, st0, q0, z0, info0;
    while k > st.w + pl.l
      invariant Building(pl, pool, info, st, i, k, done) && Current(pl, pool, st, q, z, k)
      decreases k - st.w
    {
      q := |pool|;
      pool, st, z, info := OpenTable(pl, pool, st, i, k, a, info, done, m);
    }
  }

  /** Once no more tables are needed, the code fits the innermost one. */
  lemma CodeFits(pl: Plan, pool: Pool, info: seq<Info>, st: Stack, q: nat, z: nat, i: nat, k: nat, done: nat)
    requires Sized(pl) && PlanOk(pl) && Building(pl, pool, info, st, i, k, done) && Current(pl, pool, st, q, z, k)
    requires k <= pl.g && k <= st.w + pl.l && done < Pow2(pl.g) && Cum(pl.cnt, pl.g, k - 1) <= done
    ensures Ready(pl, pool, info, st, q, i, k, done)
  {
    hide Low, Shr, Rev, LenAt, PayloadAt, Cum, LevelLink, PlanOk, Pow2, Filled, Holes;
    assert LevelOk(pl, info, st, st.h);
    var ti := info[q];
    assert InfoOk(pl, ti);
    UnderRange(pl, ti, i);
    if ti.width < pl.l && k > ti.w + ti.width {
      CumMono(pl.cnt, pl.g, ti.w + ti.width, k - 1);
    }
  }

  /** Code `i` is placed and `i'` is next; `st` is `st0` without some finished tables. */
  ghost predicate Backing(pl: Plan, pool: Pool, info: seq<Info>, st0: Stack, st: Stack, i: nat, i': nat, k: nat, done: nat)
    requires Sized(pl) && Shape(pl, pool, info)
  {
    && StackOk(pl, pool, info, st) && Closed(pl, info, st, done)
    && 0 <= st.h <= st0.h && 0 <= st.w <= st0.w && Low(i, st.w) == st.x[st.h]
    && (st.h < st0.h ==> i' < Pow2(st.w + pl.l) && st.w + pl.l < k)
    && (st.h == st0.h ==> st == st0)
  }

  lemma BackStep(pl: Plan, pool: Pool, info: seq<Info>, st0: Stack, st: Stack, i: nat, i': nat, k: nat,
                 done: nat, done': nat)
    requires Sized(pl) && PlanOk(pl) && Shape(pl, pool, info) && Backing(pl, pool, info, st0, st, i, i', k, done')
    requires 0 <= st0.w < k <= pl.g && i < Pow2(k) && done == Rev(pl.g, i)
    requires i' == RevInc(k, i) && done' == done + Pow2(pl.g - k)
    requires Low(i', st.w) != st.x[st.h]
    ensures st.h > 0 && Backing(pl, pool, info, st0, Pop(pl, st), i, i', k, done')
  {
    hide Pow2, Shr, Rev, PlanOk, LenAt, PayloadAt, Cum, InfoOk, RevInc, LevelLink;
    assert LevelOk(pl, info, st, st.h);
    RevIncPosition(pl.g, k, i);
    RevIncCarry(k, i, st.w);
    Finished(pl, info[st.u[st.h]], i, i', done, done');
    PopReady(pl, pool, info, st, i);
    PopClosed(pl, pool, info, st, done');
  }

  /** Lines 307-312: drop the finished tables. */
  method BackUp(pl: Plan, pool: Pool, st0: Stack, i': nat, ghost info: seq<Info>, ghost i: nat, ghost k: nat,
                ghost done: nat, ghost done': nat)
    returns (st: Stack)
    requires Sized(pl) && PlanOk(pl) && Shape(pl, pool, info) && Backing(pl, pool, info, st0, st0, i, i', k, done')
    requires 0 <= st0.w < k <= pl.g && i < Pow2(k) && done == Rev(pl.g, i)
    requires i' == RevInc(k, i) && done' == done + Pow2(pl.g - k)
    ensures Backing(pl, pool, info, st0, st, i, i', k, done')
    ensures Low(i', st.w) == st.x[st.h]
  {
    st := st0;
    while Low(i', st.w) != st.x[st.h]
      invariant Backing(pl, pool, info, st0, st, i, i', k, done')
      decreases st.h
    {
      BackStep(pl, pool, info, st0, st, i, i', k, done, done');
      st := Pop(pl, st);
    }
  }

  /** Backing up is possible until the base table, and keeps the prefix. */
  lemma PopReady(pl: Plan, pool: Pool, info: seq<Info>, st: Stack, i: nat)
    requires Sized(pl) && PlanOk(pl) && Shape(pl, pool, info) && StackOk(pl, pool, info, st)
    requires st.h >= 0 && 0 <= st.w && Low(i, st.w) == st.x[st.h]
    requires st.w > 0
    ensures st.h > 0 && StackOk(pl, pool, info, Pop(pl, st))
    ensures 0 <= st.w - pl.l && Low(i, st.w - pl.l) == st.x[st.h - 1]
  {
    assert LevelOk(pl, info, st, st.h);
    PopStack(pl, pool, info, st);
    assert LevelOk(pl, info, st, st.h - 1);
    assert LevelOk(pl, info, Pop(pl, st), st.h - 1);
    LowLow(i, st.w - pl.l, st.w);
  }

  /** The invariant after a code is written and the stack is backed up. */
  lemma PlacedBuilding(pl: Plan, pool: Pool, pool': Pool, info: seq<Info>, st: Stack, st': Stack, q: nat,
                       i: nat, i': nat, k: nat, done: nat)
    requires Sized(pl) && PlanOk(pl) && Shape(pl, pool, info) && Shape(pl, pool', info)
    requires Ready(pl, pool, info, st, q, i, k, done)
    requires Backing(pl, pool', info, st, st', i, i', k, done + Pow2(pl.g - k))
    requires Filled(pl, pool', info, done + Pow2(pl.g - k)) && Holes(pl, pool', info)
    requires i' == RevInc(k, i) && Low(i', st'.w) == st'.x[st'.h]
    ensures Building(pl, pool', info, st', i', k, done + Pow2(pl.g - k))
  {
    hide Pow2, Low, Shr, Rev, PlanOk, LenAt, PayloadAt, Cum, InfoOk, RevInc, LevelLink, LevelOk, Filled, Holes;
    RevIncPosition(pl.g, k, i);
  }

  lemma FilledBacking(pl: Plan, pool: Pool, pool': Pool, info: seq<Info>, st: Stack, q: nat, i: nat, i': nat, k: nat,
                      done: nat, what: Payload)
    requires Sized(pl) && PlanOk(pl) && Shape(pl, pool, info) && Shape(pl, pool', info)
    requires Ready(pl, pool, info, st, q, i, k, done)
    requires IsFill(pool, pool', q, i, info[q].w, k, what)
    ensures Backing(pl, pool', info, st, st, i, i', k, done + Pow2(pl.g - k))
  {
    FillStack(pl, pool, pool', info, st, q, i, k, done, what);
  }

  lemma CodeOwned(pl: Plan, k: nat, m: nat, done: nat)
    requires Sized(pl) && PlanOk(pl) && 1 <= k <= pl.g && m < pl.cnt[k]
    requires done == Cum(pl.cnt, pl.g, k - 1) + m * Pow2(pl.g - k)
    ensures Owned(pl, done, k, PayloadOf(pl.lens, pl.al, k, m))
    ensures Cum(pl.cnt, pl.g, k - 1) <= done < done + Pow2(pl.g - k) <= Pow2(pl.g)
  {
    forall p | done <= p < done + Pow2(pl.g - k)
      ensures LenAt(pl, p) == k && PayloadAt(pl, p) == PayloadOf(pl.lens, pl.al, k, m)
    {
      BlockOwner(pl, k, m, done, p);
    }
    InBlock(Cum(pl.cnt, pl.g, k - 1), Pow2(pl.g - k), pl.cnt[k], m, done);
    InBlock(Cum(pl.cnt, pl.g, k - 1), Pow2(pl.g - k), pl.cnt[k], m, done + Pow2(pl.g - k) - 1);
    CumMono(pl.cnt, pl.g, k, pl.g);
  }

  /** Where code number `m` of length `k` starts. */
  ghost function CodePos(pl: Plan, k: nat, m: nat): (r: nat)
    requires 1 <= k <= pl.g < |pl.cnt|
  {
    if m == 0 then Cum(pl.cnt, pl.g, k - 1) else CodePos(pl, k, m - 1) + Pow2(pl.g - k)
  }

  lemma {:induction false} CodePosIs(pl: Plan, k: nat, m: nat)
    requires 1 <= k <= pl.g < |pl.cnt|
    ensures CodePos(pl, k, m) == Cum(pl.cnt, pl.g, k - 1) + m * Pow2(pl.g - k)
  {
    if m > 0 {
      CodePosIs(pl, k, m - 1);
      MulDist(m - 1, 1, Pow2(pl.g - k));
    }
  }

  /** Lines 232-312: place one code. */
  method PlaceCode(pl: Plan, v: seq<Cell>, pool0: Pool, st0: Stack, q0: nat, z0: nat, i: nat, k: nat, a: nat, p: nat,
                   ghost info0: seq<Info>, ghost done: nat, ghost m: nat)
    returns (pool: Pool, st: Stack, q: nat, z: nat, i': nat, p': nat, unset: bool, ghost info: seq<Info>)
    requires Sized(pl) && PlanOk(pl) && ValuesOk(pl.lens, v)
    requires Building(pl, pool0, info0, st0, i, k, done) && Current(pl, pool0, st0, q0, z0, k)
    requires 1 <= k <= pl.g && m + a + 1 == pl.cnt[k] && done == CodePos(pl, k, m)
    requires p == Min(|pl.lens|, Ranks(pl.cnt, k - 1) + m)
    ensures Building(pl, pool, info, st, i', k, done + Pow2(pl.g - k)) && Current(pl, pool, st, q, z, k)
    ensures p' == Min(|pl.lens|, Ranks(pl.cnt, k - 1) + m + 1)
    ensures st.h >= 0 && (unset <==> PayloadOf(pl.lens, pl.al, k, m).Stale?)
  {
    hide Building, Current;
    CodePosIs(pl, k, m);
    CodeOwned(pl, k, m, done);
    var pool1, st1;
    pool1, st1, q, z, info := OpenTables(pl, pool0, st0, q0, z0, i, k, a, info0, done, m);
    var what;
    what, p', unset := PickValue(pl, v, p, k, m);
    pool, st, i' := WriteCode(pl, pool1, st1, q, z, i, k, what, info, done);
  }

  /** Lines 297-312: write the code's elements, step to the next code, back up. */
  method WriteCode(pl: Plan, pool0: Pool, st0: Stack, q: nat, z: nat, i: nat, k: nat, what: Payload,
                   ghost info: seq<Info>, ghost done: nat)
    returns (pool: Pool, st: Stack, i': nat)
    requires Sized(pl) && PlanOk(pl) && Building(pl, pool0, info, st0, i, k, done) && Current(pl, pool0, st0, q, z, k)
    requires k <= pl.g && k <= st0.w + pl.l && done < Pow2(pl.g) && Cum(pl.cnt, pl.g, k - 1) <= done
    requires Owned(pl, done, k, what)
    ensures Building(pl, pool, info, st, i', k, done + Pow2(pl.g - k)) && Current(pl, pool, st, q, z, k)
    ensures st.h >= 0
  {
    hide Low, Shr, Rev, Pow2, LenAt, PayloadAt, PlanOk, Filled, Holes, LevelOk, LevelLink, InfoOk, RevInc;
    CodeFits(pl, pool0, info, st0, q, z, i, k, done);
    pool := FillEntries(pool0, q, z, i, st0.w, k, what);
    i' := RevIncrement(k, i);
    FillStep(pl, pool0, pool, info, st0, q, i, k, done, what);
    FillHoles(pl, pool0, pool, info, st0, q, i, k, done, what);
    FilledBacking(pl, pool0, pool, info, st0, q, i, i', k, done, what);
    st := BackUp(pl, pool, st0, i', info, i, k, done, done + Pow2(pl.g - k));
    PlacedBuilding(pl, pool0, pool, info, st0, st, q, i, i', k, done);
  }

  lemma NextLength(pl: Plan, pool: Pool, info: seq<Info>, st: Stack, i: nat, k: nat, done: nat)
    requires Sized(pl) && PlanOk(pl) && Building(pl, pool, info, st, i, k, done)
    ensures Building(pl, pool, info, st, i, k + 1, done)
  {
  }

  lemma NoTablesYet(pl: Plan, st: Stack, k: nat)
    requires Sized(pl) && PlanOk(pl) && 1 <= k && |st.x| == BMAX + 1 && |st.u| == BMAX && st.h == -1 && st.w + pl.l == 0
    ensures Building(pl, [], [], st, 0, k, 0)
  {
    RevShort(0, pl.g, 0);
  }

  lemma {:induction false} NoShorter(pl: Plan, k: nat)
    requires Sized(pl) && PlanOk(pl) && 1 <= k <= pl.g && forall t :: 1 <= t < k ==> pl.cnt[t] == 0
    ensures Cum(pl.cnt, pl.g, k - 1) == 0 && Ranks(pl.cnt, k - 1) == 0
  {
    if k > 1 {
      NoShorter(pl, k - 1);
    }
  }

  /** A finished set of tables. */
  ghost predicate Complete(pl: Plan, pool: Pool, info: seq<Info>)
    requires Sized(pl)
  {
    && Shape(pl, pool, info)
    && Filled(pl, pool, info, Pow2(pl.g))
    && Holes(pl, pool, info)
    && |info| > 0 && info[0].w == 0
  }

  /** Lines 229-315: place all codes of one length. */
  method PlaceLength(pl: Plan, v: seq<Cell>, pool0: Pool, st0: Stack, q0: nat, z0: nat, i0: nat, k: nat, p0: nat,
                     ghost info0: seq<Info>, ghost done0: nat)
    returns (pool: Pool, st: Stack, q: nat, z: nat, i: nat, p: nat, unset: bool, ghost info: seq<Info>)
    requires Sized(pl) && PlanOk(pl) && ValuesOk(pl.lens, v)
    requires Building(pl, pool0, info0, st0, i0, k, done0) && Current(pl, pool0, st0, q0, z0, k)
    requires 1 <= k <= pl.g && done0 == Cum(pl.cnt, pl.g, k - 1) && p0 == Min(|pl.lens|, Ranks(pl.cnt, k - 1))
    ensures Building(pl, pool, info, st, i, k, Cum(pl.cnt, pl.g, k)) && Current(pl, pool, st, q, z, k)
    ensures p == Min(|pl.lens|, Ranks(pl.cnt, k))
    ensures st.h >= 0 || (st.h == st0.h && pl.cnt[k] == 0)
    ensures unset <==> UnsetUpTo(pl, k, pl.cnt[k])
  {
    hide Building, Current, PlanOk, ValuesOk, Min, Pow2, PayloadOf;
    pool, st, q, z, i, p, unset, info := pool0, st0, q0, z0, i0, p0, false, info0;
    ghost var done: nat, m: nat := done0, 0;
    var a := pl.cnt[k];
    while a > 0
      invariant m + a == pl.cnt[k]
      invariant Building(pl, pool, info, st, i, k, done) && Current(pl, pool, st, q, z, k)
      invariant done == CodePos(pl, k, m)
      invariant p == Min(|pl.lens|, Ranks(pl.cnt, k - 1) + m)
      invariant st.h >= 0 || (st.h == st0.h && m == 0)
      invariant unset <==> UnsetUpTo(pl, k, m)
    {
      a := a - 1;
      var now;
      pool, st, q, z, i, p, now, info := PlaceCode(pl, v, pool, st, q, z, i, k, a, p, info, done, m);
      unset := unset || now;
      done, m := done + Pow2(pl.g - k), m + 1;
    }
    CodePosIs(pl, k, m);
  }

  lemma NothingUnset(pl: Plan, k: nat)
    requires Sized(pl)
    ensures !UnsetUpTo(pl, k, 0)
  {
  }

  /** Lines 215-316. */
  method PlaceCodes(pl: Plan, v: seq<Cell>, kmin: nat)
    returns (pool: Pool, unset: bool, ghost info: seq<Info>)
    requires Sized(pl) && PlanOk(pl) && ValuesOk(pl.lens, v)
    requires 1 <= kmin <= pl.g && forall t :: 1 <= t < kmin ==> pl.cnt[t] == 0
    ensures Complete(pl, pool, info)
    ensures unset <==> UnsetBelow(pl, pl.g)
  {
    hide ValuesOk, Pow2, Filled, Holes, Shape, Low, Rev, Count, UnsetUpTo;
    var st := Stack(-1, -(pl.l as int), seq(BMAX + 1, _ => 0), seq(BMAX, _ => 0));
    var q, z, i, p, k := 0, 0, 0, 0, kmin;
    pool, unset, info := [], false, [];
    NoTablesYet(pl, st, k);
    NoShorter(pl, k);
    forall t | 1 <= t < kmin
      ensures !UnsetUpTo(pl, t, pl.cnt[t])
    {
      NothingUnset(pl, t);
    }
    while k <= pl.g
      invariant 1 <= k <= pl.g + 1
      invariant Building(pl, pool, info, st, i, k, Cum(pl.cnt, pl.g, k - 1)) && Current(pl, pool, st, q, z, k)
      invariant p == Min(|pl.lens|, Ranks(pl.cnt, k - 1))
      invariant k == pl.g + 1 ==> st.h >= 0
      invariant unset <==> UnsetBelow(pl, k - 1)
    {
      var now;
      pool, st, q, z, i, p, now, info := PlaceLength(pl, v, pool, st, q, z, i, k, p, info, Cum(pl.cnt, pl.g, k - 1));
      NextLength(pl, pool, info, st, i, k, Cum(pl.cnt, pl.g, k));
      unset := unset || now;
      k := k + 1;
    }
    assert LevelOk(pl, info, st, 0);
  }
}
