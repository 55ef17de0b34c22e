/** `huft_build` as a whole (zip/inflate.c:122-322): its return value, the size of
    its base table, and the code sets on which its tables are right. */
module Huft {
  import opened Bits
  import opened CanonicalCode
  import opened HuftPlan
  import opened HuftTables
  import opened HuftLoop
  import opened HuftBuild
  import opened HuftWalk

  /** `Empty` is a return of 0 with a null table, `Oversubscribed` a return of 2;
      `Built` carries the return value 0 or 1, the tables, the lookup width, and
      whether an element of `v[]` was used that nobody had written. */
  datatype Result = Empty | Oversubscribed | Built(code: nat, pool: Pool, m: nat, unset: bool)

  // ----- lengths in use -----

  /** The first length from `k` up that is in use, or one more than the longest possible. */
  function MinLen(lens: seq<nat>, k: nat): (r: nat)
    requires k <= BMAX + 1
    ensures k <= r <= BMAX + 1
    ensures forall t :: k <= t < r ==> Count(lens, t) == 0
    ensures r <= BMAX ==> Count(lens, r) > 0
    decreases BMAX + 1 - k
  {
    if k == BMAX + 1 || Count(lens, k) > 0 then k else MinLen(lens, k + 1)
  }

  /** The last length from `k` down that is in use, or zero. */
  function MaxLen(lens: seq<nat>, k: nat): (r: nat)
    ensures r <= k
    ensures forall t :: r < t <= k ==> Count(lens, t) == 0
    ensures r > 0 ==> Count(lens, r) > 0
  {
    if k == 0 || Count(lens, k) > 0 then k else MaxLen(lens, k - 1)
  }

  function Clamp(m: nat, lo: nat, hi: nat): (r: nat)
  {
    var l := if m < lo then lo else m;
    if l > hi then hi else l
  }

  predicate LengthsOk(lens: seq<nat>)
  {
    0 < |lens| && forall s :: 0 <= s < |lens| ==> lens[s] <= BMAX
  }

  /** The plan the builder follows when asked for a lookup width of `m`. */
  function PlanFor(lens: seq<nat>, al: Alphabet, m: nat): (pl: Plan)
  {
    var g := MaxLen(lens, BMAX);
    var y := Pow2(g) - Kraft(lens, g, g);
    Plan(lens, al,
         seq(BMAX + 1, k requires 0 <= k <= BMAX =>
               if k == g && y > 0 then Count(lens, k) + y else Count(lens, k)),
         Clamp(m, MinLen(lens, 1), g), g)
  }

  lemma {:induction false} CountZero(lens: seq<nat>, k: nat)
    requires Count(lens, k) == 0
    ensures forall s :: 0 <= s < |lens| ==> lens[s] != k
  {
    if |lens| > 0 {
      CountZero(lens[..|lens| - 1], k);
    }
  }

  lemma {:induction false} CountAll(lens: seq<nat>, k: nat)
    ensures Count(lens, k) == |lens| <==> forall s :: 0 <= s < |lens| ==> lens[s] == k
  {
    if |lens| > 0 {
      var front := lens[..|lens| - 1];
      CountAll(front, k);
      if forall s :: 0 <= s < |lens| ==> lens[s] == k {
        assert forall s :: 0 <= s < |front| ==> front[s] == k;
      }
    }
  }

  lemma {:induction false} CountPositive(lens: seq<nat>, s: nat)
    requires s < |lens|
    ensures Count(lens, lens[s]) > 0
  {
    CountBeforeBound(lens, s);
  }

  /** When some symbol has a code, the shortest and longest lengths exist. */
  lemma LengthsInUse(lens: seq<nat>)
    requires LengthsOk(lens) && Count(lens, 0) < |lens|
    ensures 1 <= MinLen(lens, 1) <= MaxLen(lens, BMAX) <= BMAX
    ensures forall s :: 0 <= s < |lens| ==> lens[s] <= MaxLen(lens, BMAX)
  {
    CountAll(lens, 0);
    var s :| 0 <= s < |lens| && lens[s] != 0;
    CountPositive(lens, s);
    var g := MaxLen(lens, BMAX);
    forall t | 0 <= t < |lens|
      ensures lens[t] <= g
    {
      CountPositive(lens, t);
    }
    assert Count(lens, g) > 0;
  }

  lemma {:induction false} CumOfPlan(lens: seq<nat>, al: Alphabet, m: nat, k: nat)
    requires MaxLen(lens, BMAX) > 0 && k <= MaxLen(lens, BMAX)
    requires Kraft(lens, MaxLen(lens, BMAX), MaxLen(lens, BMAX)) <= Pow2(MaxLen(lens, BMAX))
    ensures var pl := PlanFor(lens, al, m);
            Cum(pl.cnt, pl.g, k) == if k < pl.g then Kraft(lens, pl.g, k) else Pow2(pl.g)
  {
    if k > 0 {
      var pl := PlanFor(lens, al, m);
      CumOfPlan(lens, al, m, k - 1);
      if k == pl.g {
        assert Pow2(0) == 1;
      }
    }
  }

  /** The plan of a code set that is not oversubscribed is sound. */
  lemma PlanForOk(lens: seq<nat>, al: Alphabet, m: nat)
    requires LengthsOk(lens) && AlphabetOk(lens, al) && Count(lens, 0) < |lens|
    requires Kraft(lens, MaxLen(lens, BMAX), MaxLen(lens, BMAX)) <= Pow2(MaxLen(lens, BMAX))
    ensures Sized(PlanFor(lens, al, m)) && PlanOk(PlanFor(lens, al, m))
  {
    hide Pow2, Kraft, Cum, Count;
    LengthsInUse(lens);
    CumOfPlan(lens, al, m, MaxLen(lens, BMAX));
  }

  // ----- sufficient conditions for right tables -----

  /** Two strides reach the end of every code. */
  lemma ShortCodes(pl: Plan)
    requires Sized(pl) && pl.g <= 2 * pl.l
    ensures NoOverwide(pl)
  {
    hide Pow2, Rev, LenAt;
  }

  lemma {:induction false} TailBound(pl: Plan, k: nat, a: nat)
    requires Sized(pl) && 1 <= k <= pl.g && k - 1 <= a <= pl.g
    ensures Ranks(pl.cnt, k - 1) <= Ranks(pl.cnt, a)
    ensures Cum(pl.cnt, pl.g, a) - Cum(pl.cnt, pl.g, k - 1)
            <= (Ranks(pl.cnt, a) - Ranks(pl.cnt, k - 1)) * Pow2(pl.g - k)
    decreases a
  {
    hide Pow2;
    if a >= k {
      TailBound(pl, k, a - 1);
      Pow2Mono(pl.g - a, pl.g - k);
      MulMono(pl.cnt[a], Pow2(pl.g - a), Pow2(pl.g - k));
      MulDist(Ranks(pl.cnt, a - 1) - Ranks(pl.cnt, k - 1), pl.cnt[a], Pow2(pl.g - k));
    }
  }

  /** A wide sub-table needs a whole stride's worth of codes below it. */
  lemma OverwideNeedsCodes(pl: Plan, w: nat, i: nat)
    requires Sized(pl) && PlanOk(pl) && w < pl.g && i < Pow2(w) && Overwide(pl, w, Rev(pl.g, i))
    ensures Ranks(pl.cnt, pl.g) >= Pow2(pl.l)
  {
    hide Pow2, Rev, LenAt, PlanOk, Cum, Ranks;
    var k := w + pl.l;
    HuftStepsFacts(pl, w, i);
    TailBound(pl, k, pl.g);
    Pow2Add(pl.l, pl.g - k);
    MulCancel(Pow2(pl.l), Ranks(pl.cnt, pl.g) - Ranks(pl.cnt, k - 1), Pow2(pl.g - k));
  }

  lemma HuftStepsFacts(pl: Plan, w: nat, i: nat)
    requires Sized(pl) && PlanOk(pl) && w < pl.g && i < Pow2(w) && Overwide(pl, w, Rev(pl.g, i))
    ensures w + pl.l <= pl.g
    ensures Cum(pl.cnt, pl.g, w + pl.l - 1) + Pow2(pl.g - w) <= Pow2(pl.g) == Cum(pl.cnt, pl.g, pl.g)
  {
    hide Pow2, Rev;
    var start := Rev(pl.g, i);
    BlockEndOf(pl.g, w, i);
    LenAtBounds(pl, start);
    CumMono(pl.cnt, pl.g, w + pl.l - 1, LenAt(pl, start) - 1);
  }

  lemma BlockEndOf(g: nat, w: nat, i: nat)
    requires w <= g && i < Pow2(w)
    ensures Rev(g, i) + Pow2(g - w) <= Pow2(g)
  {
    hide Pow2, Rev;
    RevShort(w, g, i);
    RevBound(w, i);
    Pow2Add(w, g - w);
    MulMono(Pow2(g - w), Rev(w, i) + 1, Pow2(w));
    MulDist(Rev(w, i), 1, Pow2(g - w));
  }

  /** Fewer codes than elements of one table. */
  lemma FewCodes(pl: Plan)
    requires Sized(pl) && PlanOk(pl) && Ranks(pl.cnt, pl.g) < Pow2(pl.l)
    ensures NoOverwide(pl)
  {
    hide Pow2, Rev, LenAt, PlanOk, Cum, Ranks, Overwide;
    forall w, i | 0 < w < pl.g && Stride(pl.l, w) && 0 <= i < Pow2(w)
      ensures !Overwide(pl, w, Rev(pl.g, i))
    {
      if Overwide(pl, w, Rev(pl.g, i)) {
        OverwideNeedsCodes(pl, w, i);
      }
    }
  }

  // ----- the phases of the builder -----

  /** Lines 155-159. */
  method CountLengths(b: seq<nat>) returns (c: array<nat>)
    requires LengthsOk(b)
    ensures fresh(c) && c.Length == BMAX + 1
    ensures forall k :: 0 <= k <= BMAX ==> c[k] == Count(b, k)
  {
    c := new nat[BMAX + 1](_ => 0);
    for i := 0 to |b|
      invariant forall k :: 0 <= k <= BMAX ==> c[k] == Count(b[..i], k)
    {
      assert b[..i + 1][..i] == b[..i];
      c[b[i]] := c[b[i]] + 1;
    }
    assert b[..|b|] == b;
  }

  /** Lines 188-192: the code space left over, in units of the longest codes. */
  method SpaceLeft(c: array<nat>, kmin: nat, g: nat, ghost lens: seq<nat>) returns (y: int)
    requires c.Length == BMAX + 1 && 1 <= kmin <= g <= BMAX
    requires forall k :: 0 <= k <= BMAX ==> c[k] == Count(lens, k)
    requires forall t :: 1 <= t < kmin ==> Count(lens, t) == 0
    ensures y >= 0 ==> y == Pow2(g) - Kraft(lens, g, g)
    ensures y < 0 <==> Kraft(lens, g, g) > Pow2(g)
  {
    hide Pow2, Count;
    var j := kmin;
    y := Pow2(j);
    NoKraftBelow(lens, g, kmin);
    Pow2Add(kmin, g - kmin);
    while j < g
      invariant kmin <= j <= g && y >= 0
      invariant y * Pow2(g - j) == Pow2(g) - Kraft(lens, g, j - 1)
    {
      SpaceStep(lens, g, j, y);
      y := y - c[j];
      if y < 0 {
        KraftMono(lens, g, j, g);
        return;
      }
      j := j + 1;
      y := 2 * y;
    }
    SpaceStep(lens, g, g, y);
    y := y - c[g];
  }

  lemma SpaceStep(lens: seq<nat>, g: nat, j: nat, y: int)
    requires 1 <= j <= g && y * Pow2(g - j) == Pow2(g) - Kraft(lens, g, j - 1)
    ensures var d := y - Count(lens, j);
            && d * Pow2(g - j) == Pow2(g) - Kraft(lens, g, j)
            && (d < 0 <==> Kraft(lens, g, j) > Pow2(g))
            && (j < g ==> (2 * d) * Pow2(g - (j + 1)) == d * Pow2(g - j))
            && (j == g ==> d == Pow2(g) - Kraft(lens, g, j))
  {
    hide Count;
    var u := Pow2(g - j);
    Deficit(y, Count(lens, j), 0, u);
    Negative(y - Count(lens, j), u);
    if j < g {
      MulDouble(y - Count(lens, j), Pow2(g - (j + 1)));
    } else {
      assert u == 1;
    }
  }

  lemma Negative(d: int, u: int)
    requires u > 0
    ensures d < 0 <==> d * u < 0
  {
  }

  lemma {:induction false} NoKraftBelow(lens: seq<nat>, g: nat, k: nat)
    requires 1 <= k <= g && forall t :: 1 <= t < k ==> Count(lens, t) == 0
    ensures Kraft(lens, g, k - 1) == 0
  {
    if k > 1 {
      NoKraftBelow(lens, g, k - 1);
    }
  }

  /** Lines 197-211: sort the symbols by length. */
  method SortValues(b: seq<nat>, c: array<nat>, g: nat) returns (v: array<Cell>)
    requires LengthsOk(b) && |b| <= 288
    requires c.Length == BMAX + 1 && 1 <= g <= BMAX
    requires forall k :: 1 <= k < g ==> c[k] == Count(b, k)
    requires forall s :: 0 <= s < |b| ==> b[s] <= g
    ensures fresh(v) && ValuesOk(b, v[..])
  {
    hide Offset, Count, SortedUpTo, ValuesOk;
    var x := Offsets(b, c, g);
    v := new Cell[288](_ => Uninit);
    TotalCount(b, g);
    SortedNone(b, v[..], g);
    for i := 0 to |b|
      invariant Cursors(b, x[..], i, g)
      invariant SortedUpTo(b, v[..], i, g)
    {
      var j := b[i];
      CursorStep(b, x[..], i, g);
      if j != 0 {
        SortStep(b, v[..], i, g);
        v[x[j]] := Sym(i);
        x[j] := x[j] + 1;
      } else {
        SortSkip(b, v[..], i, g);
      }
    }
    SortedAll(b, v[..], g);
  }

  /** `x[k]` is where the next symbol of length `k` goes. */
  ghost predicate Cursors(b: seq<nat>, x: seq<nat>, i: nat, g: nat)
    requires i <= |b|
  {
    |x| > g && forall k :: 1 <= k <= g ==> x[k] == Offset(b, k) + Count(b[..i], k)
  }

  lemma CursorStep(b: seq<nat>, x: seq<nat>, i: nat, g: nat)
    requires i < |b| && b[i] <= g && Cursors(b, x, i, g)
    ensures Cursors(b, if b[i] == 0 then x else x[b[i] := x[b[i]] + 1], i + 1, g)
  {
    hide Offset, Count;
    forall k | 1 <= k <= g
      ensures Count(b[..i + 1], k) == Count(b[..i], k) + if b[i] == k then 1 else 0
    {
      CountStep(b, i, k);
    }
  }

  /** Lines 198-202. */
  method Offsets(b: seq<nat>, c: array<nat>, g: nat) returns (x: array<nat>)
    requires c.Length == BMAX + 1 && 1 <= g <= BMAX
    requires forall k :: 1 <= k < g ==> c[k] == Count(b, k)
    ensures fresh(x) && x.Length == BMAX + 1
    ensures forall k :: 1 <= k <= g ==> x[k] == Offset(b, k)
  {
    x := new nat[BMAX + 1](_ => 0);
    var j, n := 0, 1;
    while n < g
      invariant 1 <= n <= g && j == Offset(b, n)
      invariant forall k :: 1 <= k <= n ==> x[k] == Offset(b, k)
    {
      j := j + c[n];
      n := n + 1;
      x[n] := j;
    }
  }

  /** The symbols before `i` are in place. */
  ghost predicate SortedUpTo(b: seq<nat>, v: seq<Cell>, i: nat, g: nat)
    requires i <= |b|
  {
    && |v| == 288
    && (forall k, m :: 1 <= k <= g && 0 <= m ==> InPlace(b, b[..i], v, k, m))
    && (forall r :: Coded(b) <= r < |v| ==> v[r] == Uninit)
  }

  lemma SortedNone(b: seq<nat>, v: seq<Cell>, g: nat)
    requires |v| == 288 && forall r :: 0 <= r < |v| ==> v[r] == Uninit
    ensures SortedUpTo(b, v, 0, g)
  {
  }

  lemma SortSkip(b: seq<nat>, v: seq<Cell>, i: nat, g: nat)
    requires i < |b| && b[i] == 0 && SortedUpTo(b, v, i, g)
    ensures SortedUpTo(b, v, i + 1, g)
  {
    hide Offset;
    var b' := b[..i + 1];
    assert b'[..i] == b[..i];
    forall k, m | 1 <= k <= g && 0 <= m
      ensures InPlace(b, b', v, k, m)
    {
      assert InPlace(b, b[..i], v, k, m);
    }
  }

  lemma SortStep(b: seq<nat>, v: seq<Cell>, i: nat, g: nat)
    requires i < |b| <= 288 && 1 <= b[i] <= g && SortedUpTo(b, v, i, g)
    requires Count(b, 0) + Offset(b, g + 1) == |b|
    ensures var p := Offset(b, b[i]) + Count(b[..i], b[i]);
            p < |v| && SortedUpTo(b, v[p := Sym(i)], i + 1, g)
  {
    hide Offset, Count, NthSym;
    var j := b[i];
    var p := Offset(b, j) + Count(b[..i], j);
    CountBeforeBound(b, i);
    OffsetMono(b, j, g + 1);
    var v', b' := v[p := Sym(i)], b[..i + 1];
    forall k, m | 1 <= k <= g && 0 <= m
      ensures InPlace(b, b', v', k, m)
    {
      assert InPlace(b, b[..i], v, k, m);
      if m < Count(b', k) {
        SortStepAt(b, i, g, k, m);
      }
    }
  }

  /** One place, before and after symbol `i` is sorted in. */
  lemma SortStepAt(b: seq<nat>, i: nat, g: nat, k: nat, m: nat)
    requires i < |b| && 1 <= b[i] <= g && 1 <= k <= g && m < Count(b[..i + 1], k)
    ensures var p := Offset(b, b[i]) + Count(b[..i], b[i]);
            && (Offset(b, k) + m == p <==> k == b[i] && m == Count(b[..i], b[i]))
            && (k == b[i] && m == Count(b[..i], b[i]) ==> NthSym(b[..i + 1], k, m) == i)
            && (!(k == b[i] && m == Count(b[..i], b[i])) ==>
                  m < Count(b[..i], k) && NthSym(b[..i + 1], k, m) == NthSym(b[..i], k, m))
  {
    hide Offset;
    var b' := b[..i + 1];
    assert b'[..i] == b[..i];
    CountBeforeBound(b, i);
    CountPrefix(b, i + 1, |b|, k);
    assert b[..|b|] == b;
    if k < b[i] {
      OffsetMono(b, k, b[i]);
    } else if b[i] < k {
      OffsetMono(b, b[i], k);
    }
  }

  lemma SortedAll(b: seq<nat>, v: seq<Cell>, g: nat)
    requires |b| <= 288 && g <= BMAX && SortedUpTo(b, v, |b|, g)
    requires forall s :: 0 <= s < |b| ==> b[s] <= g
    ensures ValuesOk(b, v)
  {
    hide Offset;
    assert b[..|b|] == b;
    forall k, m | 1 <= k <= BMAX && 0 <= m
      ensures InPlace(b, b, v, k, m)
    {
      if m < Count(b, k) {
        var s := NthSym(b, k, m);
        assert InPlace(b, b[..|b|], v, k, m);
      }
    }
  }

  // ----- the whole builder -----

  /** Lines 122-322.  `m` is the requested lookup width. */
  method Build(b: seq<nat>, al: Alphabet, m: nat) returns (r: Result)
    requires LengthsOk(b) && |b| <= 288 && AlphabetOk(b, al)
    ensures r.Empty? <==> forall s :: 0 <= s < |b| ==> b[s] == 0
    ensures r.Oversubscribed? <==>
              !r.Empty? && Kraft(b, MaxLen(b, BMAX), MaxLen(b, BMAX)) > Pow2(MaxLen(b, BMAX))
    ensures r.Built? ==>
              var pl := PlanFor(b, al, m);
              && Sized(pl) && PlanOk(pl)
              && r.m == pl.l && IsTables(pl, r.pool)
              && r.code == (if Kraft(b, pl.g, pl.g) < Pow2(pl.g) && pl.g != 1 then 1 else 0)
              && (r.unset <==> Kraft(b, pl.g, pl.g) < Pow2(pl.g) && Count(b, 0) > 0)
  {
    hide Count, Kraft, Pow2, PlanOk, Complete, MaxLen, MinLen, ValuesOk, UnsetBelow;
    var c := CountLengths(b);
    CountAll(b, 0);
    if c[0] == |b| {
      return Empty;
    }
    LengthsInUse(b);
    var j := Shortest(c, b);
    var g := Longest(c, b);
    var l := if m < j then j else m;
    l := if l > g then g else l;
    var y := SpaceLeft(c, j, g, b);
    if y < 0 {
      return Oversubscribed;
    }
    PlanForOk(b, al, m);
    ghost var pl := PlanFor(b, al, m);
    c[g] := c[g] + y;
    var v := SortValues(b, c, g);
    var plan := Plan(b, al, c[..], l, g);
    assert plan == pl by { assert plan.cnt == pl.cnt; }
    NoShorterCodes(b, al, m, j);
    var pool, unset;
    ghost var info;
    pool, unset, info := PlaceCodes(plan, v[..], j);
    UnsetIff(plan);
    r := Built(if y != 0 && g != 1 then 1 else 0, pool, l, unset);
  }

  lemma NoShorterCodes(b: seq<nat>, al: Alphabet, m: nat, j: nat)
    requires LengthsOk(b) && AlphabetOk(b, al) && j == MinLen(b, 1) <= MaxLen(b, BMAX)
    ensures forall t :: 1 <= t < j ==> PlanFor(b, al, m).cnt[t] == 0
  {
    hide Count, Kraft, Pow2;
  }

  /** Lines 171-174. */
  method Shortest(c: array<nat>, ghost b: seq<nat>) returns (j: nat)
    requires c.Length == BMAX + 1 && forall k :: 0 <= k <= BMAX ==> c[k] == Count(b, k)
    ensures j == MinLen(b, 1)
  {
    hide Count;
    j := 1;
    while j <= BMAX && c[j] == 0
      invariant 1 <= j <= BMAX + 1 && MinLen(b, 1) == MinLen(b, j)
    {
      j := j + 1;
    }
  }

  /** Lines 177-180. */
  method Longest(c: array<nat>, ghost b: seq<nat>) returns (i: nat)
    requires c.Length == BMAX + 1 && forall k :: 0 <= k <= BMAX ==> c[k] == Count(b, k)
    ensures i == MaxLen(b, BMAX)
  {
    hide Count;
    i := BMAX;
    while i > 0 && c[i] == 0
      invariant i <= BMAX && MaxLen(b, BMAX) == MaxLen(b, i)
    {
      i := i - 1;
    }
  }

  // ----- what is not quite as intended -----

  /** The base table has `2^m` elements exactly when it is not itself wider than
      the lookup width: the shortest code is shorter than `m`, or all codes have
      `m` bits. */
  lemma BaseSize(pl: Plan, pool: Pool)
    requires Sized(pl) && PlanOk(pl) && IsTables(pl, pool)
    ensures |pool| > 0
    ensures |pool[0]| == Pow2(pl.l) <==> LenAt(pl, 0) < pl.l || pl.l == pl.g
    ensures |pool[0]| >= Pow2(pl.l)
  {
    hide LenAt, Filled, Holes, PlanOk, Cum, Rev, Stride;
    var info: seq<Info> :| Complete(pl, pool, info);
    BaseWidth(pl, pool, info);
    assert InfoOk(pl, info[0]);
    RevZero(pl.g);
    LastLength(pl);
    Pow2Mono(pl.l, info[0].width);
    if pl.l < info[0].width {
      Pow2Mono(pl.l + 1, info[0].width);
    }
  }

  lemma RevZero(g: nat)
    ensures Rev(g, 0) == 0
  {
    RevShort(0, g, 0);
  }

  lemma LastLength(pl: Plan)
    requires Sized(pl) && PlanOk(pl)
    ensures LenAt(pl, Pow2(pl.g) - 1) == pl.g
  {
    CumBelow(pl, pl.g - 1);
    LenAtIs(pl, Pow2(pl.g) - 1, pl.g);
  }

  /** A complete code of five symbols, looked up one bit at a time: the sub-table
      for the longer codes has three bits' worth of elements but is entered with
      the first only, and the string of three ones is lost. */
  lemma NarrowLookupLoses(pool: Pool)
    requires var pl := PlanFor([1, 3, 3, 3, 3], Alphabet(5, [], []), 1);
             Sized(pl) && PlanOk(pl) && IsTables(pl, pool)
    ensures Kraft([1, 3, 3, 3, 3], 3, 3) == Pow2(3)
    ensures StartsWith([1, 3, 3, 3, 3], 7, 4)
    ensures Walk(pool, 0, 1, 7, 0) == Lost
  {
    hide Walk, Complete, IdxAt, PayloadAt, PlanFor, PlanOk, Overwide, Kraft, Count, StartsWith, LenAt;
    FivePlan();
    FiveStartsWith();
    var pl := PlanFor([1, 3, 3, 3, 3], Alphabet(5, [], []), 1);
    assert Ones(1, 1, 3) == 7;
    var info: seq<Info> :| Complete(pl, pool, info);
    LostBase(pl, pool, info, 1, 1);
  }

  lemma FivePlan()
    ensures var pl := PlanFor([1, 3, 3, 3, 3], Alphabet(5, [], []), 1);
            && pl.g == 3 && pl.l == 1 && Sized(pl) && Overwide(pl, 1, Rev(3, 1))
    ensures Kraft([1, 3, 3, 3, 3], 3, 3) == Pow2(3)
  {
    hide Count;
    var lens := [1, 3, 3, 3, 3];
    var pl := PlanFor(lens, Alphabet(5, [], []), 1);
    FiveCounts();
    assert MinLen(lens, 1) == 1;
    assert MaxLen(lens, BMAX) == 3;
    assert Pow2(3) == 8 && Pow2(2) == 4 && Pow2(1) == 2 && Pow2(0) == 1;
    assert Cum(pl.cnt, 3, 1) == 4 && Cum(pl.cnt, 3, 2) == 4;
    assert LenAt(pl, 4) == 3 && LenAt(pl, 7) == 3;
    assert Rev(3, 1) == 4;
  }

  lemma FiveStartsWith()
    ensures StartsWith([1, 3, 3, 3, 3], 7, 4)
  {
    hide Count;
    var lens := [1, 3, 3, 3, 3];
    FiveCounts();
    assert lens[..4] == [1, 3, 3, 3];
    assert FirstCode(lens, 2) == 2 && FirstCode(lens, 3) == 4;
    assert Rev(1, 7) == 1 && Rev(2, 7) == 3 && Rev(3, 7) == 7;
  }

  lemma FiveCounts()
    ensures var lens := [1, 3, 3, 3, 3];
            && Count(lens, 1) == 1 && Count(lens, 3) == 4 && Count([1, 3, 3, 3], 3) == 3
            && forall k :: k != 1 && k != 3 ==> Count(lens, k) == 0
  {
    var lens := [1, 3, 3, 3, 3];
    assert lens[..4] == [1, 3, 3, 3];
    assert lens[..4][..3] == [1, 3, 3];
    assert lens[..4][..3][..2] == [1, 3];
    assert lens[..4][..3][..2][..1] == [1];
    assert lens[..4][..3][..2][..1][..0] == [];
    assert [1, 3, 3, 3][..3] == [1, 3, 3];
    assert [1, 3, 3][..2] == [1, 3];
    assert [1, 3][..1] == [1];
    assert [1][..0] == [];
    forall k
      ensures Count(lens, k) == (if k == 1 then 1 else 0) + (if k == 3 then 4 else 0)
    {
      assert Count([1], k) == if k == 1 then 1 else 0;
      assert Count([1, 3], k) == Count([1], k) + if k == 3 then 1 else 0;
      assert Count([1, 3, 3], k) == Count([1, 3], k) + if k == 3 then 1 else 0;
      assert Count([1, 3, 3, 3], k) == Count([1, 3, 3], k) + if k == 3 then 1 else 0;
    }
    assert Count([1, 3, 3, 3], 3) == 3;
  }
}
