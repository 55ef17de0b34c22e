/** The code-placing loop of `huft_build` (zip/inflate.c:215-316), step by step. */
module HuftLoop {
  import opened Bits
  import opened CanonicalCode
  import opened HuftPlan
  import opened HuftTables
  import opened HuftSteps

  /** An element of the local array `v[]`, which starts out unwritten. */
  datatype Cell = Uninit | Sym(s: nat)

  // ----- choosing the width of a new table -----

  /** Lines 242-256: the narrowest table for the codes below a prefix of `w` bits,
      of which `a + 1` codes of length `k` come first.  Without a test that the
      search may start at all, a table that is already `l` bits wide becomes wider. */
  method TableBits(pl: Plan, w: nat, k: nat, a: nat, ghost done: nat, ghost m: nat) returns (j: nat)
    requires Sized(pl) && PlanOk(pl) && w < k <= pl.g
    requires m + a + 1 == pl.cnt[k] && done == Cum(pl.cnt, pl.g, k - 1) + m * Pow2(pl.g - k)
    requires done + Pow2(pl.g - w) <= Pow2(pl.g) == Cum(pl.cnt, pl.g, pl.g)
    ensures k - w <= j <= pl.g - w
    ensures j < pl.l ==> done + Pow2(pl.g - w) <= Cum(pl.cnt, pl.g, w + j)
    ensures j > pl.l <==> k - w > pl.l || (k - w == pl.l && Cum(pl.cnt, pl.g, k) < done + Pow2(pl.g - w))
  {
    hide PlanOk, Pow2, Cum;
    var z := if pl.g - w > pl.l then pl.l else pl.g - w;
    j := k - w;
    var f := Pow2(j);
    ghost var end := done + Pow2(pl.g - w);
    Patterns(pl, w, k, a, done, m);
    if f > a + 1 {
      f := f - (a + 1);
      var xp := k;
      j := j + 1;
      while j < z
        invariant k - w < j && xp == w + j - 1 && k <= xp < pl.g
        invariant f > 0 && f * Pow2(pl.g - xp) == end - Cum(pl.cnt, pl.g, xp)
        invariant j <= z || j == k - w + 1
        decreases z - j
      {
        MoreBits(pl, f, xp, end);
        f := 2 * f;
        xp := xp + 1;
        if f <= pl.cnt[xp] {
          break;
        }
        f := f - pl.cnt[xp];
        j := j + 1;
      }
    }
  }

  /** The arithmetic of the first test: patterns of `k - w` bits against codes. */
  lemma Patterns(pl: Plan, w: nat, k: nat, a: nat, done: nat, m: nat)
    requires Sized(pl) && PlanOk(pl) && w < k <= pl.g
    requires m + a + 1 == pl.cnt[k] && done == Cum(pl.cnt, pl.g, k - 1) + m * Pow2(pl.g - k)
    requires done + Pow2(pl.g - w) <= Pow2(pl.g)
    ensures var d := Pow2(k - w) - (a + 1); var end := done + Pow2(pl.g - w);
            && d * Pow2(pl.g - k) == end - Cum(pl.cnt, pl.g, k)
            && (d > 0 <==> end > Cum(pl.cnt, pl.g, k))
            && (d > 0 ==> k < pl.g)
  {
    Pow2Add(k - w, pl.g - k);
    Deficit(Pow2(k - w), a + 1, m, Pow2(pl.g - k));
  }

  lemma Deficit(x: int, n: int, m: int, u: int)
    requires u > 0
    ensures (x - n) * u == (m * u + x * u) - (m + n) * u
    ensures x - n > 0 <==> m * u + x * u > (m + n) * u
  {
    MulDist(x - n, n, u);
    MulDist(m, n, u);
    MulSign(x - n, u);
  }

  lemma MulSign(d: int, u: int)
    requires u > 0
    ensures d > 0 <==> d * u > 0
  {
  }

  lemma MoreBits(pl: Plan, f: nat, xp: nat, end: int)
    requires Sized(pl) && PlanOk(pl) && 1 <= xp < pl.g && end <= Pow2(pl.g)
    requires f > 0 && f * Pow2(pl.g - xp) == end - Cum(pl.cnt, pl.g, xp)
    ensures var d := 2 * f - pl.cnt[xp + 1];
            && d * Pow2(pl.g - (xp + 1)) == end - Cum(pl.cnt, pl.g, xp + 1)
            && (d > 0 <==> end > Cum(pl.cnt, pl.g, xp + 1))
            && (d > 0 ==> xp + 1 < pl.g)
  {
    var u := Pow2(pl.g - (xp + 1));
    MulDouble(f, u);
    Deficit(2 * f, pl.cnt[xp + 1], 0, u);
  }

  /** The width exceeds the stride exactly for the prefixes named `Overwide`. */
  lemma WidthIsOverwide(pl: Plan, w: nat, k: nat, done: nat)
    requires Sized(pl) && PlanOk(pl) && w < k <= pl.g && LenAt(pl, done) == k
    requires done + Pow2(pl.g - w) <= Pow2(pl.g)
    ensures Overwide(pl, w, done) <==>
            k - w > pl.l || (k - w == pl.l && Cum(pl.cnt, pl.g, k) < done + Pow2(pl.g - w))
  {
    var last := done + Pow2(pl.g - w) - 1;
    LenAtMono(pl, done, last);
    LenAtBounds(pl, last);
    if LenAt(pl, last) <= k {
      CumMono(pl.cnt, pl.g, LenAt(pl, last), k);
    } else {
      CumMono(pl.cnt, pl.g, k, LenAt(pl, last) - 1);
    }
  }

  // ----- writing a code into its table -----

  /** Lines 298-300: every `2^(k-w)`-th element, from the code's own index on. */
  method FillEntries(pool: Pool, q: nat, z: nat, i: nat, w: nat, k: nat, what: Payload) returns (pool': Pool)
    requires q < |pool| && |pool[q]| == z && w < k && i < Pow2(k)
    ensures IsFill(pool, pool', q, i, w, k, what)
  {
    var f := Pow2(k - w);
    var c := Shr(i, w);
    ShrBound(i, w, k - w);
    var j := c;
    var tab := pool[q];
    ghost var s := 0;
    NoneBelow(c, k - w);
    while j < z
      invariant j == c + s * f && |tab| == z
      invariant forall n :: 0 <= n < z ==>
                tab[n] == if n < j && Low(n, k - w) == c then Leaf(k - w, what) else pool[q][n]
      decreases z - j
    {
      LowJoin(c, s, k - w);
      NoneBetween(c, s, k - w);
      MulDist(s, 1, f);
      tab := tab[j := Leaf(k - w, what)];
      j := j + f;
      s := s + 1;
    }
    pool' := pool[q := tab];
  }

  lemma NoneBelow(c: nat, b: nat)
    requires c < Pow2(b)
    ensures forall n :: 0 <= n < c ==> Low(n, b) != c
  {
    forall n | 0 <= n < c
      ensures Low(n, b) != c
    {
      LowSmall(n, b);
    }
  }

  lemma NoneBetween(c: nat, s: nat, b: nat)
    requires c < Pow2(b)
    ensures forall n :: c + s * Pow2(b) < n < c + s * Pow2(b) + Pow2(b) ==> Low(n, b) != c
  {
    forall n | c + s * Pow2(b) < n < c + s * Pow2(b) + Pow2(b)
      ensures Low(n, b) != c
    {
      LowShr(n, b);
      BlockDiv(n - c, Pow2(b), s);
      BlockDiv(n - c, Pow2(b), Shr(n, b));
    }
  }

  // ----- the next code -----

  /** Lines 303-305; `j` is `2^b`, and zero once `b` is negative. */
  method RevIncrement(k: nat, i: nat) returns (i': nat)
    requires k > 0 && i < Pow2(k)
    ensures i' == RevInc(k, i)
  {
    i' := i;
    var b: int := k - 1;
    while b >= 0 && Bit(i', b) == 1
      invariant -1 <= b < k && i' < Pow2(b + 1)
      invariant RevInc(k, i) == RevInc(b + 1, i')
      decreases b
    {
      LowSucc(i', b);
      LowSmall(i', b + 1);
      LowBound(i', b);
      i' := i' - Pow2(b);
      b := b - 1;
    }
    if b >= 0 {
      i' := i' + Pow2(b);
    }
  }

  // ----- the value of a code -----

  /** The `m`-th symbol of length `k` among the first symbols `done` is in place. */
  ghost predicate InPlace(lens: seq<nat>, done: seq<nat>, v: seq<Cell>, k: nat, m: nat)
  {
    m < Count(done, k) ==>
      Offset(lens, k) + m < |v| && v[Offset(lens, k) + m] == Sym(NthSym(done, k, m))
  }

  ghost predicate ValuesOk(lens: seq<nat>, v: seq<Cell>)
  {
    && |lens| <= |v|
    && (forall k, m :: 1 <= k <= BMAX && 0 <= m ==> InPlace(lens, lens, v, k, m))
    && (forall r :: Coded(lens) <= r < |v| ==> v[r] == Uninit)
  }

  function Min(a: nat, b: nat): (r: nat)
  {
    if a <= b then a else b
  }

  /** Lines 283-294: the value for the code, and the advance of `p`.  `unset` says that
      the element of `v[]` that `p` is at was never written; it then is an index into
      `e` and `d` all the same. */
  method PickValue(pl: Plan, v: seq<Cell>, p: nat, ghost k: nat, ghost m: nat) returns (what: Payload, p': nat, unset: bool)
    requires Sized(pl) && PlanOk(pl) && ValuesOk(pl.lens, v)
    requires 1 <= k <= pl.g && m < pl.cnt[k]
    requires p == Min(|pl.lens|, Ranks(pl.cnt, k - 1) + m)
    ensures what == PayloadOf(pl.lens, pl.al, k, m)
    ensures p' == Min(|pl.lens|, Ranks(pl.cnt, k - 1) + m + 1)
    ensures unset == what.Stale? == (p < |v| && p < |pl.lens| && v[p] == Uninit)
  {
    ValueAt(pl, v, k, m);
    unset := false;
    if p >= |pl.lens| {
      what, p' := Invalid, p;
    } else {
      p' := p + 1;
      match v[p]
      case Uninit =>
        what, unset := Stale, true;
      case Sym(s) =>
        what := SymPayload(pl.al, s);
    }
  }

  lemma ValueAt(pl: Plan, v: seq<Cell>, k: nat, m: nat)
    requires Sized(pl) && PlanOk(pl) && ValuesOk(pl.lens, v)
    requires 1 <= k <= pl.g && m < pl.cnt[k]
    ensures var r := Ranks(pl.cnt, k - 1) + m;
            && (m < Count(pl.lens, k) ==> r < |pl.lens| && v[r] == Sym(NthSym(pl.lens, k, m)))
            && (m >= Count(pl.lens, k) ==> r == Coded(pl.lens) + (m - Count(pl.lens, k)))
            && (m >= Count(pl.lens, k) && r < |pl.lens| ==> v[r] == Uninit)
  {
    assert InPlace(pl.lens, pl.lens, v, k, m);
    RanksAreOffsets(pl, k);
    TotalCount(pl.lens, pl.g);
    OffsetMono(pl.lens, k, pl.g + 1);
  }

  lemma {:induction false} RanksAreOffsets(pl: Plan, k: nat)
    requires Sized(pl) && PlanOk(pl) && 1 <= k <= pl.g
    ensures Ranks(pl.cnt, k - 1) == Offset(pl.lens, k)
  {
    if k > 1 {
      RanksAreOffsets(pl, k - 1);
    }
  }

  lemma {:induction false} OffsetMono(lens: seq<nat>, a: nat, b: nat)
    requires 1 <= a <= b
    ensures Offset(lens, a) <= Offset(lens, b)
    ensures a < b ==> Offset(lens, a) + Count(lens, a) <= Offset(lens, b)
  {
    if a < b {
      OffsetMono(lens, a, b - 1);
    }
  }

  /** The coded symbols are those of length 1 to `g`. */
  lemma {:induction false} TotalCount(lens: seq<nat>, g: nat)
    requires forall s :: 0 <= s < |lens| ==> lens[s] <= g
    ensures Count(lens, 0) + Offset(lens, g + 1) == |lens|
  {
    if |lens| == 0 {
      OffsetEmpty(g + 1);
    } else {
      var n := |lens| - 1;
      TotalCount(lens[..n], g);
      OffsetStep(lens, g + 1);
    }
  }

  lemma {:induction false} OffsetEmpty(k: nat)
    ensures Offset([], k) == 0
  {
    if k > 1 {
      OffsetEmpty(k - 1);
    }
  }

  lemma {:induction false} OffsetStep(lens: seq<nat>, k: nat)
    requires |lens| > 0
    ensures var n := |lens| - 1;
            Offset(lens, k) == Offset(lens[..n], k) + if 1 <= lens[n] < k then 1 else 0
  {
    if k > 1 {
      OffsetStep(lens, k - 1);
    }
  }
}
