/** The code sets that inflate.c hands to `huft_build`, and why their tables are right. */
module CodeSets {
  import opened Bits
  import opened CanonicalCode
  import opened DeflateSpec
  import opened HuftPlan
  import opened HuftTables
  import opened HuftLoop
  import opened HuftWalk
  import opened Huft
  import opened Lookup

  lemma LongestIsMaxLen(lens: seq<nat>)
    requires LengthsOk(lens)
    ensures DeflateSpec.Longest(lens) == MaxLen(lens, BMAX)
  {
    hide Count;
    var g, g' := DeflateSpec.Longest(lens), MaxLen(lens, BMAX);
    if g > 0 {
      var s :| 0 <= s < |lens| && lens[s] == g;
      CountPositive(lens, s);
    }
    if g' > 0 {
      var s := NthSym(lens, g', 0);
    }
  }

  ghost predicate SafePlan(pl: Plan)
  {
    Sized(pl) && pl.l <= 9 && NoOverwide(pl)
  }

  /** Of the sets that are taken, those that make the builder use an unset element are
      the lone codes of one bit. */
  lemma LoneUnset(b: seq<nat>)
    requires LengthsOk(b) && UsableSet(b)
    ensures var g := MaxLen(b, BMAX);
            Kraft(b, g, g) < Pow2(g) && 0 < Count(b, 0) < |b| <==> LoneBit(b)
  {
    hide Count;
    LongestIsMaxLen(b);
    var g := MaxLen(b, BMAX);
    assert Pow2(0) == 1 && Pow2(1) == 2;
    assert Kraft(b, 0, 0) == 0;
    assert Offset(b, 1) == 0;
    if Count(b, 0) < |b| {
      LengthsInUse(b);
      TotalCount(b, g);
      if LoneBit(b) {
        OffsetMono(b, 2, g + 1);
        if g > 1 {
          OffsetMono(b, 2, g);
        }
      }
      if g == 1 {
        assert Kraft(b, 1, 1) == Kraft(b, 1, 0) + Count(b, 1) * Pow2(0);
        assert Kraft(b, 1, 0) == 0;
      }
    }
  }

  /** A stream with one distance code, for the second of two distances: that set is
      taken, and the string `1` then selects an unset element. */
  lemma LoneDistance()
    ensures UsableSet([0, 1]) && LoneBit([0, 1]) && LengthsOk([0, 1])
    ensures PayloadOf([0, 1], Alphabet(0, DIST_BASE, DIST_EXTRA), 1, 1).Stale?
  {
    var b := [0, 1];
    assert b[..1] == [0] && b[..1][..0] == [] && [0][..0] == [];
    assert Count([], 0) == 0 && Count([], 1) == 0;
    assert Count([0], 0) == 1 && Count([0], 1) == 0;
    assert Count(b, 0) == 1 && Count(b, 1) == 1;
    assert DeflateSpec.Longest([]) == 0;
    assert DeflateSpec.Longest([0]) == 0;
    assert DeflateSpec.Longest(b) == 1;
    assert Pow2(0) == 1 && Pow2(1) == 2;
    assert Kraft(b, 1, 0) == 0;
  }

  /** `huft_build`, seen by its callers: it returns 0 exactly for the usable sets, and
      of these it uses an unset element exactly for the lone codes. */
  method MakeTable(b: seq<nat>, al: Alphabet, m: nat) returns (code: nat, t: Table, unset: bool)
    requires LengthsOk(b) && |b| <= 288 && AlphabetOk(b, al)
    ensures code == 0 <==> UsableSet(b)
    ensures code <= 1 && SafePlan(PlanFor(b, al, m)) ==> Follows(t, b, al, PlanFor(b, al, m))
    ensures code <= 1 && t.Null? ==> Follows(t, b, al, PlanFor(b, al, m))
    ensures code <= 1 <==> Kraft(b, MaxLen(b, BMAX), MaxLen(b, BMAX)) <= Pow2(MaxLen(b, BMAX))
    ensures t.Table? ==> t.m == PlanFor(b, al, m).l
    ensures (forall s :: 0 <= s < |b| ==> b[s] == 0) ==> t.Null?
    ensures code == 0 ==> (unset <==> LoneBit(b))
  {
    hide Kraft, Pow2, PlanFor, PlanOk, NoOverwide, IsTables, Count, LoneBit;
    LongestIsMaxLen(b);
    unset := false;
    CountAll(b, 0);
    if UsableSet(b) {
      LoneUnset(b);
    }
    var r := Build(b, al, m);
    match r
    case Empty =>
      EmptySet(b);
      code, t := 0, Null;
    case Oversubscribed =>
      code, t := 2, Null;
    case Built(c, pool, l, u) =>
      CodedSet(b);
      PlanForFields(b, al, m);
      code, t, unset := c, Table(pool, l), u;
      if SafePlan(PlanFor(b, al, m)) {
        assert Backed(PlanFor(b, al, m), pool, l, b, al);
      }
  }

  lemma PlanForFields(b: seq<nat>, al: Alphabet, m: nat)
    ensures var pl := PlanFor(b, al, m);
            && pl.lens == b && pl.al == al && pl.g == MaxLen(b, BMAX)
            && pl.l == Clamp(m, MinLen(b, 1), MaxLen(b, BMAX))
  {
  }

  lemma EmptySet(b: seq<nat>)
    requires forall s :: 0 <= s < |b| ==> b[s] == 0
    ensures MaxLen(b, BMAX) == 0 && Kraft(b, 0, 0) <= Pow2(0)
  {
    hide Count;
    if MaxLen(b, BMAX) > 0 {
      var s := NthSym(b, MaxLen(b, BMAX), 0);
    }
  }

  lemma CodedSet(b: seq<nat>)
    requires LengthsOk(b) && !(forall s :: 0 <= s < |b| ==> b[s] == 0)
    ensures MaxLen(b, BMAX) >= 1
  {
    hide Count;
    CountAll(b, 0);
    LengthsInUse(b);
  }

  // ----- complete sets -----

  /** The shortest code of a complete set is short when there are few symbols. */
  lemma ShortestBound(b: seq<nat>, al: Alphabet, m: nat)
    requires LengthsOk(b) && AlphabetOk(b, al) && Count(b, 0) < |b|
    requires var g := MaxLen(b, BMAX); Kraft(b, g, g) == Pow2(g)
    ensures var pl := PlanFor(b, al, m);
            Sized(pl) && PlanOk(pl) && Pow2(MinLen(b, 1)) <= Ranks(pl.cnt, pl.g) <= |b|
  {
    hide Kraft, Pow2, Cum, Ranks, Count, PlanOk;
    PlanForOk(b, al, m);
    LengthsInUse(b);
    var pl, k := PlanFor(b, al, m), MinLen(b, 1);
    NothingShorter(pl, k);
    TailBound(pl, k, pl.g);
    Pow2Add(k, pl.g - k);
    CumOfPlan(b, al, m, pl.g);
    MulCancel(Pow2(k), Ranks(pl.cnt, pl.g), Pow2(pl.g - k));
    RanksBound(pl);
  }

  lemma {:induction false} NothingShorter(pl: Plan, k: nat)
    requires Sized(pl) && 1 <= k <= pl.g && forall t :: 1 <= t < k ==> pl.cnt[t] == 0
    ensures Cum(pl.cnt, pl.g, k - 1) == 0 && Ranks(pl.cnt, k - 1) == 0
  {
    if k > 1 {
      NothingShorter(pl, k - 1);
    }
  }

  /** In a complete set every code belongs to a symbol. */
  lemma RanksBound(pl: Plan)
    requires Sized(pl) && PlanOk(pl) && pl.cnt[pl.g] == Count(pl.lens, pl.g)
    ensures Ranks(pl.cnt, pl.g) <= |pl.lens|
  {
    hide Count, Offset;
    RanksAreOffsets(pl, pl.g);
    TotalCount(pl.lens, pl.g);
    assert Offset(pl.lens, pl.g + 1) == Offset(pl.lens, pl.g) + Count(pl.lens, pl.g) by { OffsetNext(pl.lens, pl.g); }
  }

  lemma OffsetNext(lens: seq<nat>, g: nat)
    requires g >= 1
    ensures Offset(lens, g + 1) == Offset(lens, g) + Count(lens, g)
  {
  }

  lemma SmallPower(k: nat)
    requires Pow2(k) <= 288
    ensures k <= 8
    ensures Pow2(k) <= 30 ==> k <= 4
  {
    assert Pow2(3) == 8;
    assert Pow2(5) == 32;
    assert Pow2(7) == 128;
    assert Pow2(9) == 512;
    if k >= 9 {
      Pow2Mono(9, k);
    }
    if k >= 5 {
      Pow2Mono(5, k);
    }
  }

  /** The literal/length code: usable, at most 288 symbols, lookup width 9. */
  lemma LiteralSafe(b: seq<nat>, al: Alphabet)
    requires LengthsOk(b) && AlphabetOk(b, al) && |b| <= 288 && UsableSet(b) && Count(b, 0) < |b|
    ensures SafePlan(PlanFor(b, al, 9))
  {
    hide Kraft, Pow2, Count, NoOverwide, PlanOk, PlanFor;
    LongestIsMaxLen(b);
    LengthsInUse(b);
    PlanForOk(b, al, 9);
    PlanForFields(b, al, 9);
    if MaxLen(b, BMAX) > 1 {
      ShortestBound(b, al, 9);
      SmallPower(MinLen(b, 1));
    }
    ShortCodes(PlanFor(b, al, 9));
  }

  /** The distance code: usable, at most 30 symbols, lookup width 6. */
  lemma DistanceSafe(b: seq<nat>, al: Alphabet)
    requires LengthsOk(b) && AlphabetOk(b, al) && |b| <= 30 && UsableSet(b) && Count(b, 0) < |b|
    ensures SafePlan(PlanFor(b, al, 6))
  {
    hide Kraft, Pow2, Count, NoOverwide, PlanOk, PlanFor, Ranks;
    LongestIsMaxLen(b);
    LengthsInUse(b);
    PlanForOk(b, al, 6);
    PlanForFields(b, al, 6);
    var pl := PlanFor(b, al, 6);
    if pl.g > 12 {
      ShortestBound(b, al, 6);
      SmallPower(MinLen(b, 1));
      Pow2Six();
      FewCodes(pl);
    } else {
      if MaxLen(b, BMAX) > 1 {
        ShortestBound(b, al, 6);
        SmallPower(MinLen(b, 1));
      }
      ShortCodes(pl);
    }
  }

  lemma Pow2Six()
    ensures Pow2(6) == 64
  {
    assert Pow2(3) == 8;
  }

  /** The code length code: usable, lengths at most 7, lookup width 7; its table has
      a single level. */
  lemma TreeSafe(b: seq<nat>, al: Alphabet)
    requires LengthsOk(b) && AlphabetOk(b, al) && UsableSet(b) && Count(b, 0) < |b|
    requires forall s :: 0 <= s < |b| ==> b[s] <= 7
    ensures SafePlan(PlanFor(b, al, 7)) && PlanFor(b, al, 7).l == PlanFor(b, al, 7).g
  {
    hide Kraft, Pow2, Count, NoOverwide, PlanOk, PlanFor;
    LongestIsMaxLen(b);
    LengthsInUse(b);
    PlanForOk(b, al, 7);
    PlanForFields(b, al, 7);
    ShortCodes(PlanFor(b, al, 7));
  }

  // ----- the fixed codes -----

  function Between(lo: nat, n: nat, hi: nat): (r: nat)
    requires lo <= hi
  {
    if n <= lo then 0 else if n >= hi then hi - lo else n - lo
  }

  lemma {:induction false} FixedLitPrefix(n: nat, k: nat)
    requires n <= 288
    ensures Count(FixedLit()[..n], k) ==
            if k == 7 then Between(256, n, 280)
            else if k == 8 then Between(0, n, 144) + Between(280, n, 288)
            else if k == 9 then Between(144, n, 256)
            else 0
  {
    if n > 0 {
      FixedLitPrefix(n - 1, k);
      CountStep(FixedLit(), n - 1, k);
    }
  }

  lemma FixedLitCounts(k: nat)
    ensures Count(FixedLit(), k) == if k == 7 then 24 else if k == 8 then 152 else if k == 9 then 112 else 0
  {
    FixedLitPrefix(288, k);
    assert FixedLit()[..288] == FixedLit();
  }

  lemma FixedLitUsable()
    ensures LengthsOk(FixedLit()) && UsableSet(FixedLit())
    ensures MinLen(FixedLit(), 1) == 7 && MaxLen(FixedLit(), BMAX) == 9
  {
    hide Count;
    var b := FixedLit();
    forall k: nat
      ensures Count(b, k) == if k == 7 then 24 else if k == 8 then 152 else if k == 9 then 112 else 0
    {
      FixedLitCounts(k);
    }
    LongestIsMaxLen(b);
    NoKraftBelow(b, 9, 7);
    assert Pow2(0) == 1 && Pow2(1) == 2 && Pow2(2) == 4;
    assert Kraft(b, 9, 7) == 96;
    assert Kraft(b, 9, 8) == 400;
    assert Kraft(b, 9, 9) == 512;
    assert Pow2(3) == 8 && Pow2(6) == 64 && Pow2(9) == 512;
  }

  lemma {:induction false} FixedDistPrefix(n: nat, k: nat)
    requires n <= 30
    ensures Count(FixedDist()[..n], k) == if k == 5 then n else 0
  {
    if n > 0 {
      FixedDistPrefix(n - 1, k);
      CountStep(FixedDist(), n - 1, k);
    }
  }

  lemma FixedDistKraft()
    ensures LengthsOk(FixedDist())
    ensures MinLen(FixedDist(), 1) == 5 && MaxLen(FixedDist(), BMAX) == 5
    ensures Kraft(FixedDist(), 5, 5) == 30 <= Pow2(5)
  {
    hide Count;
    var b := FixedDist();
    forall k: nat
      ensures Count(b, k) == if k == 5 then 30 else 0
    {
      FixedDistPrefix(30, k);
      assert b[..30] == b;
    }
    NoKraftBelow(b, 5, 5);
    assert Pow2(0) == 1 && Pow2(2) == 4 && Pow2(5) == 32;
  }

  lemma FixedSafe(lit: Alphabet, dist: Alphabet)
    requires AlphabetOk(FixedLit(), lit) && AlphabetOk(FixedDist(), dist)
    ensures SafePlan(PlanFor(FixedLit(), lit, 7)) && SafePlan(PlanFor(FixedDist(), dist, 5))
  {
    hide Kraft, Pow2, Count, NoOverwide, PlanOk, PlanFor;
    FixedLitUsable();
    FixedDistKraft();
    LongestIsMaxLen(FixedLit());
    CountZeroNone(FixedLit());
    CountZeroNone(FixedDist());
    PlanForOk(FixedLit(), lit, 7);
    PlanForOk(FixedDist(), dist, 5);
    PlanForFields(FixedLit(), lit, 7);
    PlanForFields(FixedDist(), dist, 5);
    ShortCodes(PlanFor(FixedLit(), lit, 7));
    ShortCodes(PlanFor(FixedDist(), dist, 5));
  }

  /** The fixed distance code is incomplete, but no symbol is without a code. */
  lemma FixedDistTaken()
    ensures Taken(FixedDist())
  {
    FixedDistPrefix(30, 0);
    assert FixedDist()[..30] == FixedDist();
  }

  lemma CountZeroNone(b: seq<nat>)
    requires |b| > 0 && forall s :: 0 <= s < |b| ==> b[s] > 0
    ensures Count(b, 0) < |b|
  {
    CountAll(b, 0);
    assert b[0] > 0;
  }

  /** The table for the fixed literal code is asked for with 7 bits and does get a
      base table of more than `2^7` elements. */
  lemma FixedBaseIsLarger(lit: Alphabet, pool: Pool)
    requires var pl := PlanFor(FixedLit(), lit, 7); Sized(pl) && PlanOk(pl) && IsTables(pl, pool)
    ensures |pool| > 0 && PlanFor(FixedLit(), lit, 7).l == 7 && |pool[0]| > Pow2(7)
  {
    hide Kraft, Pow2, Count, IsTables, PlanOk, Cum, PlanFor;
    FixedLitUsable();
    PlanForFields(FixedLit(), lit, 7);
    var pl := PlanFor(FixedLit(), lit, 7);
    BaseSize(pl, pool);
    FirstLength(FixedLit(), lit, 7);
  }

  /** The first position belongs to the shortest codes. */
  lemma FirstLength(b: seq<nat>, al: Alphabet, m: nat)
    requires var pl := PlanFor(b, al, m); Sized(pl) && PlanOk(pl)
    requires 1 <= MinLen(b, 1) <= MaxLen(b, BMAX)
    ensures LenAt(PlanFor(b, al, m), 0) == MinLen(b, 1)
  {
    hide Kraft, Pow2, Count;
    var pl, k := PlanFor(b, al, m), MinLen(b, 1);
    NothingShorter(pl, k);
    assert Cum(pl.cnt, pl.g, k) == pl.cnt[k] * Pow2(pl.g - k);
    MulMono(Pow2(pl.g - k), 1, pl.cnt[k]);
    LenAtIs(pl, 0, k);
  }
}
