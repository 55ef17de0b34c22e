/** What `huft_build` (zip/inflate.c:122-322) knows once it has counted the code
    lengths: the code space cut into consecutive blocks, shortest codes first.

    Positions are reversed bit strings of `g` bits, so the codes are laid out in
    the order in which the builder generates them. */
module HuftPlan {
  import opened Bits
  import opened CanonicalCode

  /** Base values and extra-bit counts of the non-simple symbols. */
  datatype Alphabet = Alphabet(simple: nat, base: seq<nat>, extra: seq<nat>)

  /** What a leaf of the tables says: `e` and `v.n` of a `struct huft`, the marker
      99, or whatever an unwritten element of `v[]` happens to select. */
  datatype Payload = Value(e: nat, n: nat) | Invalid | Stale

  /** `cnt` are the length counts after the last one was raised to fill the code
      space, `g` is the longest length, `l` the lookup width. */
  datatype Plan = Plan(lens: seq<nat>, al: Alphabet, cnt: seq<nat>, l: nat, g: nat)

  predicate AlphabetOk(lens: seq<nat>, al: Alphabet)
  {
    |al.base| == |al.extra| && |lens| <= al.simple + |al.base|
  }

  /** End of the codes of length at most `k`, in units of `2^-g`. */
  function Cum(cnt: seq<nat>, g: nat, k: nat): (r: nat)
    requires k <= g < |cnt|
  {
    if k == 0 then 0 else Cum(cnt, g, k - 1) + cnt[k] * Pow2(g - k)
  }

  /** Number of codes of length at most `k`, the filling ones included. */
  function Ranks(cnt: seq<nat>, k: nat): (r: nat)
    requires k < |cnt|
  {
    if k == 0 then 0 else Ranks(cnt, k - 1) + cnt[k]
  }

  predicate Sized(pl: Plan)
  {
    && 0 < |pl.lens|
    && AlphabetOk(pl.lens, pl.al)
    && |pl.cnt| == BMAX + 1
    && 1 <= pl.l <= pl.g <= BMAX
  }

  ghost predicate PlanOk(pl: Plan)
    requires Sized(pl)
  {
    && (forall s :: 0 <= s < |pl.lens| ==> pl.lens[s] <= pl.g)
    && (forall k :: 1 <= k < pl.g ==> pl.cnt[k] == Count(pl.lens, k))
    && pl.cnt[pl.g] >= Count(pl.lens, pl.g) > 0
    && Cum(pl.cnt, pl.g, pl.g) == Pow2(pl.g)
  }

  lemma {:induction false} CumMono(cnt: seq<nat>, g: nat, a: nat, b: nat)
    requires a <= b <= g < |cnt|
    ensures Cum(cnt, g, a) <= Cum(cnt, g, b)
  {
    if a < b {
      CumMono(cnt, g, a, b - 1);
    }
  }

  lemma {:induction false} CumIsKraft(pl: Plan, k: nat)
    requires Sized(pl) && PlanOk(pl) && k < pl.g
    ensures Cum(pl.cnt, pl.g, k) == Kraft(pl.lens, pl.g, k)
  {
    if k > 0 {
      CumIsKraft(pl, k - 1);
    }
  }

  /** Shorter codes never use the whole space. */
  lemma CumBelow(pl: Plan, k: nat)
    requires Sized(pl) && PlanOk(pl) && k < pl.g
    ensures Cum(pl.cnt, pl.g, k) < Pow2(pl.g)
  {
    CumMono(pl.cnt, pl.g, k, pl.g - 1);
    assert Pow2(0) == 1;
  }

  // ----- which code owns a position -----

  function LenFrom(cnt: seq<nat>, g: nat, p: nat, k: nat): (r: nat)
    requires k <= g < |cnt|
    ensures k <= r <= g
    decreases g - k
  {
    if k == g || p < Cum(cnt, g, k) then k else LenFrom(cnt, g, p, k + 1)
  }

  /** Length of the code whose block holds position `p`. */
  function LenAt(pl: Plan, p: nat): (r: nat)
    requires Sized(pl)
    ensures 1 <= r <= pl.g
  {
    LenFrom(pl.cnt, pl.g, p, 1)
  }

  /** Which one of the codes of that length it is. */
  function IdxAt(pl: Plan, p: nat): (m: int)
    requires Sized(pl)
  {
    var k := LenAt(pl, p);
    (p - Cum(pl.cnt, pl.g, k - 1)) / Pow2(pl.g - k)
  }

  lemma {:induction false} LenFromIs(cnt: seq<nat>, g: nat, p: nat, from: nat, k: nat)
    requires 1 <= from <= k <= g < |cnt|
    requires Cum(cnt, g, k - 1) <= p < Cum(cnt, g, k)
    ensures LenFrom(cnt, g, p, from) == k
    decreases k - from
  {
    if from < k {
      CumMono(cnt, g, from, k - 1);
      LenFromIs(cnt, g, p, from + 1, k);
    }
  }

  lemma {:induction false} LenFromBounds(cnt: seq<nat>, g: nat, p: nat, from: nat)
    requires 1 <= from <= g < |cnt|
    requires Cum(cnt, g, from - 1) <= p < Cum(cnt, g, g)
    ensures var k := LenFrom(cnt, g, p, from);
            Cum(cnt, g, k - 1) <= p < Cum(cnt, g, k)
    decreases g - from
  {
    if from < g && p >= Cum(cnt, g, from) {
      LenFromBounds(cnt, g, p, from + 1);
    }
  }

  lemma LenAtBounds(pl: Plan, p: nat)
    requires Sized(pl) && PlanOk(pl) && p < Pow2(pl.g)
    ensures Cum(pl.cnt, pl.g, LenAt(pl, p) - 1) <= p < Cum(pl.cnt, pl.g, LenAt(pl, p))
  {
    LenFromBounds(pl.cnt, pl.g, p, 1);
  }

  lemma LenAtIs(pl: Plan, p: nat, k: nat)
    requires Sized(pl) && PlanOk(pl) && 1 <= k <= pl.g
    requires Cum(pl.cnt, pl.g, k - 1) <= p < Cum(pl.cnt, pl.g, k)
    ensures LenAt(pl, p) == k
  {
    LenFromIs(pl.cnt, pl.g, p, 1, k);
  }

  /** Every position in the block of code number `m` of length `k` belongs to it. */
  lemma BlockOwner(pl: Plan, k: nat, m: nat, start: nat, p: nat)
    requires Sized(pl) && PlanOk(pl) && 1 <= k <= pl.g && m < pl.cnt[k]
    requires start == Cum(pl.cnt, pl.g, k - 1) + m * Pow2(pl.g - k)
    requires start <= p < start + Pow2(pl.g - k)
    ensures LenAt(pl, p) == k && IdxAt(pl, p) == m
  {
    InBlock(Cum(pl.cnt, pl.g, k - 1), Pow2(pl.g - k), pl.cnt[k], m, p);
    LenAtIs(pl, p, k);
  }

  /** And every position has an owner. */
  lemma OwnerBlock(pl: Plan, p: nat) returns (k: nat, m: nat, start: nat)
    requires Sized(pl) && PlanOk(pl) && p < Pow2(pl.g)
    ensures k == LenAt(pl, p) && m == IdxAt(pl, p) && m < pl.cnt[k]
    ensures start == Cum(pl.cnt, pl.g, k - 1) + m * Pow2(pl.g - k)
    ensures start <= p < start + Pow2(pl.g - k)
  {
    hide PlanOk, Pow2, LenAt;
    k := LenAt(pl, p);
    LenAtBounds(pl, p);
    BlockOf(Cum(pl.cnt, pl.g, k - 1), Pow2(pl.g - k), pl.cnt[k], p);
    m := IdxAt(pl, p);
    start := Cum(pl.cnt, pl.g, k - 1) + m * Pow2(pl.g - k);
  }

  /** Longer codes come later. */
  lemma LenAtMono(pl: Plan, p: nat, q: nat)
    requires Sized(pl) && PlanOk(pl) && p <= q < Pow2(pl.g)
    ensures LenAt(pl, p) <= LenAt(pl, q)
  {
    LenAtBounds(pl, p);
    LenAtBounds(pl, q);
    if LenAt(pl, q) < LenAt(pl, p) {
      CumMono(pl.cnt, pl.g, LenAt(pl, q), LenAt(pl, p) - 1);
    }
  }

  // ----- what the tables should say -----

  function SymPayload(al: Alphabet, s: nat): (r: Payload)
    requires |al.base| == |al.extra| && s < al.simple + |al.base|
    ensures r.Value?
  {
    if s < al.simple then Value(if s < 256 then 16 else 15, s)
    else Value(al.extra[s - al.simple], al.base[s - al.simple])
  }

  function Coded(lens: seq<nat>): (r: nat)
  {
    |lens| - Count(lens, 0)
  }

  /** Code number `m` of length `k`.  Beyond the real codes the builder runs off
      the values it has sorted: first into elements of `v[]` nobody wrote, then,
      once past `n` elements, into the marker for an invalid code. */
  function PayloadOf(lens: seq<nat>, al: Alphabet, k: nat, m: nat): (r: Payload)
    requires AlphabetOk(lens, al)
  {
    if m < Count(lens, k) then SymPayload(al, NthSym(lens, k, m))
    else if Coded(lens) + (m - Count(lens, k)) >= |lens| then Invalid
    else Stale
  }

  function PayloadAt(pl: Plan, p: nat): (r: Payload)
    requires Sized(pl)
  {
    var m := IdxAt(pl, p);
    if m < 0 then Invalid else PayloadOf(pl.lens, pl.al, LenAt(pl, p), m)
  }

  /** The family of prefixes for which the builder allocates a sub-table wider
      than the stride `l` by which it descends: all codes below the prefix have
      at least `l` further bits, and some have more. */
  predicate Overwide(pl: Plan, w: nat, start: nat)
    requires Sized(pl) && w <= pl.g
  {
    && w + pl.l <= LenAt(pl, start)
    && w + pl.l < LenAt(pl, start + Pow2(pl.g - w) - 1)
  }

  /** Positions and symbols agree: the owner of a bit string is the symbol whose
      canonical code it starts with. */
  lemma OwnerIsSymbol(pl: Plan, v: nat, s: nat)
    requires Sized(pl) && PlanOk(pl) && s < |pl.lens| && StartsWith(pl.lens, v, s)
    ensures LenAt(pl, Rev(pl.g, v)) == pl.lens[s]
    ensures PayloadAt(pl, Rev(pl.g, v)) == SymPayload(pl.al, s)
  {
    var k, m := pl.lens[s], Count(pl.lens[..s], pl.lens[s]);
    StartsWithBlock(pl.lens, pl.g, v, s);
    NthSymInverse(pl.lens, s);
    CumIsKraft(pl, k - 1);
    BlockOwner(pl, k, m, Start(pl.lens, pl.g, s), Rev(pl.g, v));
  }

  /** A position owned by a real code starts with that code. */
  lemma SymbolIsOwner(pl: Plan, v: nat) returns (s: nat)
    requires Sized(pl) && PlanOk(pl) && 0 <= IdxAt(pl, Rev(pl.g, v)) < Count(pl.lens, LenAt(pl, Rev(pl.g, v)))
    ensures s < |pl.lens| && StartsWith(pl.lens, v, s)
  {
    RevBound(pl.g, v);
    var k, m, start := OwnerBlock(pl, Rev(pl.g, v));
    s := NthSym(pl.lens, k, m);
    CumIsKraft(pl, k - 1);
    StartsWithBlock(pl.lens, pl.g, v, s);
  }

  // ----- the dummy codes -----

  /** Some of the first `m` codes of length `k` gets its element from an element of
      `v[]` that nobody wrote. */
  ghost predicate UnsetUpTo(pl: Plan, k: nat, m: nat)
    requires Sized(pl)
  {
    exists t :: 0 <= t < m && PayloadOf(pl.lens, pl.al, k, t).Stale?
  }

  /** Some code up to length `k` does. */
  ghost predicate UnsetBelow(pl: Plan, k: nat)
    requires Sized(pl) && k < |pl.cnt|
  {
    exists t :: 1 <= t <= k && UnsetUpTo(pl, t, pl.cnt[t])
  }

  /** The dummy codes have the greatest length; there are as many as the set leaves
      room for. */
  lemma DummyCount(pl: Plan)
    requires Sized(pl) && PlanOk(pl)
    ensures Kraft(pl.lens, pl.g, pl.g) <= Pow2(pl.g)
    ensures pl.cnt[pl.g] == Count(pl.lens, pl.g) + (Pow2(pl.g) - Kraft(pl.lens, pl.g, pl.g))
  {
    CumIsKraft(pl, pl.g - 1);
    assert Pow2(0) == 1;
  }

  lemma StaleIsDummy(pl: Plan, k: nat, t: nat)
    requires Sized(pl) && PlanOk(pl) && 1 <= k <= pl.g && t < pl.cnt[k] && PayloadOf(pl.lens, pl.al, k, t).Stale?
    ensures k == pl.g && t >= Count(pl.lens, k) && Count(pl.lens, 0) > 0
  {
    hide Count, Cum;
  }

  /** Building the tables of a set reads an unset element if and only if the set is
      incomplete and some symbol has no code. */
  lemma UnsetIff(pl: Plan)
    requires Sized(pl) && PlanOk(pl)
    ensures UnsetBelow(pl, pl.g) <==> Kraft(pl.lens, pl.g, pl.g) < Pow2(pl.g) && Count(pl.lens, 0) > 0
  {
    hide Kraft, Pow2, Count, Cum, SymPayload;
    DummyCount(pl);
    if Kraft(pl.lens, pl.g, pl.g) < Pow2(pl.g) && Count(pl.lens, 0) > 0 {
      var t := Count(pl.lens, pl.g);
      assert PayloadOf(pl.lens, pl.al, pl.g, t).Stale?;
      assert UnsetUpTo(pl, pl.g, pl.cnt[pl.g]);
    }
    if UnsetBelow(pl, pl.g) {
      var k :| 1 <= k <= pl.g && UnsetUpTo(pl, k, pl.cnt[k]);
      var t :| 0 <= t < pl.cnt[k] && PayloadOf(pl.lens, pl.al, k, t).Stale?;
      StaleIsDummy(pl, k, t);
    }
  }

  /** What a bit string that starts with no code is decoded to: the dummy codes are
      numbered from the end of the real ones, and as many as there are symbols without
      a code are unset; the others are marked invalid. */
  lemma FillerIs(pl: Plan, v: nat)
    requires Sized(pl) && PlanOk(pl) && forall s :: 0 <= s < |pl.lens| ==> !StartsWith(pl.lens, v, s)
    ensures LenAt(pl, Rev(pl.g, v)) == pl.g && Kraft(pl.lens, pl.g, pl.g) <= Rev(pl.g, v)
    ensures PayloadAt(pl, Rev(pl.g, v)) ==
            if Rev(pl.g, v) - Kraft(pl.lens, pl.g, pl.g) < Count(pl.lens, 0) then Stale else Invalid
  {
    hide Kraft, Pow2, Count, Cum, SymPayload, Rev, LenAt, IdxAt, StartsWith;
    RevBound(pl.g, v);
    var p := Rev(pl.g, v);
    var k, m, start := OwnerBlock(pl, p);
    if m < Count(pl.lens, k) {
      var s := SymbolIsOwner(pl, v);
    }
    assert k == pl.g;
    DummyAt(pl, p, m, start);
  }

  lemma DummyAt(pl: Plan, p: nat, m: nat, start: nat)
    requires Sized(pl) && PlanOk(pl) && start == Cum(pl.cnt, pl.g, pl.g - 1) + m * Pow2(0) && start <= p < start + Pow2(0)
    ensures p - Kraft(pl.lens, pl.g, pl.g) == m - Count(pl.lens, pl.g)
  {
    CumIsKraft(pl, pl.g - 1);
    assert Pow2(0) == 1;
  }
}
