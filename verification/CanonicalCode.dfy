/** The canonical prefix code of section 3.2.2 of RFC 1951, given by code lengths.

    This module is the reference that the lookup tables of zip/inflate.c are
    compared with.  It does not mention tables. */
module CanonicalCode {
  import opened Bits

  /** Longest code length the tables can hold. */
  const BMAX: nat := 16

  /** How many symbols have length `k`. */
  function Count(lens: seq<nat>, k: nat): (r: nat)
    ensures r <= |lens|
  {
    if |lens| == 0 then 0
    else Count(lens[..|lens| - 1], k) + if lens[|lens| - 1] == k then 1 else 0
  }

  /** The smallest code of length `k`: step 2 of the construction in the RFC. */
  function FirstCode(lens: seq<nat>, k: nat): (r: nat)
  {
    if k <= 1 then 0 else 2 * (FirstCode(lens, k - 1) + Count(lens, k - 1))
  }

  /** The code of symbol `s`: step 3 of the construction in the RFC. */
  function Code(lens: seq<nat>, s: nat): (r: nat)
    requires s < |lens|
  {
    FirstCode(lens, lens[s]) + Count(lens[..s], lens[s])
  }

  /** `v` holds the coming bits, first bit in bit 0.  Codes are read most
      significant bit first. */
  predicate StartsWith(lens: seq<nat>, v: nat, s: nat)
    requires s < |lens|
  {
    lens[s] > 0 && Rev(lens[s], v) == Code(lens, s)
  }

  /** The share of the code space used by codes of length at most `k`, in units
      of `2^-g`: the Kraft sum. */
  function Kraft(lens: seq<nat>, g: nat, k: nat): (r: nat)
    requires k <= g
  {
    if k == 0 then 0 else Kraft(lens, g, k - 1) + Count(lens, k) * Pow2(g - k)
  }

  /** Number of codes shorter than `k`. */
  function Offset(lens: seq<nat>, k: nat): (r: nat)
  {
    if k <= 1 then 0 else Offset(lens, k - 1) + Count(lens, k - 1)
  }

  /** The `m`-th symbol, in symbol order, among those of length `k`. */
  function NthSym(lens: seq<nat>, k: nat, m: nat): (s: nat)
    requires m < Count(lens, k)
    ensures s < |lens| && lens[s] == k && Count(lens[..s], k) == m
  {
    var n := |lens| - 1;
    var front := lens[..n];
    if lens[n] == k && Count(front, k) == m then n
    else
      var s := NthSym(front, k, m);
      assert front[..s] == lens[..s];
      s
  }

  lemma {:induction false} CountPrefix(lens: seq<nat>, s: nat, t: nat, k: nat)
    requires s <= t <= |lens|
    ensures Count(lens[..s], k) <= Count(lens[..t], k)
    decreases t - s
  {
    if s < t {
      CountPrefix(lens, s, t - 1, k);
      assert lens[..t][..t - 1] == lens[..t - 1];
    }
  }

  lemma CountStep(lens: seq<nat>, s: nat, k: nat)
    requires s < |lens|
    ensures Count(lens[..s + 1], k) == Count(lens[..s], k) + if lens[s] == k then 1 else 0
  {
    assert lens[..s + 1][..s] == lens[..s];
  }

  /** A symbol is counted among those of its own length. */
  lemma CountBeforeBound(lens: seq<nat>, s: nat)
    requires s < |lens|
    ensures Count(lens[..s], lens[s]) < Count(lens, lens[s])
  {
    CountStep(lens, s, lens[s]);
    CountPrefix(lens, s + 1, |lens|, lens[s]);
    assert lens[..|lens|] == lens;
  }

  /** `NthSym` inverts the position of a symbol among those of its length. */
  lemma NthSymInverse(lens: seq<nat>, s: nat)
    requires s < |lens|
    ensures Count(lens[..s], lens[s]) < Count(lens, lens[s])
    ensures NthSym(lens, lens[s], Count(lens[..s], lens[s])) == s
  {
    CountBeforeBound(lens, s);
    var k, m := lens[s], Count(lens[..s], lens[s]);
    var t := NthSym(lens, k, m);
    if t < s {
      CountStep(lens, t, k);
      CountPrefix(lens, t + 1, s, k);
    } else if s < t {
      CountStep(lens, s, k);
      CountPrefix(lens, s + 1, t, k);
    }
  }

  /** In units of `2^-g`, the first code of a length starts where the shorter codes end. */
  lemma {:induction false} FirstCodeIsKraft(lens: seq<nat>, g: nat, k: nat)
    requires 1 <= k <= g
    ensures FirstCode(lens, k) * Pow2(g - k) == Kraft(lens, g, k - 1)
  {
    if k > 1 {
      FirstCodeIsKraft(lens, g, k - 1);
      var u := Pow2(g - k);
      assert Pow2(g - (k - 1)) == 2 * u;
      var f, c := FirstCode(lens, k - 1), Count(lens, k - 1);
      MulDouble(f + c, u);
      MulDist(f, c, 2 * u);
    }
  }

  lemma {:induction false} KraftMono(lens: seq<nat>, g: nat, a: nat, b: nat)
    requires a <= b <= g
    ensures Kraft(lens, g, a) <= Kraft(lens, g, b)
  {
    if a < b {
      KraftMono(lens, g, a, b - 1);
    }
  }

  /** Where the code of `s` starts, in units of `2^-g`. */
  function Start(lens: seq<nat>, g: nat, s: nat): (r: nat)
    requires s < |lens| && 1 <= lens[s] <= g
  {
    Kraft(lens, g, lens[s] - 1) + Count(lens[..s], lens[s]) * Pow2(g - lens[s])
  }

  /** Matching a symbol's code is lying in the block of values that its code starts. */
  lemma StartsWithBlock(lens: seq<nat>, g: nat, v: nat, s: nat)
    requires s < |lens| && 1 <= lens[s] <= g
    ensures StartsWith(lens, v, s) <==>
            Start(lens, g, s) <= Rev(g, v) < Start(lens, g, s) + Pow2(g - lens[s])
  {
    var k := lens[s];
    FirstCodeIsKraft(lens, g, k);
    RevPrefix(k, g, v);
    BlockDiv(Rev(g, v), Pow2(g - k), Code(lens, s));
    BlockDiv(Rev(g, v), Pow2(g - k), Rev(k, v));
    MulDist(FirstCode(lens, k), Count(lens[..s], k), Pow2(g - k));
  }
}
