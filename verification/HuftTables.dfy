/** The linked lookup tables of zip/inflate.c: what a partly built set of tables
    promises, and what walking a finished set yields. */
module HuftTables {
  import opened Bits
  import opened HuftPlan

  /** One `struct huft`.  A fresh table holds nothing; a leaf says how many bits
      to drop and what was decoded; a link says how many bits to drop, which table
      comes next and how many bits index it. */
  datatype Huft = Unset | Leaf(b: nat, what: Payload) | Sub(width: nat, b: nat, t: nat)

  /** All tables in the order in which they were allocated. */
  type Pool = seq<seq<Huft>>

  /** Where a table hangs: its level, the bits before it, those bits, its width. */
  datatype Info = Info(lv: nat, w: nat, pfx: nat, width: nat)

  // ----- walking -----

  datatype WalkResult = Hit(what: Payload, used: nat) | Lost

  /** The lookup loop of `inflate_codes`: index with `width` bits, follow links. */
  function Walk(pool: Pool, t: nat, width: nat, bits: nat, used: nat): (r: WalkResult)
    decreases |pool| - t
  {
    if t >= |pool| || Low(bits, width) >= |pool[t]| then Lost
    else match pool[t][Low(bits, width)]
      case Unset => Lost
      case Leaf(b, what) => Hit(what, used + b)
      case Sub(wd, b, next) =>
        if next <= t then Lost else Walk(pool, next, wd, Shr(bits, b), used + b)
  }

  // ----- shape -----

  predicate Stride(l: nat, w: nat)
    requires l > 0
  {
    w == 0 || (w >= l && Stride(l, w - l))
  }

  ghost function EndOf(pl: Plan, ti: Info): (r: nat)
    requires ti.w <= pl.g
  {
    Rev(pl.g, ti.pfx) + Pow2(pl.g - ti.w)
  }

  ghost predicate InfoOk(pl: Plan, ti: Info)
    requires Sized(pl)
  {
    && 1 <= ti.width && ti.w + ti.width <= pl.g
    && ti.pfx < Pow2(ti.w)
    && Stride(pl.l, ti.w)
    && (ti.width < pl.l ==> EndOf(pl, ti) <= Cum(pl.cnt, pl.g, ti.w + ti.width))
    && (ti.width > pl.l <==> Overwide(pl, ti.w, Rev(pl.g, ti.pfx)))
  }

  ghost predicate Shape(pl: Plan, pool: Pool, info: seq<Info>)
    requires Sized(pl)
  {
    && |pool| == |info|
    && forall t :: 0 <= t < |info| ==> InfoOk(pl, info[t]) && |pool[t]| == Pow2(info[t].width)
  }

  predicate Under(ti: Info, v: nat)
  {
    Low(v, ti.w) == ti.pfx
  }

  /** The element of a table that bit string `v` selects. */
  function Slot(ti: Info, v: nat): (r: nat)
    ensures r < Pow2(ti.width)
  {
    LowBound(Shr(v, ti.w), ti.width);
    Low(Shr(v, ti.w), ti.width)
  }

  ghost predicate LinkOk(pl: Plan, info: seq<Info>, t: nat, ent: Huft, v: nat)
    requires t < |info|
  {
    && ent.Sub? && ent.b == pl.l
    && t < ent.t < |info|
    && info[ent.t].w == info[t].w + pl.l
    && info[ent.t].width == ent.width
    && info[ent.t].pfx == Low(v, info[t].w + pl.l)
  }

  /** Table `t` treats bit string `v` as it should: a leaf for the owner of `v`
      when that code ends within the stride, otherwise a link. */
  ghost predicate EntryOk(pl: Plan, pool: Pool, info: seq<Info>, t: nat, v: nat)
    requires Sized(pl) && Shape(pl, pool, info) && t < |info|
  {
    var ti := info[t];
    var ent := pool[t][Slot(ti, v)];
    var p := Rev(pl.g, v);
    var k := LenAt(pl, p);
    && k > ti.w
    && (k <= ti.w + pl.l ==> k <= ti.w + ti.width && ent == Leaf(k - ti.w, PayloadAt(pl, p)))
    && (k > ti.w + pl.l ==> ti.width >= pl.l)
    && (k > ti.w + pl.l && Slot(ti, v) < Pow2(pl.l) ==> LinkOk(pl, info, t, ent, v))
  }

  /** All positions before `done` are in place. */
  ghost predicate Filled(pl: Plan, pool: Pool, info: seq<Info>, done: nat)
    requires Sized(pl) && Shape(pl, pool, info)
  {
    forall t, v :: 0 <= t < |info| && 0 <= v < Pow2(pl.g) && Under(info[t], v) && Rev(pl.g, v) < done
                   ==> EntryOk(pl, pool, info, t, v)
  }

  /** Elements that only an index longer than the stride can select, and that
      need a link, are never written. */
  ghost predicate Unwritten(pl: Plan, pool: Pool, info: seq<Info>, t: nat, v: nat)
    requires Sized(pl) && Shape(pl, pool, info) && t < |info|
  {
    LenAt(pl, Rev(pl.g, v)) > info[t].w + pl.l && Slot(info[t], v) >= Pow2(pl.l)
    ==> pool[t][Slot(info[t], v)] == Unset
  }

  ghost predicate Holes(pl: Plan, pool: Pool, info: seq<Info>)
    requires Sized(pl) && Shape(pl, pool, info)
  {
    forall t, v :: 0 <= t < |info| && 0 <= v < Pow2(pl.g) && Under(info[t], v)
                   ==> Unwritten(pl, pool, info, t, v)
  }

  // ----- geometry of prefixes -----

  /** A bit string is under a table exactly when its position is in the table's range. */
  lemma UnderRange(pl: Plan, ti: Info, v: nat)
    requires Sized(pl) && PlanOk(pl) && InfoOk(pl, ti)
    ensures Under(ti, v) <==> Rev(pl.g, ti.pfx) <= Rev(pl.g, v) < EndOf(pl, ti)
  {
    RevBlock(ti.w, pl.g, ti.pfx, v);
  }

  /** The first `b` bits of the index are the next `b` bits of the string. */
  lemma SlotLow(ti: Info, v: nat, b: nat)
    requires b <= ti.width
    ensures Low(Slot(ti, v), b) == Shr(Low(v, ti.w + b), ti.w)
  {
    LowLow(Shr(v, ti.w), b, ti.width);
    ShrLow(v, ti.w, b);
  }

  /** Strings under a table that agree with `i` on the next bits agree on all of them. */
  lemma SlotMatch(ti: Info, v: nat, i: nat, k: nat)
    requires ti.w <= k <= ti.w + ti.width && i < Pow2(k)
    requires Low(i, ti.w) == ti.pfx && Under(ti, v)
    ensures Low(Slot(ti, v), k - ti.w) == Shr(i, ti.w) <==> Low(v, k) == i
  {
    SlotLow(ti, v, k - ti.w);
    LowShr(i, ti.w);
    LowShr(Low(v, k), ti.w);
    LowLow(v, ti.w, k);
  }

  /** A short index selects what the next `l` bits alone would select. */
  lemma SlotShort(ti: Info, v: nat, l: nat)
    requires l <= ti.width && Slot(ti, v) < Pow2(l)
    ensures Slot(ti, v) == Shr(Low(v, ti.w + l), ti.w)
  {
    SlotLow(ti, v, l);
    LowSmall(Slot(ti, v), l);
  }

  /** All strings that share the code of `v` have the same owner. */
  lemma SameOwner(pl: Plan, v: nat, v': nat)
    requires Sized(pl) && PlanOk(pl)
    requires var k := LenAt(pl, Rev(pl.g, v)); Low(v', k) == Low(v, k)
    ensures LenAt(pl, Rev(pl.g, v')) == LenAt(pl, Rev(pl.g, v))
    ensures PayloadAt(pl, Rev(pl.g, v')) == PayloadAt(pl, Rev(pl.g, v))
  {
    RevBound(pl.g, v);
    var k, m, start := OwnerBlock(pl, Rev(pl.g, v));
    LowBound(v, k);
    RevBlock(k, pl.g, Low(v, k), v);
    RevBlock(k, pl.g, Low(v, k), v');
    OwnerAligned(pl, v, k, m, start);
    BlockOwner(pl, k, m, start, Rev(pl.g, v'));
  }

  /** The block of a code starts at the position of its own bits. */
  lemma OwnerAligned(pl: Plan, v: nat, k: nat, m: nat, start: nat)
    requires Sized(pl) && PlanOk(pl) && 1 <= k <= pl.g
    requires start == Cum(pl.cnt, pl.g, k - 1) + m * Pow2(pl.g - k)
    requires start <= Rev(pl.g, v) < start + Pow2(pl.g - k)
    ensures start == Rev(pl.g, Low(v, k))
  {
    hide PlanOk, Pow2, Low, Rev;
    var u := Pow2(pl.g - k);
    var c := CumMultiple(pl, k - 1, k);
    MulDist(c, m, u);
    RevPrefix(k, pl.g, v);
    BlockDiv(Rev(pl.g, v), u, c + m);
    BlockDiv(Rev(pl.g, v), u, Rev(k, v));
    LowBound(v, k);
    RevShort(k, pl.g, Low(v, k));
    RevLow(k, v, k);
  }

  /** The end of the codes of length `a` is a whole number of blocks of any longer length. */
  lemma {:induction false} CumMultiple(pl: Plan, a: nat, k: nat) returns (c: nat)
    requires Sized(pl) && PlanOk(pl) && a <= k <= pl.g
    ensures Cum(pl.cnt, pl.g, a) == c * Pow2(pl.g - k)
  {
    hide PlanOk, Pow2;
    if a == 0 {
      c := 0;
    } else {
      var c' := CumMultiple(pl, a - 1, k);
      var n := pl.cnt[a];
      c := c' + n * Pow2(k - a);
      Pow2Add(k - a, pl.g - k);
      MulAssoc(n, Pow2(k - a), Pow2(pl.g - k));
      MulDist(c', n * Pow2(k - a), Pow2(pl.g - k));
    }
  }
}
