/** Decoding one symbol: the table loop of zip/inflate.c:372-381 and 403-412 on the
    bit buffer, against the canonical code on the whole input. */
module Lookup {
  import opened Bits
  import opened BitStream
  import opened BitReader
  import opened CanonicalCode
  import opened DeflateSpec
  import opened HuftPlan
  import opened HuftTables
  import opened HuftLoop
  import opened HuftBuild
  import opened HuftWalk

  /** A null pointer is what `huft_build` leaves for a set without codes. */
  datatype Table = Null | Table(pool: Pool, m: nat)

  /** `BadCode` is the return of 1; `NoInput` is giving up at the end of the input;
      `Junk` is following a null table or an element chosen by memory nobody wrote. */
  datatype Code = Code(e: nat, n: nat) | BadCode | NoInput | Junk

  /** The sets that the program goes on with: usable ones, and the fixed distance code,
      which is incomplete but has a code for each of its symbols. */
  predicate Taken(lens: seq<nat>)
  {
    UsableSet(lens) || Count(lens, 0) == 0
  }

  /** The tables were built from these lengths, as `huft_build` does, and are right. */
  ghost predicate Faithful(t: Table, lens: seq<nat>, al: Alphabet)
  {
    Taken(lens) &&
    match t
    case Null => forall s :: 0 <= s < |lens| ==> lens[s] == 0
    case Table(pool, m) => exists pl: Plan :: Backed(pl, pool, m, lens, al)
  }

  ghost predicate Follows(t: Table, lens: seq<nat>, al: Alphabet, pl: Plan)
  {
    match t
    case Null => forall s :: 0 <= s < |lens| ==> lens[s] == 0
    case Table(pool, m) => Backed(pl, pool, m, lens, al)
  }

  ghost predicate Backed(pl: Plan, pool: Pool, m: nat, lens: seq<nat>, al: Alphabet)
  {
    && pl.lens == lens && pl.al == al && pl.l == m <= 9
    && Sized(pl) && PlanOk(pl) && NoOverwide(pl) && IsTables(pl, pool)
  }

  /** What the tables should answer and what the canonical code says are the same. */
  lemma DecodeAgrees(pl: Plan, src: seq<byte>, p: nat, n: nat)
    requires Sized(pl) && PlanOk(pl) && n >= BMAX
    ensures var x := Expected(pl, Peek(src, p, n));
            var d := DecodeSym(pl.lens, src, p);
            && (d.Sym? ==> x == Hit(SymPayload(pl.al, d.s), pl.lens[d.s]))
            && (x.what.Value? && p + x.used <= 8 * |src| ==> d.Sym?)
            && x.used >= 1
  {
    hide Peek, Rev, LenAt, PlanOk, StartsWith, SymPayload, PayloadAt;
    var v := Peek(src, p, n);
    ExpectedIsCanonical(pl, v);
    forall s | 0 <= s < |pl.lens|
      ensures Matches(pl.lens, src, p, s) <==> StartsWith(pl.lens, v, s) && p + pl.lens[s] <= 8 * |src|
    {
      StartsWithPeek(pl, src, p, n, s);
    }
  }

  lemma LongestIsG(pl: Plan)
    requires Sized(pl) && PlanOk(pl)
    ensures Longest(pl.lens) == pl.g && !NoCodes(pl.lens)
  {
    hide Count, Cum;
    var s := NthSym(pl.lens, pl.g, 0);
  }

  /** A lone code of one bit is the bit zero. */
  lemma LoneBitIs(lens: seq<nat>, src: seq<byte>, p: nat, n: nat)
    requires LoneBit(lens) && n >= 1 && StreamBit(src, p) == 0
    ensures exists s :: 0 <= s < |lens| && StartsWith(lens, Peek(src, p, n), s)
  {
    hide StreamBit;
    var s := NthSym(lens, 1, 0);
    var v := Peek(src, p, n);
    assert FirstCode(lens, 1) == 0;
    assert Rev(0, v) == 0;
    assert Rev(1, v) == Bit(v, 0) == StreamBit(src, p);
    assert StartsWith(lens, v, s);
  }

  lemma LoneBitNot(pl: Plan, src: seq<byte>, p: nat, n: nat)
    requires Sized(pl) && PlanOk(pl) && LoneBit(pl.lens) && n >= 1 && StreamBit(src, p) == 1
    ensures forall s :: 0 <= s < |pl.lens| ==> !StartsWith(pl.lens, Peek(src, p, n), s)
  {
    hide StreamBit, Count;
    var v := Peek(src, p, n);
    assert FirstCode(pl.lens, 1) == 0;
    assert Rev(0, v) == 0;
    assert Rev(1, v) == Bit(v, 0) == StreamBit(src, p);
    LoneKraft(pl);
    forall s | 0 <= s < |pl.lens|
      ensures !StartsWith(pl.lens, v, s)
    {
      CountBeforeBound(pl.lens, s);
    }
  }

  lemma LoneIf(pl: Plan)
    requires Sized(pl) && PlanOk(pl) && Taken(pl.lens)
    requires Kraft(pl.lens, pl.g, pl.g) < Pow2(pl.g) && Count(pl.lens, 0) > 0
    ensures LoneBit(pl.lens)
  {
    hide Count;
    LongestIsG(pl);
    TotalCount(pl.lens, pl.g);
    assert pl.g == 1;
    assert Pow2(0) == 1 && Pow2(1) == 2;
    assert Kraft(pl.lens, 1, 0) == 0;
    assert Offset(pl.lens, 1) == 0;
  }

  lemma LoneKraft(pl: Plan)
    requires Sized(pl) && PlanOk(pl) && LoneBit(pl.lens)
    ensures pl.g == 1 && Kraft(pl.lens, 1, 1) == 1 && Pow2(pl.g) == 2
  {
    hide Count;
    TotalCount(pl.lens, pl.g);
    OffsetMono(pl.lens, 2, pl.g + 1);
    assert Offset(pl.lens, 1) == 0 && Offset(pl.lens, 2) == 1;
    if pl.g > 1 {
      OffsetMono(pl.lens, 2, pl.g);
    }
    assert Pow2(0) == 1 && Pow2(1) == 2;
    assert Kraft(pl.lens, 1, 0) == 0;
  }

  /** The dummy codes: the element is unset exactly where the specification says that
      the program finds one unset. */
  lemma FillerDecoded(pl: Plan, src: seq<byte>, p: nat, n: nat)
    requires Sized(pl) && PlanOk(pl) && Taken(pl.lens) && n >= BMAX
    ensures var x, d := Expected(pl, Peek(src, p, n)), DecodeSym(pl.lens, src, p);
            && (x.what.Stale? ==> d.UnsetSym?)
            && (!x.what.Stale? ==> !d.UnsetSym?)
            && (UsableSet(pl.lens) && |pl.lens| > 1 && !x.what.Value? ==> d.UnsetSym?)
  {
    hide Peek, Rev, LenAt, PlanOk, StartsWith, SymPayload, PayloadAt, Kraft, Pow2, Count, LoneBit, NoCodes, UsableSet,
         StreamBit, Taken;
    var v, x, d := Peek(src, p, n), Expected(pl, Peek(src, p, n)), DecodeSym(pl.lens, src, p);
    DecodeAgrees(pl, src, p, n);
    LongestIsG(pl);
    if LoneBit(pl.lens) && StreamBit(src, p) == 1 {
      LoneBitNot(pl, src, p, n);
      LoneFiller(pl, v);
    } else if !x.what.Value? {
      FillerHere(pl, v);
      if LoneBit(pl.lens) {
        LoneBitIs(pl.lens, src, p, n);
      } else {
        NotLoneFiller(pl, v);
      }
    }
  }

  /** A string that is not decoded to a value starts with no code. */
  lemma FillerHere(pl: Plan, v: nat)
    requires Sized(pl) && PlanOk(pl) && !Expected(pl, v).what.Value?
    ensures forall s :: 0 <= s < |pl.lens| ==> !StartsWith(pl.lens, v, s)
  {
    hide Rev, LenAt, PlanOk, StartsWith, PayloadAt, Kraft, Count, Expected;
    ExpectedIsCanonical(pl, v);
    forall s | 0 <= s < |pl.lens|
      ensures !StartsWith(pl.lens, v, s)
    {
      assert SymPayload(pl.al, s).Value?;
    }
  }

  lemma LoneFiller(pl: Plan, v: nat)
    requires Sized(pl) && PlanOk(pl) && LoneBit(pl.lens) && forall s :: 0 <= s < |pl.lens| ==> !StartsWith(pl.lens, v, s)
    ensures Expected(pl, v).what.Stale?
  {
    hide Rev, PlanOk, StartsWith, Kraft, Count, Expected;
    ExpectedIsCanonical(pl, v);
    LoneKraft(pl);
    RevBound(pl.g, v);
  }

  lemma NotLoneFiller(pl: Plan, v: nat)
    requires Sized(pl) && PlanOk(pl) && Taken(pl.lens) && !LoneBit(pl.lens)
    requires forall s :: 0 <= s < |pl.lens| ==> !StartsWith(pl.lens, v, s)
    ensures Expected(pl, v).what.Invalid?
    ensures !(UsableSet(pl.lens) && |pl.lens| > 1)
  {
    hide Rev, PlanOk, StartsWith, Kraft, Count, Expected, Pow2, LoneBit;
    ExpectedIsCanonical(pl, v);
    FillerIs(pl, v);
    RevBound(pl.g, v);
    LongestIsG(pl);
    if Count(pl.lens, 0) > 0 {
      LoneIf(pl);
    } else if pl.g == 1 {
      AllOneBit(pl);
    }
  }

  lemma AllOneBit(pl: Plan)
    requires Sized(pl) && PlanOk(pl) && pl.g == 1 && Count(pl.lens, 0) == 0 && Kraft(pl.lens, 1, 1) < Pow2(1)
    ensures |pl.lens| == 1
  {
    hide Count;
    TotalCount(pl.lens, 1);
    assert Pow2(0) == 1 && Pow2(1) == 2;
    assert Kraft(pl.lens, 1, 0) == 0;
    assert Offset(pl.lens, 1) == 0;
  }

  lemma StartsWithPeek(pl: Plan, src: seq<byte>, p: nat, n: nat, s: nat)
    requires Sized(pl) && PlanOk(pl) && n >= BMAX && s < |pl.lens|
    ensures Matches(pl.lens, src, p, s) <==>
            StartsWith(pl.lens, Peek(src, p, n), s) && p + pl.lens[s] <= 8 * |src|
  {
    hide Peek, Rev, Low;
    var k := pl.lens[s];
    PeekLow(src, p, n, k);
    RevLow(k, Peek(src, p, n), k);
  }

  /** The element the buffer selects is the one the whole stream selects. */
  lemma BufferIndex(src: seq<byte>, p: nat, n: nat, w: nat, width: nat)
    requires w + width <= n
    ensures Low(Shr(Peek(src, p, n), w), width) == Peek(src, p + w, width)
  {
    PeekShr(src, p, n, w);
    PeekLow(src, p + w, n - w, width);
  }

  lemma Pow2Fits(a: nat, b: nat)
    requires Pow2(a) <= Pow2(b)
    ensures a <= b
  {
    if b < a {
      Pow2Mono(b + 1, a);
    }
  }

  lemma BackedSlim(pl: Plan, pool: Pool, m: nat, lens: seq<nat>, al: Alphabet)
    requires Backed(pl, pool, m, lens, al)
    ensures Slim(pool, m)
    ensures forall v: nat :: Walk(pool, 0, m, v, 0) == Expected(pl, v)
  {
    hide PlanOk, NoOverwide, Expected, Walk, Complete;
    TablesExact(pl, pool);
    var info: seq<Info> :| Complete(pl, pool, info);
    forall t, j | 0 <= t < |pool| && 0 <= j < |pool[t]|
      ensures SlimEntry(pool, m, t, pool[t][j])
    {
      TablesSlim(pl, pool, info, t, j);
    }
  }

  /** The rest of a walk takes at least one bit. */
  lemma {:induction false} WalkUses(pool: Pool, l: nat, t: nat, width: nat, bits: nat, used: nat)
    requires Slim(pool, l) && l > 0 && Walk(pool, t, width, bits, used).Hit?
    ensures Walk(pool, t, width, bits, used).used > used
    decreases |pool| - t
  {
    hide Low, Shr, Pow2;
    var ent := pool[t][Low(bits, width)];
    assert SlimEntry(pool, l, t, ent);
    if ent.Sub? {
      WalkUses(pool, l, ent.t, ent.width, Shr(bits, ent.b), used + ent.b);
    }
  }

  /** One element of a walk that ends well. */
  lemma WalkNext(pool: Pool, l: nat, t: nat, width: nat, bits: nat, used: nat)
    requires Slim(pool, l) && Walk(pool, t, width, bits, used).Hit?
    ensures t < |pool| && Low(bits, width) < |pool[t]|
    ensures var ent := pool[t][Low(bits, width)];
            && ent != Unset
            && (ent.Leaf? ==>
                  && Walk(pool, t, width, bits, used) == Hit(ent.what, used + ent.b)
                  && 1 <= ent.b <= l && Pow2(ent.b) <= |pool[t]|)
            && (ent.Sub? ==>
                  && t < ent.t < |pool| && ent.b == l && Pow2(l) <= |pool[t]| && 1 <= ent.width <= l && |pool[ent.t]| == Pow2(ent.width)
                  && Walk(pool, ent.t, ent.width, Shr(bits, ent.b), used + ent.b) == Walk(pool, t, width, bits, used))
  {
    hide Low, Shr, Pow2;
    assert SlimEntry(pool, l, t, pool[t][Low(bits, width)]);
  }

  /** What a leaf means, and which error it is otherwise. */
  function Answer(what: Payload): (r: Code)
  {
    match what
    case Value(e, n) => if e == 99 then BadCode else Code(e, n)
    case Invalid => BadCode
    case Stale => Junk
  }

  /** Where the walk is: `w` bits used, at an element of table `t`. */
  ghost predicate AtElement(rd: Reader, pool: Pool, m: nat, p: nat, v: nat, t: nat, width: nat, w: nat, ent: Huft)
    reads rd
  {
    && rd.Valid() && rd.P() == p + w && w <= 9 * t && 1 <= width <= rd.bk <= 16
    && t < |pool| && (if t == 0 then width == m else |pool[t]| == Pow2(width))
    && Low(Shr(v, w), width) < |pool[t]| && ent == pool[t][Low(Shr(v, w), width)]
    && Walk(pool, t, width, Shr(v, w), w) == Walk(pool, 0, m, v, 0)
  }

  /** Lines 377-380: drop the bits of a link and look at the table it leads to. */
  method Descend(rd: Reader, pool: Pool, m: nat, t: nat, width: nat, ent: Huft, ghost p: nat, ghost v: nat, ghost w: nat)
    returns (ok: bool, ent': Huft, ghost w': nat)
    requires Slim(pool, m) && 1 <= m <= 9 && v == Peek(rd.src, p, 9 * |pool| + 16)
    requires AtElement(rd, pool, m, p, v, t, width, w, ent) && ent.Sub? && Walk(pool, 0, m, v, 0).Hit?
    modifies rd
    ensures rd.Valid() && t < ent.t < |pool|
    ensures ok ==> AtElement(rd, pool, m, p, v, ent.t, ent.width, w', ent')
    ensures !ok ==> 8 * |rd.src| < p + Walk(pool, 0, m, v, 0).used + 8
  {
    hide Peek, Low, Shr, Pow2, Walk, Slim, Reader.Valid, Reader.P, Reader.Pos;
    ghost var big := 9 * |pool| + 16;
    ent', w' := ent, w;
    WalkNext(pool, m, t, width, Shr(v, w), w);
    WalkUses(pool, m, ent.t, ent.width, Shr(Shr(v, w), ent.b), w + ent.b);
    if t > 0 {
      Pow2Fits(ent.b, width);
    }
    rd.DumpBits(ent.b);
    ok := rd.NeedBits(ent.width);
    if ok {
      ShrShr(v, w, ent.b);
      w' := w + ent.b;
      BufferIndex(rd.src, p, big, w', ent.width);
      rd.LowIsPeek(ent.width);
      LowBound(rd.bb, ent.width);
      ent' := pool[ent.t][Low(rd.bb, ent.width)];
    }
  }

  /** Decode one symbol. */
  method Walker(rd: Reader, pool: Pool, m: nat) returns (r: Code)
    requires rd.Valid() && rd.bk <= 15
    requires Slim(pool, m) && 1 <= m <= 9
    requires Walk(pool, 0, m, Peek(rd.src, rd.P(), 9 * |pool| + 16), 0).Hit?
    modifies rd
    ensures rd.Valid() && (r.Code? ==> rd.bk <= 15)
    ensures var x := Walk(pool, 0, m, Peek(rd.src, old(rd.P()), 9 * |pool| + 16), 0);
            && (r == NoInput || r == Answer(x.what))
            && (r.Code? ==> rd.P() == old(rd.P()) + x.used)
            && (r.NoInput? ==> 8 * |rd.src| < old(rd.P()) + x.used + 8)
            && (r.Code? ==> old(rd.P()) + x.used <= 8 * |rd.src|)
  {
    hide Peek, Low, Shr, Pow2, Walk, Slim, Reader.Valid, Reader.P, Reader.Pos;
    ghost var p, big := rd.P(), 9 * |pool| + 16;
    ghost var v := Peek(rd.src, p, big);
    WalkUses(pool, m, 0, m, v, 0);
    var ok := rd.NeedBits(m);
    if !ok {
      return NoInput;
    }
    BufferIndex(rd.src, p, big, 0, m);
    ShrZero(v);
    WalkNext(pool, m, 0, m, v, 0);
    rd.LowIsPeek(m);
    var t, width := 0, m;
    ghost var w: nat := 0;
    var ent := pool[0][Low(rd.bb, m)];
    while ent.Sub?
      invariant AtElement(rd, pool, m, p, v, t, width, w, ent)
      decreases |pool| - t
    {
      var link := ent;
      ok, ent, w := Descend(rd, pool, m, t, width, link, p, v, w);
      if !ok {
        return NoInput;
      }
      t, width := link.t, link.width;
    }
    WalkNext(pool, m, t, width, Shr(v, w), w);
    r := Answer(ent.what);
    if r.Code? {
      if t > 0 {
        Pow2Fits(ent.b, width);
      }
      rd.DumpBits(ent.b);
    }
  }

  /** Decode one symbol with a table built for `lens`. */
  method Decode(rd: Reader, t: Table, ghost lens: seq<nat>, ghost al: Alphabet) returns (r: Code)
    requires rd.Valid() && rd.bk <= 15 && Faithful(t, lens, al) && AlphabetOk(lens, al)
    modifies rd
    ensures rd.Valid() && (r.Code? ==> rd.bk <= 15)
    ensures var d := DecodeSym(lens, rd.src, old(rd.P()));
            && (r.Code? ==> d.Sym? && SymPayload(al, d.s) == Value(r.e, r.n) && r.e != 99
                            && rd.P() == old(rd.P()) + lens[d.s])
            && (r.BadCode? ==> d.NoSym? || (d.Sym? && SymPayload(al, d.s).Value? && SymPayload(al, d.s).e == 99))
            && (r.Junk? ==> d.UnsetSym?)
            && (r.NoInput? && d.Sym? ==> 8 * |rd.src| < old(rd.P()) + lens[d.s] + 8)
  {
    hide Peek, Walk, PlanOk, NoOverwide, IsTables, PayloadAt, LenAt, Rev, Slim, Matches, StartsWith, Reader.Filled;
    match t
    case Null =>
      r := Junk;
    case Table(pool, m) =>
      ghost var pl: Plan :| Backed(pl, pool, m, lens, al);
      BackedSlim(pl, pool, m, lens, al);
      DecodeAgrees(pl, rd.src, rd.P(), 9 * |pool| + 16);
      FillerDecoded(pl, rd.src, rd.P(), 9 * |pool| + 16);
      ghost var x := Walk(pool, 0, m, Peek(rd.src, rd.P(), 9 * |pool| + 16), 0);
      assert x == Expected(pl, Peek(rd.src, rd.P(), 9 * |pool| + 16));
      r := Walker(rd, pool, m);
  }

  /** Lines 641-644: a table of one level, read without a look at the marker. */
  method DecodeSingle(rd: Reader, t: Table, ghost lens: seq<nat>, ghost al: Alphabet, ghost pl: Plan) returns (r: Code)
    requires rd.Valid() && rd.bk <= 15 && Follows(t, lens, al, pl) && AlphabetOk(lens, al)
    requires t.Table? ==> pl.l == pl.g && pl.l <= 8
    requires UsableSet(lens) && |lens| > 1
    modifies rd
    ensures rd.Valid() && (r.Code? ==> rd.bk <= 15) && !r.BadCode?
    ensures var d := DecodeSym(lens, rd.src, old(rd.P()));
            && (r.Code? ==> d.Sym? && SymPayload(al, d.s) == Value(r.e, r.n) && rd.P() == old(rd.P()) + lens[d.s])
            && (r.Junk? ==> d.UnsetSym?)
            && (r.NoInput? && d.Sym? ==> 8 * |rd.src| < old(rd.P()) + lens[d.s] + 8)
  {
    hide Peek, PlanOk, NoOverwide, IsTables, PayloadAt, LenAt, Rev, Slim, Low, Shr, Pow2, Walk,
         Reader.Valid, Reader.P, Reader.Pos;
    match t
    case Null =>
      r := Junk;
    case Table(pool, m) =>
      ghost var p := rd.P();
      ghost var v := Peek(rd.src, p, BMAX);
      BackedSlim(pl, pool, m, lens, al);
      DecodeAgrees(pl, rd.src, p, BMAX);
      FillerDecoded(pl, rd.src, p, BMAX);
      var ok := rd.NeedBits(m);
      if !ok {
        return NoInput;
      }
      BufferIndex(rd.src, p, BMAX, 0, m);
      ShrZero(v);
      rd.LowIsPeek(m);
      WalkNext(pool, m, 0, m, v, 0);
      OneLevel(pool, m, v, pl);
      var ent := pool[0][Low(rd.bb, m)];
      if ent.what.Value? {
        r := Code(ent.what.e, ent.what.n);
        rd.DumpBits(ent.b);
      } else {
        r := Junk;
      }
  }

  /** With a base table as wide as the longest code there are no links. */
  lemma OneLevel(pool: Pool, m: nat, v: nat, pl: Plan)
    requires Slim(pool, m) && Sized(pl) && pl.l == pl.g == m
    requires Walk(pool, 0, m, v, 0) == Expected(pl, v)
    ensures |pool| > 0 && Low(v, m) < |pool[0]| && pool[0][Low(v, m)].Leaf?
  {
    hide Low, Shr, Pow2, Slim, Walk, PayloadAt, LenAt, Rev;
    WalkNext(pool, m, 0, m, v, 0);
    var ent := pool[0][Low(v, m)];
    if ent.Sub? {
      WalkUses(pool, m, ent.t, ent.width, Shr(v, ent.b), ent.b);
    }
  }
}
