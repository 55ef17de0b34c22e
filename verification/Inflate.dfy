/** The block types and `inflate` itself (zip/inflate.c:453-825). */
module Inflate {
  import opened Bits
  import opened BitStream
  import opened BitReader
  import opened CanonicalCode
  import opened DeflateSpec
  import opened HuftPlan
  import opened Huft
  import opened Lookup
  import opened Window
  import opened InflateData
  import opened CodeSets

  /** The code length alphabet has simple symbols only. */
  const TREE: Alphabet := Alphabet(19, [], [])

  // ----- stored blocks -----

  /** Dropping what is left of a byte. */
  lemma AlignIs(p: nat, k: nat, pos: nat)
    requires p + k == 8 * pos
    ensures p + k % 8 == Align(p)
  {
  }

  lemma StoredIs(src: seq<byte>, p: nat, hist: seq<byte>)
    ensures var q := Align(p);
            var n, i := Peek(src, q, 16), q / 8 + 4;
            RefStored(src, p, hist) ==
            if q + 32 > 8 * |src| || n + Peek(src, q + 16, 16) != 65535 || i + n > |src| then Bad
            else Ok(8 * (i + n), hist + src[i..i + n])
  {
    hide Peek, Align;
  }

  /** `inflate_stored` (zip/inflate.c:453-505). */
  method InflateStored(rd: Reader, sl: Slide) returns (st: Status)
    requires rd.Valid() && rd.bk <= 15 && sl.Valid()
    modifies rd, sl, sl.slide
    ensures rd.Valid() && sl.Valid() && (st.Done? ==> rd.bk <= 15)
    ensures Agrees(st, RefStored(rd.src, old(rd.P()), old(sl.hist)), rd.src, rd.P(), sl.hist)
  {
    hide Peek, RingOk, Concat, Reader.Valid, Reader.P, Reader.Pos, RefStored, Align;
    ghost var q := Align(rd.P());
    AlignIs(rd.P(), rd.bk, rd.Pos());
    StoredIs(rd.src, rd.P(), sl.hist);
    rd.DumpBits(rd.bk % 8);
    assert rd.P() == q;
    var ok, n := rd.TakeBits(16);
    if !ok {
      return Eof;
    }
    var x;
    ok, x := rd.TakeBits(16);
    if !ok {
      return Eof;
    }
    if n + x != 65535 {
      return Err(1);
    }
    st := CopyBytes(rd, sl, n, q / 8 + 4);
  }

  /** Lines 485-495: `n` bytes from byte `i` of the input. */
  method CopyBytes(rd: Reader, sl: Slide, n: nat, ghost i: nat) returns (st: Status)
    requires rd.Valid() && rd.bk <= 15 && sl.Valid() && rd.P() == 8 * i
    modifies rd, sl, sl.slide
    ensures rd.Valid() && sl.Valid() && (st.Done? ==> rd.bk <= 15)
    ensures st == Done || st == Eof
    ensures st == Done <==> i + n <= |rd.src|
    ensures st == Done ==> rd.P() == 8 * (i + n) && sl.hist == old(sl.hist) + rd.src[i..i + n]
  {
    hide Peek, RingOk, Concat, Reader.Valid, Reader.P, Reader.Pos;
    var k := 0;
    while k < n
      invariant k <= n && rd.Valid() && rd.bk <= 15 && sl.Valid()
      invariant rd.P() == 8 * (i + k) && i + k <= |rd.src|
      invariant sl.hist == old(sl.hist) + rd.src[i..i + k]
    {
      var ok, b := rd.TakeBits(8);
      if !ok {
        return Eof;
      }
      PeekByte(rd.src, i + k);
      sl.Put(b);
      assert rd.src[i..i + k + 1] == rd.src[i..i + k] + [rd.src[i + k]];
      k := k + 1;
    }
    st := Done;
  }

  // ----- fixed codes -----

  /** `inflate_fixed` (zip/inflate.c:509-559); `huft_build` returns 0 for the literal
      code and 1, which is let through, for the distance code. */
  method InflateFixed(rd: Reader, sl: Slide) returns (st: Status)
    requires rd.Valid() && rd.bk <= 15 && sl.Valid()
    modifies rd, sl, sl.slide
    ensures rd.Valid() && sl.Valid() && (st.Done? ==> rd.bk <= 15)
    ensures |old(sl.hist)| >= WSIZE
    ensures Agrees(st, RefCodes(FixedLit(), FixedDist(), LENIENT, rd.src, old(rd.P()), old(sl.hist)),
                   rd.src, rd.P(), sl.hist)
  {
    hide UsableSet, Follows, Faithful, Kraft, Pow2, PlanFor, SafePlan, Agrees, RefCodes, Reader.Valid, Reader.P, RingOk, Count;
    FixedLitUsable();
    FixedDistKraft();
    FixedSafe(LIT, DIST);
    FixedDistTaken();
    var code, tl, _ := MakeTable(FixedLit(), LIT, 7);
    assert code == 0;
    var code', td, _ := MakeTable(FixedDist(), DIST, 5);
    FollowsFaithful(tl, FixedLit(), LIT, PlanFor(FixedLit(), LIT, 7));
    FollowsFaithful(td, FixedDist(), DIST, PlanFor(FixedDist(), DIST, 5));
    st := InflateCodes(rd, sl, tl, td, FixedLit(), FixedDist());
  }

  lemma FollowsFaithful(t: Table, lens: seq<nat>, al: Alphabet, pl: Plan)
    requires Follows(t, lens, al, pl) && Taken(lens)
    ensures Faithful(t, lens, al)
  {
  }

  // ----- dynamic codes -----

  /** Lines 612-620: the code length code, into the first 19 elements of `ll`. */
  method ReadClens(rd: Reader, nb: nat, ll: array<nat>) returns (ok: bool)
    requires rd.Valid() && rd.bk <= 15 && nb <= 19 && ll.Length == 316
    modifies rd, ll
    ensures rd.Valid() && rd.bk <= 15
    ensures ok <==> old(rd.P()) + 3 * nb <= 8 * |rd.src|
    ensures ok ==> rd.P() == old(rd.P()) + 3 * nb && ll[..19] == RefClens(rd.src, old(rd.P()), nb)
  {
    hide Peek, Order, Reader.Valid, Reader.P, Reader.Pos;
    ghost var p := rd.P();
    var j := 0;
    while j < nb
      invariant j <= nb && rd.Valid() && rd.bk <= 15 && rd.P() == p + 3 * j && rd.P() <= 8 * |rd.src|
      invariant forall i :: 0 <= i < j ==> ll[Order(i)] == Peek(rd.src, p + 3 * i, 3)
    {
      var x;
      ok, x := rd.TakeBits(3);
      if !ok {
        return;
      }
      OrderDistinct(j);
      ll[Order(j)] := x;
      j := j + 1;
    }
    while j < 19
      invariant nb <= j <= 19 && rd.Valid() && rd.bk <= 15 && rd.P() == p + 3 * nb
      invariant forall i :: 0 <= i < j ==> ll[Order(i)] == if i < nb then Peek(rd.src, p + 3 * i, 3) else 0
    {
      OrderDistinct(j);
      ll[Order(j)] := 0;
      j := j + 1;
    }
    ok := true;
    ClensAre(rd.src, p, nb, ll[..19]);
  }

  lemma OrderDistinct(j: nat)
    requires j < 19
    ensures forall i :: 0 <= i < j ==> Order(i) != Order(j)
  {
  }

  lemma OrderOnto(s: nat) returns (i: nat)
    requires s < 19
    ensures i < 19 && Order(i) == s
  {
    i := [3, 17, 15, 13, 11, 9, 7, 5, 4, 6, 8, 10, 12, 14, 16, 18, 0, 1, 2][s];
  }

  lemma {:induction false} ClenOfIs(src: seq<byte>, p: nat, nb: nat, i: nat)
    requires nb <= 19 && i < 19
    ensures ClenOf(src, p, nb, Order(i)) == if i < nb then Peek(src, p + 3 * i, 3) else 0
  {
    hide Peek, Order;
    OrderDistinct(i);
    if nb > 0 {
      ClenOfIs(src, p, nb - 1, i);
      if i != nb - 1 {
        OrderDistinct(if i < nb - 1 then nb - 1 else i);
      }
    }
  }

  lemma ClensAre(src: seq<byte>, p: nat, nb: nat, cl: seq<nat>)
    requires nb <= 19 && |cl| == 19
    requires forall i :: 0 <= i < 19 ==> cl[Order(i)] == if i < nb then Peek(src, p + 3 * i, 3) else 0
    ensures cl == RefClens(src, p, nb)
  {
    hide Peek, ClenOf, Order;
    forall s | 0 <= s < 19
      ensures cl[s] == RefClens(src, p, nb)[s]
    {
      var i := OrderOnto(s);
      ClenOfIs(src, p, nb, i);
    }
  }

  function Last(acc: seq<nat>): (r: nat)
  {
    if acc == [] then 0 else acc[|acc| - 1]
  }

  /** Writing `j` copies of `x`. */
  method Fill(ll: array<nat>, i: nat, j: nat, x: nat)
    requires i + j <= ll.Length
    modifies ll
    ensures ll[..i + j] == old(ll[..i]) + Repeat(x, j)
  {
    for k := i to i + j
      invariant ll[..i] == old(ll[..i])
      invariant forall t :: i <= t < k ==> ll[t] == x
    {
      ll[k] := x;
    }
    assert ll[..i + j] == ll[..i] + ll[i..i + j];
  }

  datatype LensStatus = Lengths | Fail(st: Status)

  /** Lines 645-678: one code length symbol. */
  method OneLength(rd: Reader, ll: array<nat>, n: nat, i: nat, l: nat, s: nat) returns (r: LensStatus, i': nat, l': nat)
    requires rd.Valid() && rd.bk <= 15 && ll.Length == 316 && i < n <= 316 && s < 19 && l == Last(ll[..i])
    modifies rd, ll
    ensures rd.Valid() && rd.bk <= 15
    ensures var x := RefLenSym(false, rd.src, old(rd.P()), s, old(ll[..i]));
            && (r.Lengths? ==> i < i' <= n && x == Lens(rd.P(), ll[..i']) && l' == Last(ll[..i']))
            && (r.Fail? ==> (x.NoLens? || |x.lens| > n) && r.st != Done && !r.st.Undefined?)
  {
    hide Peek, Reader.Valid, Reader.P, Reader.Pos, Repeat;
    i', l' := i, l;
    r := Lengths;
    if s < 16 {
      ll[i] := s;
      assert ll[..i + 1] == old(ll[..i]) + [s];
      i', l' := i + 1, s;
      return;
    }
    var bits, least := if s == 16 then 2 else if s == 17 then 3 else 7, if s == 18 then 11 else 3;
    var ok, x := rd.TakeBits(bits);
    if !ok {
      return Fail(Eof), i, l;
    }
    var j := least + x;
    if i + j > n {
      return Fail(Err(1)), i, l;
    }
    l' := if s == 16 then l else 0;
    Fill(ll, i, j, l');
    i' := i + j;
  }

  /** Lines 635-679: all code lengths, exactly `n` of them. */
  method ReadLengths(rd: Reader, ll: array<nat>, t: Table, n: nat, ghost cl: seq<nat>, ghost pl: Plan)
    returns (r: LensStatus)
    requires rd.Valid() && rd.bk <= 15 && ll.Length == 316 && n <= 316
    requires |cl| == 19 && UsableSet(cl) && Follows(t, cl, TREE, pl) && (t.Table? ==> pl.l == pl.g && pl.l <= 8)
    modifies rd, ll
    ensures rd.Valid() && (r.Lengths? ==> rd.bk <= 15)
    ensures var x := RefLens(cl, false, n, rd.src, old(rd.P()), []);
            && (r.Lengths? ==> x == Lens(rd.P(), ll[..n]) && forall k :: 0 <= k < n ==> ll[k] <= 15)
            && (r.Fail? ==> r.st != Done && (r.st.Err? ==> x.NoLens?) && (r.st.Undefined? ==> x.UnsetLens?))
            && (r.Fail? && r.st == Eof && x.Lens? ==> 8 * |rd.src| < x.p + 8)
  {
    hide Peek, Reader.Valid, Reader.P, Reader.Pos, Follows, RefLenSym, SymPayload, Matches, UsableSet, NoCodes, LoneBit, StreamBit;
    var i, l := 0, 0;
    ghost var x := RefLens(cl, false, n, rd.src, rd.P(), []);
    assert ll[..0] == [];
    while i < n
      invariant i <= n && rd.Valid() && rd.bk <= 15 && l == Last(ll[..i])
      invariant RefLens(cl, false, n, rd.src, rd.P(), ll[..i]) == x
      invariant forall k :: 0 <= k < i ==> ll[k] <= 15
    {
      ghost var p := rd.P();
      ghost var before := ll[..i];
      var c := DecodeSingle(rd, t, cl, TREE, pl);
      ghost var d := DecodeSym(cl, rd.src, p);
      if c.NoInput? {
        return Fail(Eof);
      }
      if c.Junk? {
        return Fail(Undefined);
      }
      TreePayload(d.s);
      assert c.n == d.s;
      ghost var p1 := rd.P();
      var q;
      q, i, l := OneLength(rd, ll, n, i, l, c.n);
      LenSymSmall(rd.src, p1, c.n, before);
      if q.Fail? {
        return q;
      }
    }
    r := Lengths;
  }

  lemma TreePayload(s: nat)
    requires s < 19
    ensures SymPayload(TREE, s) == Value(16, s)
  {
  }

  /** Appended code lengths are at most 15. */
  lemma LenSymSmall(src: seq<byte>, p: nat, s: nat, acc: seq<nat>)
    requires s < 19 && forall k :: 0 <= k < |acc| ==> acc[k] <= 15
    ensures var x := RefLenSym(false, src, p, s, acc);
            x.Lens? ==> forall k :: 0 <= k < |x.lens| ==> x.lens[k] <= 15
  {
    hide Peek;
  }

  /** Lines 624-631, 695-704, 706-721: build a table and give up unless it is usable. */
  method TreeTable(b: seq<nat>) returns (code: nat, t: Table, unset: bool)
    requires |b| == 19 && forall s :: 0 <= s < |b| ==> b[s] <= 7
    ensures code == 0 <==> UsableSet(b)
    ensures code == 0 ==> (unset <==> LoneBit(b))
    ensures code == 0 ==> Follows(t, b, TREE, PlanFor(b, TREE, 7))
    ensures code == 0 && t.Table? ==> var pl := PlanFor(b, TREE, 7); pl.l == pl.g && pl.l <= 8
  {
    hide UsableSet, Follows, Kraft, Pow2, PlanFor, SafePlan, Count, LoneBit;
    code, t, unset := MakeTable(b, TREE, 7);
    CountAll(b, 0);
    if code == 0 && Count(b, 0) < |b| {
      TreeSafe(b, TREE);
      SafeWidth(PlanFor(b, TREE, 7));
      PlanForFields(b, TREE, 7);
      LengthsInUse(b);
      MaxSeven(b);
    }
  }

  lemma SafeWidth(pl: Plan)
    requires SafePlan(pl)
    ensures pl.l <= 9
  {
  }

  lemma MaxSeven(b: seq<nat>)
    requires forall s :: 0 <= s < |b| ==> b[s] <= 7
    ensures MaxLen(b, BMAX) <= 7
  {
    hide Count;
    if MaxLen(b, BMAX) > 0 {
      var s := NthSym(b, MaxLen(b, BMAX), 0);
    }
  }

  method LitTable(b: seq<nat>) returns (code: nat, t: Table, unset: bool)
    requires 0 < |b| <= 288 && forall s :: 0 <= s < |b| ==> b[s] <= 15
    ensures code == 0 <==> UsableSet(b)
    ensures code == 0 ==> (unset <==> LoneBit(b))
    ensures code == 0 ==> Faithful(t, b, LIT)
  {
    hide UsableSet, Follows, Kraft, Pow2, PlanFor, SafePlan, Count, Faithful, LoneBit;
    code, t, unset := MakeTable(b, LIT, 9);
    CountAll(b, 0);
    if code == 0 {
      if Count(b, 0) < |b| {
        LiteralSafe(b, LIT);
      }
      FollowsFaithful(t, b, LIT, PlanFor(b, LIT, 9));
    }
  }

  method DistTable(b: seq<nat>) returns (code: nat, t: Table, unset: bool)
    requires 0 < |b| <= 30 && forall s :: 0 <= s < |b| ==> b[s] <= 15
    ensures code == 0 <==> UsableSet(b)
    ensures code == 0 ==> (unset <==> LoneBit(b))
    ensures code == 0 ==> Faithful(t, b, DIST)
  {
    hide UsableSet, Follows, Kraft, Pow2, PlanFor, SafePlan, Count, Faithful, LoneBit;
    code, t, unset := MakeTable(b, DIST, 6);
    CountAll(b, 0);
    if code == 0 {
      if Count(b, 0) < |b| {
        DistanceSafe(b, DIST);
      }
      FollowsFaithful(t, b, DIST, PlanFor(b, DIST, 6));
    }
  }

  /** What reading the trees says about the reference. */
  ghost predicate TreesAgree(st: Status, ref: Trees, src: seq<byte>, p: nat, ll: seq<nat>, dl: seq<nat>)
  {
    match st
    case Done => ref == Trees(p, ll, dl)
    case Err(_) => ref.NoTrees?
    case Undefined => ref.UnsetTrees?
    case Eof => ref.Trees? ==> 8 * |src| < ref.p + 8
  }

  /** Lines 593-608: how many codes of each kind. */
  method ReadCounts(rd: Reader) returns (ok: bool, nl: nat, nd: nat, nb: nat)
    requires rd.Valid() && rd.bk <= 15
    modifies rd
    ensures rd.Valid() && rd.bk <= 15
    ensures ok <==> old(rd.P()) + 14 <= 8 * |rd.src|
    ensures ok ==> var p := old(rd.P());
                   && rd.P() == p + 14
                   && nl == 257 + Peek(rd.src, p, 5) && nd == 1 + Peek(rd.src, p + 5, 5) && nb == 4 + Peek(rd.src, p + 10, 4)
  {
    hide Peek, Reader.Valid, Reader.P, Reader.Pos;
    nl, nd, nb := 0, 0, 0;
    ok, nl := rd.TakeBits(5);
    nl := 257 + nl;
    if ok {
      ok, nd := rd.TakeBits(5);
      nd := 1 + nd;
      if ok {
        ok, nb := rd.TakeBits(4);
        nb := 4 + nb;
      }
    }
  }

  lemma SmallFields(src: seq<byte>, p: nat)
    ensures Peek(src, p, 4) <= 15 && Peek(src, p, 3) <= 7
  {
    PeekBound(src, p, 4);
    PeekBound(src, p, 3);
    assert Pow2(4) == 16 && Pow2(3) == 8;
  }

  lemma {:induction false} ClenSmall(src: seq<byte>, p: nat, nb: nat, s: nat)
    requires nb <= 19
    ensures ClenOf(src, p, nb, s) <= 7
  {
    hide Peek, Order;
    if nb > 0 {
      SmallFields(src, p + 3 * (nb - 1));
      ClenSmall(src, p, nb - 1, s);
    }
  }

  lemma ClensSmall(src: seq<byte>, p: nat, nb: nat)
    requires nb <= 19
    ensures forall s :: 0 <= s < 19 ==> RefClens(src, p, nb)[s] <= 7
  {
    hide Peek, Order, ClenOf;
    forall s | 0 <= s < 19
      ensures RefClens(src, p, nb)[s] <= 7
    {
      ClenSmall(src, p, nb, s);
    }
  }

  /** Lines 586-721: everything before the data of a dynamic block. */
  method ReadTrees(rd: Reader) returns (st: Status, tl: Table, td: Table, unset: bool, ghost ll: seq<nat>, ghost dl: seq<nat>)
    requires rd.Valid() && rd.bk <= 15
    modifies rd
    ensures rd.Valid()
    ensures TreesAgree(st, RefTrees(false, rd.src, old(rd.P())), rd.src, rd.P(), ll, dl)
    ensures st.Done? ==> (unset <==> LoneTrees(rd.src, old(rd.P())))
    ensures st.Done? ==> rd.bk <= 15 && |ll| <= 288 && |dl| <= 30 && Faithful(tl, ll, LIT) && Faithful(td, dl, DIST)
  {
    hide Peek, Reader.Valid, Reader.P, Reader.Pos, UsableSet, Faithful, Follows, PlanFor, RefLens, RefClens, LoneBit;
    tl, td, unset, ll, dl := Null, Null, false, [], [];
    ghost var p := rd.P();
    SmallFields(rd.src, p + 10);
    var ok, nl, nd, nb := ReadCounts(rd);
    if !ok {
      return Eof, tl, td, unset, ll, dl;
    }
    if nl > 286 || nd > 30 {
      return Err(1), tl, td, unset, ll, dl;
    }
    var arr := new nat[316](_ => 0);
    ok := ReadClens(rd, nb, arr);
    if !ok {
      return Eof, tl, td, unset, ll, dl;
    }
    ClensSmall(rd.src, p + 14, nb);
    st, tl, td, unset, ll, dl := BuildTrees(rd, arr, nl, nd, RefClens(rd.src, p + 14, nb));
  }

  /** Lines 624-721, once the code length code is known. */
  method BuildTrees(rd: Reader, arr: array<nat>, nl: nat, nd: nat, ghost cl: seq<nat>)
    returns (st: Status, tl: Table, td: Table, unset: bool, ghost ll: seq<nat>, ghost dl: seq<nat>)
    requires rd.Valid() && rd.bk <= 15 && arr.Length == 316 && 257 <= nl <= 286 && 1 <= nd <= 30
    requires arr[..19] == cl
    requires forall s :: 0 <= s < |cl| ==> cl[s] <= 7
    modifies rd, arr
    ensures rd.Valid()
    ensures st.Done? ==> rd.bk <= 15 && |ll| <= 288 && |dl| <= 30 && Faithful(tl, ll, LIT) && Faithful(td, dl, DIST)
    ensures var lens := RefLens(cl, false, nl + nd, rd.src, old(rd.P()), []);
            match st
            case Done => UsableSet(cl) && lens.Lens? && lens.p == rd.P() && UsableSet(lens.lens[..nl]) && UsableSet(lens.lens[nl..])
                         && ll == lens.lens[..nl] && dl == lens.lens[nl..]
                         && (unset <==> LoneBit(cl) || LoneBit(ll) || LoneBit(dl))
            case Eof => UsableSet(cl) && lens.Lens? ==> 8 * |rd.src| < lens.p + 8
            case Undefined => UsableSet(cl) && lens.UnsetLens?
            case _ => !(UsableSet(cl) && lens.UnsetLens?) && !(UsableSet(cl) && lens.Lens? && UsableSet(lens.lens[..nl]) && UsableSet(lens.lens[nl..]))
  {
    hide Peek, Reader.Valid, Reader.P, Reader.Pos, UsableSet, Faithful, Follows, PlanFor, RefLens, LoneBit;
    tl, td, unset, ll, dl := Null, Null, false, [], [];
    var code, tt, u := TreeTable(arr[..19]);
    unset := u;
    if code != 0 {
      return Err(code), tl, td, unset, ll, dl;
    }
    var r := ReadLengths(rd, arr, tt, nl + nd, cl, PlanFor(cl, TREE, 7));
    if r.Fail? {
      return r.st, tl, td, unset, ll, dl;
    }
    ll, dl := arr[..nl], arr[nl..nl + nd];
    assert arr[..nl + nd][..nl] == ll && arr[..nl + nd][nl..] == dl;
    code, tl, u := LitTable(arr[..nl]);
    unset := unset || u;
    if code != 0 {
      return Err(code), tl, td, unset, ll, dl;
    }
    code, td, u := DistTable(arr[nl..nl + nd]);
    unset := unset || u;
    st := if code == 0 then Done else Err(code);
  }

  /** `inflate_dynamic` (zip/inflate.c:563-737). */
  method InflateDynamic(rd: Reader, sl: Slide) returns (st: Status, unset: bool)
    requires rd.Valid() && rd.bk <= 15 && sl.Valid()
    modifies rd, sl, sl.slide
    ensures rd.Valid() && sl.Valid() && (st.Done? ==> rd.bk <= 15)
    ensures |old(sl.hist)| >= WSIZE
    ensures Agrees(st, RefBody(LENIENT, 2, rd.src, old(rd.P()), old(sl.hist)), rd.src, rd.P(), sl.hist)
    ensures st == Done ==> (unset <==> LoneTrees(rd.src, old(rd.P())))
  {
    hide Reader.Valid, Reader.P, Reader.Pos, RefTrees, RefCodes, Faithful, RingOk, Concat, LoneTrees;
    var tl, td;
    ghost var ll, dl;
    st, tl, td, unset, ll, dl := ReadTrees(rd);
    if st == Done {
      st := InflateCodes(rd, sl, tl, td, ll, dl);
    }
  }

  // ----- blocks -----

  /** Lines 773-783: the data of a block of type `t`. */
  method InflateBody(rd: Reader, sl: Slide, t: nat) returns (st: Status, unset: bool)
    requires rd.Valid() && rd.bk <= 15 && sl.Valid()
    modifies rd, sl, sl.slide
    ensures rd.Valid() && sl.Valid() && (st.Done? ==> rd.bk <= 15)
    ensures |old(sl.hist)| >= WSIZE
    ensures Agrees(st, RefBody(LENIENT, t, rd.src, old(rd.P()), old(sl.hist)), rd.src, rd.P(), sl.hist)
    ensures st == Done ==> (unset <==> t == 2 && LoneTrees(rd.src, old(rd.P())))
  {
    hide Reader.Valid, Reader.P, Reader.Pos, RefTrees, RefCodes, RefStored, RingOk, Concat, LoneTrees;
    unset := false;
    if t == 2 {
      st, unset := InflateDynamic(rd, sl);
    } else if t == 0 {
      st := InflateStored(rd, sl);
    } else if t == 1 {
      st := InflateFixed(rd, sl);
    } else {
      st := Err(2);
    }
  }

  /** `inflate_block` (zip/inflate.c:741-784). */
  method InflateBlock(rd: Reader, sl: Slide) returns (st: Status, last: bool, unset: bool)
    requires rd.Valid() && rd.bk <= 15 && sl.Valid()
    modifies rd, sl, sl.slide
    ensures rd.Valid() && sl.Valid() && (st.Done? ==> rd.bk <= 15)
    ensures |old(sl.hist)| >= WSIZE
    ensures var p := old(rd.P());
            var ref := if p + 3 > 8 * |rd.src| then Bad
                       else RefBody(LENIENT, Peek(rd.src, p + 1, 2), rd.src, p + 3, old(sl.hist));
            Agrees(st, ref, rd.src, rd.P(), sl.hist)
    ensures st == Done ==> (last <==> Peek(rd.src, old(rd.P()), 1) == 1)
    ensures st == Done ==> var p := old(rd.P()); (unset <==> Peek(rd.src, p + 1, 2) == 2 && LoneTrees(rd.src, p + 3))
  {
    hide Reader.Valid, Reader.P, Reader.Pos, RefBody, RingOk, Concat, Peek, LoneTrees;
    last, unset := false, false;
    var ok, x := rd.TakeBits(1);
    if !ok {
      return Eof, last, unset;
    }
    last := x == 1;
    var t;
    ok, t := rd.TakeBits(2);
    if !ok {
      return Eof, last, unset;
    }
    st, unset := InflateBody(rd, sl, t);
  }

  /** The loop of `inflate` (zip/inflate.c:802-810). */
  method InflateBlocks(rd: Reader, sl: Slide) returns (st: Status, unset: bool)
    requires rd.Valid() && rd.bk <= 15 && sl.Valid()
    modifies rd, sl, sl.slide
    ensures rd.Valid() && sl.Valid() && (st.Done? ==> rd.bk <= 15)
    ensures |old(sl.hist)| >= WSIZE
    ensures Agrees(st, RefInflate(LENIENT, rd.src, old(rd.P()), old(sl.hist)), rd.src, rd.P(), sl.hist)
    ensures st == Done ==> (unset <==> LoneBlocks(rd.src, old(rd.P()), old(sl.hist)))
  {
    hide Reader.Valid, Reader.P, Reader.Pos, RefBody, RingOk, Concat, Peek, LoneTrees;
    ghost var ref := RefInflate(LENIENT, rd.src, rd.P(), sl.hist);
    ghost var lone := LoneBlocks(rd.src, rd.P(), sl.hist);
    unset := false;
    while true
      invariant rd.Valid() && rd.bk <= 15 && sl.Valid()
      invariant RefInflate(LENIENT, rd.src, rd.P(), sl.hist) == ref
      invariant lone <==> unset || LoneBlocks(rd.src, rd.P(), sl.hist)
      decreases 8 * |rd.src| - rd.P()
    {
      var last, u;
      st, last, u := InflateBlock(rd, sl);
      unset := unset || u;
      if st != Done || last {
        return;
      }
    }
  }

  /** `inflate` (zip/inflate.c:788-825).  When it returns 0 the windows handed to
      `flush_window` are the output, and the next byte to be read is the first one
      after the stream; `unset` says whether tables were built for a lone code, with
      an element that was never set. */
  method Inflate(rd: Reader, sl: Slide) returns (st: Status, unset: bool)
    requires rd.Valid() && rd.bk == 0 && sl.Valid() && sl.wp == 0
    modifies rd, sl, sl.slide
    ensures |old(sl.hist)| >= WSIZE
    ensures var ref := RefInflate(LENIENT, rd.src, old(8 * rd.Pos()), old(sl.hist));
            match st
            case Done =>
              && ref.Ok? && ref.hist == sl.seed + Concat(sl.windows) && Cut(sl.windows)
              && rd.Pos() == (ref.p + 7) / 8
              && rd.Filled()
            case Eof => ref.Ok? ==> 8 * |rd.src| < ref.p + 8
            case Undefined => ref.Astray?
            case Err(_) => ref.Bad?
    ensures st == Done ==> (unset <==> LoneBlocks(rd.src, old(8 * rd.Pos()), old(sl.hist)))
  {
    hide RefInflate, RingOk, Concat, Peek, LoneBlocks;
    st, unset := InflateBlocks(rd, sl);
    if st == Done {
      rd.Undo();
      sl.FlushRest();
    }
  }
}
