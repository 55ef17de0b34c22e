/** `inflate_codes` (zip/inflate.c:347-449) against the reference decoder. */
module InflateData {
  import opened Bits
  import opened BitStream
  import opened BitReader
  import opened CanonicalCode
  import opened DeflateSpec
  import opened HuftPlan
  import opened Lookup
  import opened Window

  /** `Err` is a nonzero return, `Eof` giving up when the input ends, `Undefined`
      following a table element or a table that was never set: the program goes on with
      what memory happens to hold, and what comes of it is not modelled. */
  datatype Status = Done | Err(code: nat) | Eof | Undefined

  /** `cplens`, `cplext`, `cpdist`, `cpdext` (zip/inflate.c:58-83); 99 is invalid. */
  const LIT: Alphabet := Alphabet(257, LEN_BASE + [0, 0], LEN_EXTRA + [99, 99])
  const DIST: Alphabet := Alphabet(0, DIST_BASE, DIST_EXTRA)

  /** What the outcome says about the reference. */
  ghost predicate Agrees(st: Status, ref: Ref, src: seq<byte>, p: nat, hist: seq<byte>)
  {
    match st
    case Done => ref == Ok(p, hist)
    case Err(_) => ref.Bad?
    case Undefined => ref.Astray?
    case Eof => ref.Ok? ==> 8 * |src| < ref.p + 8
  }

  lemma LitPayload(s: nat)
    requires s < 288
    ensures var v := SymPayload(LIT, s);
            && (s < 256 ==> v == Value(16, s))
            && (s == 256 ==> v.Value? && v.e == 15)
            && (257 <= s < 286 ==> v == Value(LEN_EXTRA[s - 257], LEN_BASE[s - 257]) && v.e <= 5)
            && (286 <= s ==> v.Value? && v.e == 99)
  {
    if 257 <= s < 286 {
      assert LEN_EXTRA[s - 257] <= 5;
    }
  }

  lemma DistPayload(s: nat)
    requires s < 30
    ensures SymPayload(DIST, s) == Value(DIST_EXTRA[s], DIST_BASE[s]) && DIST_EXTRA[s] <= 13
  {
    assert DIST_EXTRA[s] <= 13;
  }

  lemma LitAlphabet(ll: seq<nat>)
    requires |ll| <= 288
    ensures AlphabetOk(ll, LIT) && |LEN_EXTRA| == |LEN_BASE| == 29
  {
  }

  lemma DistAlphabet(dl: seq<nat>)
    requires |dl| <= 30
    ensures AlphabetOk(dl, DIST) && |DIST_EXTRA| == |DIST_BASE| == 30
  {
  }

  datatype MatchStatus = Found(n: nat, dist: nat) | Stop(st: Status)

  /** The cases of the specification, for sets of up to 30 codes. */
  lemma RefDistIs(dl: seq<nat>, src: seq<byte>, p: nat, n: nat)
    requires |dl| <= 30
    ensures var d := DecodeSym(dl, src, p);
            match d
            case NoSym => RefDist(dl, src, p, n).NoMatch?
            case UnsetSym => RefDist(dl, src, p, n).UnsetMatch?
            case Sym(s) =>
              var p1 := p + dl[s] + DIST_EXTRA[s];
              RefDist(dl, src, p, n) ==
              if p1 > 8 * |src| then NoMatch else Match(p1, n, DIST_BASE[s] + Peek(src, p + dl[s], DIST_EXTRA[s]))
  {
    hide Peek, DecodeSym, Matches;
  }

  /** Lines 403-415: the distance of a match of length `n`. */
  method DecodeDistance(rd: Reader, td: Table, n: nat, ghost dl: seq<nat>) returns (r: MatchStatus)
    requires rd.Valid() && rd.bk <= 15 && |dl| <= 30 && Faithful(td, dl, DIST)
    modifies rd
    ensures rd.Valid()
    ensures r.Found? ==> rd.bk <= 15
    ensures var m := RefDist(dl, rd.src, old(rd.P()), n);
            && (r.Found? ==> m == Match(rd.P(), n, r.dist) && r.n == n)
            && (r.Stop? ==> r.st != Done && (r.st.Err? ==> m.NoMatch?) && (r.st.Undefined? ==> m.UnsetMatch?))
            && (r.Stop? && r.st == Eof && m.Match? ==> 8 * |rd.src| < m.p + 8)
  {
    hide Faithful, Peek, Rev, Reader.Valid, Reader.P, Reader.Pos, Matches, SymPayload, DecodeSym, RefDist, NoCodes, LoneBit,
         StreamBit, StartsWith, AlphabetOk, DIST, DIST_BASE, DIST_EXTRA;
    ghost var p := rd.P();
    RefDistIs(dl, rd.src, p, n);
    DistAlphabet(dl);
    var c := Decode(rd, td, dl, DIST);
    ghost var d := DecodeSym(dl, rd.src, p);
    if d.Sym? {
      DistPayload(d.s);
    }
    match c
    case NoInput => r := Stop(Eof);
    case BadCode => r := Stop(Err(1));
    case Junk => r := Stop(Undefined);
    case Code(e, base) =>
      var ok, x := rd.TakeBits(e);
      if ok {
        r := Found(n, base + x);
      } else {
        r := Stop(Eof);
      }
  }

  /** Lines 397-415: the length and distance that follow a length symbol. */
  method DecodeMatch(rd: Reader, td: Table, e: nat, base: nat, ghost s: nat, ghost dl: seq<nat>) returns (r: MatchStatus)
    requires rd.Valid() && rd.bk <= 15 && |dl| <= 30 && Faithful(td, dl, DIST)
    requires 257 <= s < 286 && e == LEN_EXTRA[s - 257] <= 5 && base == LEN_BASE[s - 257]
    modifies rd
    ensures rd.Valid()
    ensures r.Found? ==> rd.bk <= 15
    ensures var m := RefMatch(dl, rd.src, old(rd.P()), s);
            && (r.Found? ==> m == Match(rd.P(), r.n, r.dist))
            && (r.Stop? ==> r.st != Done && (r.st.Err? ==> m.NoMatch?) && (r.st.Undefined? ==> m.UnsetMatch?))
            && (r.Stop? && r.st == Eof && m.Match? ==> 8 * |rd.src| < m.p + 8)
  {
    hide Faithful, Peek, Rev, Reader.Valid, Reader.P, Reader.Pos, RefDist;
    var ok, x := rd.TakeBits(e);
    if !ok {
      return Stop(Eof);
    }
    r := DecodeDistance(rd, td, base + x, dl);
  }

  /** Lines 372-438: one symbol and, for a length, the match.  Unless the block ends or
      cannot go on, what is left to decode is as the specification has it. */
  method OneSymbol(rd: Reader, sl: Slide, tl: Table, td: Table, ghost ll: seq<nat>, ghost dl: seq<nat>)
    returns (st: Status, more: bool)
    requires rd.Valid() && rd.bk <= 15 && sl.Valid()
    requires |ll| <= 288 && |dl| <= 30 && Faithful(tl, ll, LIT) && Faithful(td, dl, DIST)
    modifies rd, sl, sl.slide
    ensures rd.Valid() && sl.Valid() && (more || st.Done? ==> rd.bk <= 15)
    ensures |old(sl.hist)| >= WSIZE && old(rd.P()) <= 8 * |rd.src|
    ensures var ref := RefCodes(ll, dl, LENIENT, rd.src, old(rd.P()), old(sl.hist));
            if more then old(rd.P()) < rd.P() && |sl.hist| >= WSIZE && ref == RefCodes(ll, dl, LENIENT, rd.src, rd.P(), sl.hist)
            else Agrees(st, ref, rd.src, rd.P(), sl.hist)
  {
    hide Faithful, Peek, Rev, Reader.Valid, Reader.P, Reader.Pos, RefMatch, Copy, RingOk, Concat, SymPayload, Matches, DecodeSym,
         AlphabetOk, LIT, DIST, LEN_BASE, LEN_EXTRA, DIST_BASE, DIST_EXTRA;
    ghost var p := rd.P();
    LitAlphabet(ll);
    st, more := Done, false;
    var c := Decode(rd, tl, ll, LIT);
    ghost var d := DecodeSym(ll, rd.src, p);
    if d.Sym? {
      LitPayload(d.s);
    }
    match c {
      case NoInput => st := Eof;
      case BadCode => st := Err(1);
      case Junk => st := Undefined;
      case Code(e, n) =>
        if e == 16 {
          sl.Put(n);
          more := true;
        } else if e != 15 {
          var r := DecodeMatch(rd, td, e, n, d.s, dl);
          if r.Stop? {
            st := r.st;
          } else {
            sl.CopyMatch(r.dist, r.n);
            more := true;
          }
        }
    }
  }

  /** The whole loop: decode symbols until the end of the block. */
  method InflateCodes(rd: Reader, sl: Slide, tl: Table, td: Table, ghost ll: seq<nat>, ghost dl: seq<nat>)
    returns (st: Status)
    requires rd.Valid() && rd.bk <= 15 && sl.Valid()
    requires |ll| <= 288 && |dl| <= 30 && Faithful(tl, ll, LIT) && Faithful(td, dl, DIST)
    modifies rd, sl, sl.slide
    ensures rd.Valid() && sl.Valid() && (st.Done? ==> rd.bk <= 15)
    ensures |old(sl.hist)| >= WSIZE
    ensures Agrees(st, RefCodes(ll, dl, LENIENT, rd.src, old(rd.P()), old(sl.hist)), rd.src, rd.P(), sl.hist)
  {
    hide Faithful, Reader.Valid, Reader.P, Reader.Pos, RingOk, Concat, RefCodes, Agrees;
    ghost var ref := RefCodes(ll, dl, LENIENT, rd.src, rd.P(), sl.hist);
    while true
      invariant rd.Valid() && rd.bk <= 15 && sl.Valid()
      invariant RefCodes(ll, dl, LENIENT, rd.src, rd.P(), sl.hist) == ref
      decreases 8 * |rd.src| - rd.P()
    {
      var more;
      st, more := OneSymbol(rd, sl, tl, td, ll, dl);
      if !more {
        return;
      }
    }
  }
}
