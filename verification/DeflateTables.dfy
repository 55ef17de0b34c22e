/** The tables of sections 3.2.5 to 3.2.7 of RFC 1951 by what they are for: every length and
    every distance is given once, the fixed codes are the ones listed there, and the
    repetitions of code lengths cover their ranges. */
module DeflateTables {
  import opened Bits
  import opened BitStream
  import opened CanonicalCode
  import opened DeflateSpec
  import CodeSets

  // ----- lengths and distances -----

  /** The ranges of the length symbols follow each other from 3 on; 258 has a symbol of its
      own, which takes the last value of the one before. */
  lemma LengthsTile(i: nat)
    requires i < 29
    ensures LEN_BASE[0] == 3 && LEN_BASE[28] == 258
    ensures LEN_EXTRA[i] == if i < 4 || i == 28 then 0 else (i - 4) / 4
    ensures i < 27 ==> LEN_BASE[i + 1] == LEN_BASE[i] + Pow2(LEN_EXTRA[i])
    ensures i == 27 ==> LEN_BASE[i + 1] == LEN_BASE[i] + Pow2(LEN_EXTRA[i]) - 1
  {
    hide Pow2, LEN_BASE, LEN_EXTRA;
    LengthExtra(i);
    Pow2Small(LEN_EXTRA[i]);
    LengthStep(i);
  }

  lemma LengthStep(i: nat)
    requires i < 29
    ensures LEN_BASE[0] == 3 && LEN_BASE[28] == 258 && LEN_EXTRA[i] <= 5
    ensures i < 27 ==> LEN_BASE[i + 1] == LEN_BASE[i] + POW()[LEN_EXTRA[i]]
    ensures i == 27 ==> LEN_BASE[i + 1] == LEN_BASE[i] + POW()[LEN_EXTRA[i]] - 1
  {
    hide LEN_EXTRA;
    LengthExtra(i);
  }

  lemma LengthExtra(i: nat)
    requires i < 29
    ensures |LEN_EXTRA| == |LEN_BASE| == 29 && LEN_EXTRA[i] == if i < 4 || i == 28 then 0 else (i - 4) / 4
  {
  }

  lemma DistanceExtra(i: nat)
    requires i < 30
    ensures |DIST_EXTRA| == |DIST_BASE| == 30 && DIST_EXTRA[i] == if i < 2 then 0 else (i - 2) / 2
  {
  }

  /** Those of the distance symbols do from 1 to 32768. */
  lemma DistancesTile(i: nat)
    requires i < 30
    ensures DIST_BASE[0] == 1 && DIST_BASE[29] + Pow2(DIST_EXTRA[29]) == 32769
    ensures DIST_EXTRA[i] == if i < 2 then 0 else (i - 2) / 2
    ensures i < 29 ==> DIST_BASE[i + 1] == DIST_BASE[i] + Pow2(DIST_EXTRA[i])
  {
    hide Pow2, DIST_BASE, DIST_EXTRA;
    DistanceExtra(i);
    DistanceStep(i);
    Pow2Small(DIST_EXTRA[i]);
    DistanceEnds();
    Pow2Small(13);
  }

  lemma DistanceStep(i: nat)
    requires i < 30
    ensures DIST_EXTRA[i] <= 13
    ensures i < 29 ==> DIST_BASE[i + 1] == DIST_BASE[i] + POW()[DIST_EXTRA[i]]
  {
    hide DIST_EXTRA;
    DistanceExtra(i);
  }

  lemma DistanceEnds()
    ensures DIST_BASE[0] == 1 && DIST_BASE[29] == 24577 && DIST_EXTRA[29] == 13
  {
  }

  /** Symbol `i` with extra value `x` means length `n`, in the one way that the RFC
      allows. */
  predicate GivesLength(i: nat, x: nat, n: nat)
  {
    i < 29 && x < Pow2(LEN_EXTRA[i]) && LEN_BASE[i] + x == n && !(i == 27 && x == 31)
  }

  predicate GivesDistance(i: nat, x: nat, n: nat)
  {
    i < 30 && x < Pow2(DIST_EXTRA[i]) && DIST_BASE[i] + x == n
  }

  lemma {:induction false} LengthsApart(i: nat, j: nat)
    requires i < j < 29
    ensures LEN_BASE[i] + Pow2(LEN_EXTRA[i]) - (if i == 27 then 1 else 0) <= LEN_BASE[j]
    decreases j
  {
    hide Pow2;
    LengthsTile(j - 1);
    if i < j - 1 {
      LengthsApart(i, j - 1);
    }
  }

  lemma {:induction false} DistancesApart(i: nat, j: nat)
    requires i < j < 30
    ensures DIST_BASE[i] + Pow2(DIST_EXTRA[i]) <= DIST_BASE[j]
    decreases j
  {
    hide Pow2;
    DistancesTile(j - 1);
    if i < j - 1 {
      DistancesApart(i, j - 1);
    }
  }

  lemma {:induction false} LengthUpTo(n: nat, m: nat) returns (i: nat, x: nat)
    requires m < 29 && 3 <= n < LEN_BASE[m] + Pow2(LEN_EXTRA[m]) && n <= 258
    ensures GivesLength(i, x, n)
    decreases m
  {
    hide Pow2;
    LengthsTile(m);
    LengthsTile(27);
    if n >= LEN_BASE[m] && !(m == 27 && n == 258) {
      i, x := m, n - LEN_BASE[m];
    } else if n == 258 {
      i, x := 28, 0;
      LengthsTile(28);
      Pow2Small(0);
    } else {
      LengthsTile(m - 1);
      i, x := LengthUpTo(n, m - 1);
    }
  }

  lemma {:induction false} DistanceUpTo(n: nat, m: nat) returns (i: nat, x: nat)
    requires m < 30 && 1 <= n < DIST_BASE[m] + Pow2(DIST_EXTRA[m])
    ensures GivesDistance(i, x, n)
    decreases m
  {
    hide Pow2;
    DistancesTile(m);
    if n >= DIST_BASE[m] {
      i, x := m, n - DIST_BASE[m];
    } else {
      DistancesTile(m - 1);
      i, x := DistanceUpTo(n, m - 1);
    }
  }

  /** Every length from 3 to 258 has exactly one symbol and extra value, and no other
      length has any. */
  lemma LengthOnce(n: nat)
    ensures (exists i, x :: GivesLength(i, x, n)) <==> 3 <= n <= 258
    ensures forall i, x, j, y :: GivesLength(i, x, n) && GivesLength(j, y, n) ==> i == j && x == y
  {
    hide Pow2;
    if 3 <= n <= 258 {
      LengthsTile(28);
      Pow2Small(0);
      var i, x := LengthUpTo(n, 28);
    }
    forall i, x | GivesLength(i, x, n)
      ensures 3 <= n <= 258
    {
      LengthRange(i, x);
    }
    forall i, x, j, y | GivesLength(i, x, n) && GivesLength(j, y, n)
      ensures i == j && x == y
    {
      OneLength(i, x, j, y, n);
      OneLength(j, y, i, x, n);
    }
  }

  lemma OneLength(i: nat, x: nat, j: nat, y: nat, n: nat)
    requires GivesLength(i, x, n) && GivesLength(j, y, n)
    ensures i >= j
  {
    hide Pow2;
    if i < j {
      LengthsApart(i, j);
    }
  }

  /** Every distance from 1 to 32768 does, and no other. */
  lemma DistanceOnce(n: nat)
    ensures (exists i, x :: GivesDistance(i, x, n)) <==> 1 <= n <= 32768
    ensures forall i, x, j, y :: GivesDistance(i, x, n) && GivesDistance(j, y, n) ==> i == j && x == y
  {
    hide Pow2;
    if 1 <= n <= 32768 {
      DistancesTile(29);
      var i, x := DistanceUpTo(n, 29);
    }
    forall i, x | GivesDistance(i, x, n)
      ensures 1 <= n <= 32768
    {
      DistanceRange(i, x);
    }
    forall i, x, j, y | GivesDistance(i, x, n) && GivesDistance(j, y, n)
      ensures i == j && x == y
    {
      OneDistance(i, x, j, y, n);
      OneDistance(j, y, i, x, n);
    }
  }

  lemma OneDistance(i: nat, x: nat, j: nat, y: nat, n: nat)
    requires GivesDistance(i, x, n) && GivesDistance(j, y, n)
    ensures i >= j
  {
    hide Pow2;
    if i < j {
      DistancesApart(i, j);
    }
  }

  // ----- code lengths -----

  /** The lengths of the code length codes come in this order: repetitions, zero, and then
      8 upwards and 7 downwards by turns. */
  lemma OrderIs(i: nat)
    requires i < 19
    ensures Order(i) == if i < 3 then 16 + i
                        else if i == 3 then 0
                        else if i % 2 == 0 then 8 + (i - 4) / 2
                        else 7 - (i - 5) / 2
  {
  }

  /** A code length symbol below 16 is that length.  A repetition of `m` lengths has exactly
      one way to be written, when it has one: of the last length for 3 to 6, and of zero
      for 3 to 10 and, with the other symbol, for 11 to 138. */
  function RunSymbol(zero: bool, m: nat): (r: nat)
  {
    if !zero then 16 else if m <= 10 then 17 else 18
  }

  function RunBits(s: nat): (r: nat)
  {
    if s == 16 then 2 else if s == 17 then 3 else 7
  }

  lemma RunsAre(src: seq<byte>, p: nat, s: nat, acc: seq<nat>, strict: bool)
    requires 16 <= s < 19
    ensures var r := RefLenSym(strict, src, p, s, acc);
            && (r.Lens? <==> p + RunBits(s) <= 8 * |src| && !(strict && s == 16 && acc == []))
            && (r.Lens? ==>
                 var m := |r.lens| - |acc|;
                 && r.p == p + RunBits(s) && RunSymbol(s != 16, m) == s
                 && (if s == 16 then 3 <= m <= 6 else if s == 17 then 3 <= m <= 10 else 11 <= m <= 138)
                 && Peek(src, p, RunBits(s)) == m - (if s == 18 then 11 else 3)
                 && r.lens == acc + Repeat(if s == 16 && acc != [] then acc[|acc| - 1] else 0, m))
  {
    hide Peek, Pow2;
    PeekBound(src, p, RunBits(s));
    Pow2Small(2);
    Pow2Small(3);
    Pow2Small(7);
  }

  // ----- the fixed codes -----

  /** Literals and lengths: eight bits from 00110000, nine from 110010000, seven from
      0000000, and eight from 11000000. */
  lemma FixedLitCodes(s: nat)
    requires s < 288
    ensures FixedLit()[s] == if s < 144 then 8 else if s < 256 then 9 else if s < 280 then 7 else 8
    ensures Code(FixedLit(), s) ==
            if s < 144 then 0x30 + s else if s < 256 then 0x190 + (s - 144) else if s < 280 then s - 256 else 0xc0 + (s - 280)
  {
    hide Count;
    var b := FixedLit();
    forall k: nat
      ensures Count(b, k) == if k == 7 then 24 else if k == 8 then 152 else if k == 9 then 112 else 0
    {
      CodeSets.FixedLitCounts(k);
    }
    FirstNone(b, 7);
    CodeSets.FixedLitPrefix(s, b[s]);
    assert FirstCode(b, 8) == 2 * (FirstCode(b, 7) + Count(b, 7)) == 48;
    assert FirstCode(b, 9) == 2 * (FirstCode(b, 8) + Count(b, 8)) == 400;
  }

  /** Where there is no shorter code the first code is zero. */
  lemma {:induction false} FirstNone(lens: seq<nat>, k: nat)
    requires forall j :: 1 <= j < k ==> Count(lens, j) == 0
    ensures FirstCode(lens, k) == 0
  {
    hide Count;
    if k > 1 {
      FirstNone(lens, k - 1);
    }
  }

  /** Distances: the symbol itself in five bits. */
  lemma FixedDistCodes(s: nat)
    requires s < 30
    ensures FixedDist()[s] == 5 && Code(FixedDist(), s) == s
  {
    hide Count;
    var b := FixedDist();
    forall k: nat
      ensures Count(b, k) == if k == 5 then 30 else 0
    {
      CodeSets.FixedDistPrefix(30, k);
      assert b[..30] == b;
    }
    FirstNone(b, 5);
    CodeSets.FixedDistPrefix(s, 5);
  }
}
