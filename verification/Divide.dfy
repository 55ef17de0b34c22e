/** Division on a processor that has none (lib/divide.S:87-160). */
module Divide {
  import opened Bits

  const W: int := 0x1_0000_0000_0000_0000
  const TOP: int := 0x8000_0000_0000_0000

  /** A 64-bit register. */
  type reg = x: nat | x < 0x1_0000_0000_0000_0000

  function Add(a: reg, b: reg): (r: reg)
  {
    (a + b) % W
  }

  function Sub(a: reg, b: reg): (r: reg)
  {
    (a - b) % W
  }

  lemma AddSmall(a: reg, b: reg)
    requires a + b < W
    ensures Add(a, b) == a + b
  {
  }

  lemma SubSmall(a: reg, b: reg)
    requires b <= a
    ensures Sub(a, b) == a - b
  {
  }

  // ----- unsigned -----

  /** Dividing `n` by `d`: what the loops keep, with `mask` the bit being decided. */
  ghost predicate Split(n: nat, d: nat, divisor: nat, mask: nat, quotient: nat, modulus: nat)
  {
    && divisor == d * mask && n == quotient * d + modulus
  }

  /** Taking the bit: no addition overflows. */
  lemma SplitTake(n: nat, d: nat, divisor: nat, mask: nat, quotient: nat, modulus: nat)
    requires d > 0 && Split(n, d, divisor, mask, quotient, modulus) && divisor <= modulus
    ensures Split(n, d, divisor, mask, quotient + mask, modulus - divisor) && quotient + mask <= n
  {
    MulDist(quotient, mask, d);
    MulMono(quotient + mask, 1, d);
  }

  lemma SplitDouble(n: nat, d: nat, divisor: nat, mask: nat, quotient: nat, modulus: nat)
    requires Split(n, d, divisor, mask, quotient, modulus)
    ensures Split(n, d, 2 * divisor, 2 * mask, quotient, modulus)
  {
  }

  lemma SplitHalve(n: nat, d: nat, divisor: nat, mask: nat, quotient: nat, modulus: nat)
    requires Split(n, d, divisor, mask, quotient, modulus) && mask % 2 == 0
    ensures Split(n, d, divisor / 2, mask / 2, quotient, modulus)
  {
    assert divisor == 2 * (d * (mask / 2));
  }

  ghost predicate Finished(n: nat, d: nat, quotient: nat, modulus: nat)
  {
    n == quotient * d + modulus && modulus < d
  }

  lemma FinishedIs(n: nat, d: nat, quotient: nat, modulus: nat)
    requires Finished(n, d, quotient, modulus)
    ensures quotient == n / d && modulus == n % d && quotient <= n
  {
    DivUnique(n, d, quotient, modulus);
    MulMono(quotient, 1, d);
  }

  lemma MaskSmall(n: nat, d: nat, divisor: nat, mask: nat, quotient: nat, modulus: nat)
    requires d > 0 && Split(n, d, divisor, mask, quotient, modulus)
    ensures mask <= divisor
  {
    MulMono(mask, 1, d);
  }

  /** `ufunction`: quotient and remainder; dividing by zero gives 0 and the dividend. */
  method Unsigned(n: reg, d: reg) returns (quotient: reg, modulus: reg)
    ensures d == 0 ==> quotient == 0 && modulus == n
    ensures d != 0 ==> quotient == n / d && modulus == n % d
  {
    hide Finished, Split, Pow2;
    quotient, modulus := 0, n;
    if d != 0 {
      var divisor: reg, mask: reg, straight: bool;
      ghost var k: nat;
      divisor, mask, straight, k := GoLeft(n, d);
      quotient, modulus := GoRight(n, d, divisor, mask, straight, k);
      FinishedIs(n, d, quotient, modulus);
    }
  }

  /** What holds at label 2, or at label 3 if `straight`. */
  ghost predicate Deciding(n: nat, d: nat, divisor: nat, mask: nat, k: nat, quotient: nat, modulus: nat, straight: bool)
  {
    if mask == 0 then !straight && Finished(n, d, quotient, modulus)
    else mask == Pow2(k) && Split(n, d, divisor, mask, quotient, modulus) && modulus < if straight then 2 * divisor else divisor
  }

  /** Lines 109-117: bit after bit of the quotient. */
  method GoRight(n: reg, d: reg, divisor0: reg, mask0: reg, straight0: bool, ghost k0: nat) returns (quotient: reg, modulus: reg)
    requires d > 0 && mask0 > 0 && Deciding(n, d, divisor0, mask0, k0, 0, n, straight0)
    ensures Finished(n, d, quotient, modulus)
  {
    hide Deciding, Add, Sub, Pow2, Finished, Split;
    quotient, modulus := 0, n;
    var divisor: reg, mask: reg, straight := divisor0, mask0, straight0;
    ghost var k: nat := k0;
    while true
      invariant Deciding(n, d, divisor, mask, k, quotient, modulus, straight)
      invariant straight ==> mask > 0
      decreases mask, straight
    {
      if !straight {
        if mask == 0 {
          DecidedAll(n, d, divisor, mask, k, quotient, modulus);
          return;
        }
        Halve(n, d, divisor, mask, k, quotient, modulus);
        divisor, mask := divisor / 2, mask / 2;
        k := if k > 0 then k - 1 else 0;
      }
      straight := false;
      Decide(n, d, divisor, mask, k, quotient, modulus);
      if divisor <= modulus {
        quotient := Add(quotient, mask);
        if mask == 0 {
          return;
        }
        modulus := Sub(modulus, divisor);
      }
    }
  }

  lemma DecidedAll(n: nat, d: nat, divisor: nat, mask: nat, k: nat, quotient: nat, modulus: nat)
    requires Deciding(n, d, divisor, mask, k, quotient, modulus, false) && mask == 0
    ensures Finished(n, d, quotient, modulus)
  {
  }

  /** The two shifts at label 2; at label 3 the remainder is below twice the divisor,
      or all bits are decided. */
  ghost predicate Comparing(n: nat, d: nat, divisor: nat, mask: nat, k: nat, quotient: nat, modulus: nat)
  {
    if mask == 0 then Finished(n, d, quotient, modulus)
    else Deciding(n, d, divisor, mask, k, quotient, modulus, true)
  }

  lemma Halve(n: nat, d: nat, divisor: nat, mask: nat, k: nat, quotient: nat, modulus: nat)
    requires Deciding(n, d, divisor, mask, k, quotient, modulus, false) && mask > 0
    ensures Comparing(n, d, divisor / 2, mask / 2, if k > 0 then k - 1 else 0, quotient, modulus)
  {
    hide Split, Finished, Pow2;
    HalfMask(k);
    PowZero();
    if k > 0 {
      SplitHalve(n, d, divisor, mask, quotient, modulus);
      EvenDivisor(n, d, divisor, mask, quotient, modulus);
    } else {
      SplitOne(n, d, divisor, mask, quotient, modulus);
    }
  }

  lemma EvenDivisor(n: nat, d: nat, divisor: nat, mask: nat, quotient: nat, modulus: nat)
    requires Split(n, d, divisor, mask, quotient, modulus) && mask % 2 == 0
    ensures divisor == 2 * (divisor / 2)
  {
    assert divisor == 2 * (d * (mask / 2));
  }

  /** The comparison at label 3 and what follows it. */
  lemma Decide(n: reg, d: reg, divisor: reg, mask: reg, k: nat, quotient: reg, modulus: reg)
    requires d > 0 && Comparing(n, d, divisor, mask, k, quotient, modulus)
    ensures divisor > modulus ==> Deciding(n, d, divisor, mask, k, quotient, modulus, false)
    ensures divisor <= modulus && mask == 0 ==> Finished(n, d, Add(quotient, mask), modulus)
    ensures divisor <= modulus && mask > 0 ==> Deciding(n, d, divisor, mask, k, Add(quotient, mask), Sub(modulus, divisor), false)
  {
    hide Split, Finished, Pow2, Add, Sub;
    if divisor <= modulus {
      if mask == 0 {
        FinishedIs(n, d, quotient, modulus);
        AddSmall(quotient, mask);
      } else {
        SplitTake(n, d, divisor, mask, quotient, modulus);
        AddSmall(quotient, mask);
        SubSmall(modulus, divisor);
      }
    }
  }

  lemma HalfMask(k: nat)
    ensures Pow2(k) / 2 == if k > 0 then Pow2(k - 1) else 0
    ensures k > 0 ==> Pow2(k) % 2 == 0
  {
  }

  lemma SplitOne(n: nat, d: nat, divisor: nat, mask: nat, quotient: nat, modulus: nat)
    requires Split(n, d, divisor, mask, quotient, modulus) && mask == 1 && modulus < divisor
    ensures Finished(n, d, quotient, modulus)
  {
  }

  /** Lines 101-106: shift the divisor left until it is not below the dividend, or its
      top bit is set. */
  method GoLeft(n: reg, d: reg) returns (divisor: reg, mask: reg, straight: bool, ghost k: nat)
    requires d > 0
    ensures mask > 0 && Deciding(n, d, divisor, mask, k, 0, n, straight)
  {
    hide Pow2, Add, Split;
    divisor, mask, k := d, 1, 0;
    SplitStart(n, d);
    PowZero();
    while true
      invariant mask == Pow2(k) && 0 < divisor
      invariant Split(n, d, divisor, mask, 0, n)
      decreases W - divisor
    {
      var compare := divisor < n;
      if divisor >= TOP {
        return divisor, mask, true, k;
      }
      MaskSmall(n, d, divisor, mask, 0, n);
      SplitDouble(n, d, divisor, mask, 0, n);
      PowDouble(k);
      AddSmall(divisor, divisor);
      AddSmall(mask, mask);
      divisor, mask, k := Add(divisor, divisor), Add(mask, mask), k + 1;
      if !compare {
        return divisor, mask, false, k;
      }
    }
  }

  lemma SplitStart(n: nat, d: nat)
    ensures Split(n, d, d, 1, 0, n)
  {
  }

  lemma PowZero()
    ensures Pow2(0) == 1
  {
  }

  lemma PowDouble(k: nat)
    ensures Pow2(k + 1) == 2 * Pow2(k)
  {
  }

  // ----- signed -----

  /** A register read as a signed number. */
  function Signed(x: reg): (r: int)
    ensures -TOP <= r < TOP
    ensures r < 0 <==> x >= TOP
  {
    if x < TOP then x else x - W
  }

  function Abs(a: int): (r: nat)
  {
    if a < 0 then -a else a
  }

  /** Division that drops the fraction, and what it leaves. */
  function Trunc(a: int, b: int): (r: int)
    requires b != 0
  {
    if (a < 0) == (b < 0) then Abs(a) / Abs(b) else -(Abs(a) / Abs(b))
  }

  function Rest(a: int, b: int): (r: int)
    requires b != 0
  {
    if a < 0 then -(Abs(a) % Abs(b)) else Abs(a) % Abs(b)
  }

  lemma TruncRest(a: int, b: int)
    requires b != 0
    ensures Trunc(a, b) * b + Rest(a, b) == a && Abs(Rest(a, b)) < Abs(b)
  {
    var q, r := Abs(a) / Abs(b), Abs(a) % Abs(b);
    assert Abs(a) == Abs(b) * q + r;
    MulSigns(q, b);
  }

  lemma MulSigns(q: int, b: int)
    ensures (-q) * b == -(q * b) == q * (-b)
  {
  }

  /** `subq $31,x`: the negative, in 64 bits. */
  function Neg(x: reg): (r: reg)
    ensures r == if x == 0 then 0 else W - x
  {
    Sub(0, x)
  }

  /** A register that stands for a number modulo 2^64. */
  ghost predicate Stands(x: reg, a: int)
  {
    exists k: int :: a == x + k * W
  }

  lemma StandsFor(x: reg, a: int, k: int)
    requires a == x + k * W
    ensures Stands(x, a)
  {
  }

  lemma SignedStands(x: reg)
    ensures Stands(x, Signed(x))
  {
    StandsFor(x, Signed(x), if x < TOP then 0 else -1);
  }

  lemma NegStands(x: reg, a: int)
    requires a == x
    ensures Stands(Neg(x), -a)
  {
    StandsFor(Neg(x), -a, if x == 0 then 0 else -1);
  }

  /** `sfunction`: divide the magnitudes, then set the sign: that of the quotient by
      both operands, that of the remainder by the dividend. */
  method DivideSigned(x: reg, y: reg) returns (q: reg, m: reg)
    ensures y != 0 ==> Stands(q, Trunc(Signed(x), Signed(y))) && Stands(m, Rest(Signed(x), Signed(y)))
    ensures y == 0 ==> Stands(m, Signed(x)) && q == 0
  {
    hide Stands;
    var a, b := Signed(x), Signed(y);
    var ax: reg, ay: reg := x, y;
    if x >= TOP {
      ax := Neg(x);
    }
    if y >= TOP {
      ay := Neg(y);
    }
    q, m := Unsigned(ax, ay);
    StandsFor(q, q, 0);
    StandsFor(m, m, 0);
    NegStands(q, q);
    NegStands(m, m);
    if (x >= TOP) != (y >= TOP) {
      q := Neg(q);
    }
    if x >= TOP {
      m := Neg(m);
    }
  }

  /** The quotient fits except for the one division that overflows. */
  lemma QuotientFits(x: reg, y: reg, q: reg)
    requires y != 0 && Stands(q, Trunc(Signed(x), Signed(y)))
    ensures Signed(q) == Trunc(Signed(x), Signed(y)) <==> !(x == TOP && y == W - 1)
  {
    var t := Trunc(Signed(x), Signed(y));
    QuotientRange(Signed(x), Signed(y));
    var k: int :| t == q + k * W;
    if -TOP <= t < TOP {
      assert t - Signed(q) == (if q < TOP then k else k + 1) * W;
    }
  }

  lemma QuotientRange(a: int, b: int)
    requires -TOP <= a < TOP && b != 0
    ensures -TOP <= Trunc(a, b) <= TOP
    ensures Trunc(a, b) == TOP <==> a == -TOP && b == -1
  {
    QuotientSmall(Abs(a), Abs(b));
  }

  lemma QuotientSmall(a: nat, b: nat)
    requires b > 0
    ensures a / b <= a && (b == 1 ==> a / b == a) && (b > 1 ==> 2 * (a / b) <= a)
  {
    var q := a / b;
    assert a == b * q + a % b;
    MulMono(q, 1, b);
    if b > 1 {
      MulMono(q, 2, b);
    }
  }

  /** What the comment in the source asks for, in 64-bit arithmetic and for all operands. */
  lemma DivisionLaw(x: reg, y: reg, q: reg, m: reg)
    requires y != 0 && Stands(q, Trunc(Signed(x), Signed(y))) && Stands(m, Rest(Signed(x), Signed(y)))
    ensures (q * y + m) % W == x
  {
    var a, b := Signed(x), Signed(y);
    TruncRest(a, b);
    SignedStands(x);
    SignedStands(y);
    var i: int :| Trunc(a, b) == q + i * W;
    var j: int :| Rest(a, b) == m + j * W;
    var k: int :| b == y + k * W;
    var l: int :| a == x + l * W;
    LawStep(q, y, m, x, i, j, k, l);
  }

  lemma LawStep(q: int, y: int, m: int, x: reg, i: int, j: int, k: int, l: int)
    requires (q + i * W) * (y + k * W) + (m + j * W) == x + l * W
    ensures (q * y + m) % W == x
  {
    Expand(q, y, i, k);
    var c := l - j - (q * k + i * y + i * k * W);
    assert q * y + m == x + c * W by {
      Collect(q * y, m, x, l, j, q * k + i * y + i * k * W);
    }
    assert (x + c * W) % W == x % W;
  }

  lemma Expand(q: int, y: int, i: int, k: int)
    ensures (q + i * W) * (y + k * W) == q * y + (q * k + i * y + i * k * W) * W
  {
  }

  lemma Collect(p: int, m: int, x: int, l: int, j: int, e: int)
    requires p + e * W + (m + j * W) == x + l * W
    ensures p + m == x + (l - j - e) * W
  {
  }
}
