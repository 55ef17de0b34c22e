/** Powers of two, binary digits of natural numbers, and bit reversal.

    Machine words are natural numbers here: `x >> n` is `Shr(x, n)`,
    `x & (2^n - 1)` is `Low(x, n)`, and bit `n` of `x` is `Bit(x, n)`. */
module Bits {

  function Pow2(n: nat): (r: nat)
    ensures r > 0
  {
    if n == 0 then 1 else 2 * Pow2(n - 1)
  }

  // ----- products and blocks -----

  lemma MulMono(a: nat, x: nat, y: nat)
    requires x <= y
    ensures a * x <= a * y
  {
  }

  lemma MulDist(a: int, b: int, u: int)
    ensures (a + b) * u == a * u + b * u
  {
  }

  lemma MulDouble(a: int, u: int)
    ensures (2 * a) * u == a * (2 * u) == 2 * (a * u)
  {
  }

  lemma MulCancel(a: nat, b: nat, u: nat)
    requires u > 0 && a * u <= b * u
    ensures a <= b
  {
    if b < a {
      MulMono(u, b + 1, a);
      MulDist(b, 1, u);
    }
  }

  lemma MulAssoc(a: nat, b: nat, c: nat)
    ensures a * (b * c) == (a * b) * c
  {
  }

  /** Quotient and remainder are unique. */
  lemma DivUnique(x: nat, a: nat, q: nat, r: nat)
    requires a > 0 && r < a && x == a * q + r
    ensures x / a == q && x % a == r
  {
    var q', r' := x / a, x % a;
    assert x == a * q' + r';
    if q' < q {
      MulMono(a, q' + 1, q);
    } else if q < q' {
      MulMono(a, q + 1, q');
    }
  }

  /** `p / u` is `c` exactly on the block of `u` numbers that starts at `c * u`. */
  lemma BlockDiv(p: nat, u: nat, c: nat)
    requires u > 0
    ensures p / u == c <==> c * u <= p < c * u + u
  {
    assert p == u * (p / u) + p % u;
    if c * u <= p < c * u + u {
      DivUnique(p, u, c, p - c * u);
    }
  }

  /** `n` blocks of `u` numbers starting at `c`: a number in block `m`. */
  lemma InBlock(c: nat, u: nat, n: nat, m: nat, p: nat)
    requires u > 0 && m < n && c + m * u <= p < c + m * u + u
    ensures c <= p < c + n * u && (p - c) / u == m
  {
    MulDist(m, 1, u);
    MulMono(u, m + 1, n);
    BlockDiv(p - c, u, m);
  }

  /** Conversely, a number in the blocks is in the one its offset divides into. */
  lemma BlockOf(c: nat, u: nat, n: nat, p: nat)
    requires u > 0 && c <= p < c + n * u
    ensures var m := (p - c) / u; 0 <= m < n && c + m * u <= p < c + m * u + u
  {
    var m := (p - c) / u;
    BlockDiv(p - c, u, m);
    if m >= n {
      MulMono(u, n, m);
    }
  }

  // ----- powers of two -----

  lemma {:induction false} Pow2Add(a: nat, b: nat)
    ensures Pow2(a + b) == Pow2(a) * Pow2(b)
  {
    if b > 0 {
      Pow2Add(a, b - 1);
      assert Pow2(a + b) == 2 * Pow2(a + (b - 1));
      MulDouble(Pow2(a), Pow2(b - 1));
    }
  }

  lemma {:induction false} Pow2Mono(a: nat, b: nat)
    requires a <= b
    ensures Pow2(a) <= Pow2(b)
  {
    if a < b {
      Pow2Mono(a, b - 1);
    }
  }

  // ----- low bits and shifts -----

  function Low(x: nat, n: nat): (r: nat)
  {
    if n == 0 then 0 else x % 2 + 2 * Low(x / 2, n - 1)
  }

  function Shr(x: nat, n: nat): (r: nat)
  {
    if n == 0 then x else Shr(x / 2, n - 1)
  }

  function Bit(x: nat, n: nat): (r: nat)
    ensures r < 2
  {
    Shr(x, n) % 2
  }

  lemma {:induction false} LowBound(x: nat, n: nat)
    ensures Low(x, n) < Pow2(n)
  {
    if n > 0 {
      LowBound(x / 2, n - 1);
    }
  }

  /** A number is its low bits and what is above them. */
  lemma {:induction false} LowShr(x: nat, n: nat)
    ensures x == Low(x, n) + Shr(x, n) * Pow2(n)
  {
    if n > 0 {
      LowShr(x / 2, n - 1);
      MulDouble(Shr(x, n), Pow2(n - 1));
    }
  }

  lemma {:induction false} LowSmall(x: nat, n: nat)
    requires x < Pow2(n)
    ensures Low(x, n) == x && Shr(x, n) == 0
  {
    if n > 0 {
      LowSmall(x / 2, n - 1);
    }
  }

  lemma {:induction false} LowLow(x: nat, a: nat, n: nat)
    requires a <= n
    ensures Low(Low(x, n), a) == Low(x, a)
  {
    if a > 0 {
      LowLow(x / 2, a - 1, n - 1);
    }
  }

  lemma {:induction false} ShrShr(x: nat, a: nat, b: nat)
    ensures Shr(x, a + b) == Shr(Shr(x, a), b)
  {
    if a > 0 {
      ShrShr(x / 2, a - 1, b);
    }
  }

  /** A field of `b` bits above bit `a`. */
  lemma {:induction false} ShrLow(x: nat, a: nat, b: nat)
    ensures Shr(Low(x, a + b), a) == Low(Shr(x, a), b)
  {
    if a > 0 {
      ShrLow(x / 2, a - 1, b);
    }
  }

  lemma {:induction false} ShrBound(x: nat, a: nat, b: nat)
    requires x < Pow2(a + b)
    ensures Shr(x, a) < Pow2(b)
  {
    if a > 0 {
      ShrBound(x / 2, a - 1, b);
    }
  }

  /** A number with `n + 1` bits is its low `n` bits plus its top bit. */
  lemma {:induction false} LowSucc(x: nat, n: nat)
    ensures Low(x, n + 1) == Low(x, n) + Bit(x, n) * Pow2(n)
  {
    if n > 0 {
      LowSucc(x / 2, n - 1);
    }
  }

  lemma BitOfLow(x: nat, t: nat, n: nat)
    requires t < n
    ensures Bit(Low(x, n), t) == Bit(x, t)
  {
    ShrLow(x, t, n - t);
  }

  lemma BitOfSmall(x: nat, t: nat)
    requires x < Pow2(t)
    ensures Bit(x, t) == 0
  {
    LowSmall(x, t);
  }

  lemma BitOfShr(x: nat, a: nat, t: nat)
    ensures Bit(Shr(x, a), t) == Bit(x, a + t)
  {
    ShrShr(x, a, t);
  }

  /** Putting a number above `n` low bits. */
  lemma {:induction false} LowJoin(a: nat, y: nat, n: nat)
    requires a < Pow2(n)
    ensures Low(a + y * Pow2(n), n) == a && Shr(a + y * Pow2(n), n) == y
  {
    if n > 0 {
      MulDouble(y, Pow2(n - 1));
      assert (a + y * Pow2(n)) / 2 == a / 2 + y * Pow2(n - 1);
      assert (a + y * Pow2(n)) % 2 == a % 2;
      LowJoin(a / 2, y, n - 1);
    }
  }

  // ----- bit reversal -----

  /** The low `n` bits of `v`, bit 0 first, read as a number whose first bit is
      the most significant one. */
  function Rev(n: nat, v: nat): (r: nat)
  {
    if n == 0 then 0 else 2 * Rev(n - 1, v) + Bit(v, n - 1)
  }

  lemma {:induction false} RevBound(n: nat, v: nat)
    ensures Rev(n, v) < Pow2(n)
  {
    if n > 0 {
      RevBound(n - 1, v);
    }
  }

  lemma {:induction false} RevLow(n: nat, v: nat, m: nat)
    requires n <= m
    ensures Rev(n, Low(v, m)) == Rev(n, v)
  {
    if n > 0 {
      RevLow(n - 1, v, m);
      BitOfLow(v, n - 1, m);
    }
  }

  /** Reading fewer bits drops the low digits of the reversed value. */
  lemma {:induction false} RevPrefix(k: nat, n: nat, v: nat)
    requires k <= n
    ensures Rev(k, v) * Pow2(n - k) <= Rev(n, v) < Rev(k, v) * Pow2(n - k) + Pow2(n - k)
  {
    if k < n {
      RevPrefix(k, n - 1, v);
      MulDouble(Rev(k, v), Pow2(n - 1 - k));
    }
  }

  /** Reading zero bits past the end of a short number appends zero digits. */
  lemma {:induction false} RevShort(k: nat, n: nat, v: nat)
    requires k <= n && v < Pow2(k)
    ensures Rev(n, v) == Rev(k, v) * Pow2(n - k)
  {
    if k < n {
      RevShort(k, n - 1, v);
      Pow2Mono(k, n - 1);
      BitOfSmall(v, n - 1);
      MulDouble(Rev(k, v), Pow2(n - 1 - k));
    }
  }

  lemma {:induction false} RevInjective(n: nat, a: nat, b: nat)
    requires Rev(n, a) == Rev(n, b)
    ensures Low(a, n) == Low(b, n)
  {
    if n > 0 {
      RevInjective(n - 1, a, b);
      LowSucc(a, n - 1);
      LowSucc(b, n - 1);
    }
  }

  lemma RevSame(k: nat, i: nat, v: nat)
    requires i < Pow2(k)
    ensures Low(v, k) == i <==> Rev(k, v) == Rev(k, i)
  {
    RevLow(k, v, k);
    LowSmall(i, k);
    if Rev(k, v) == Rev(k, i) {
      RevInjective(k, v, i);
    }
  }

  /** `v` starts with the `k` bits of `i` exactly when its reversed value lies in
      the block of `2^(n-k)` values that starts at the reversed value of `i`. */
  lemma RevBlock(k: nat, n: nat, i: nat, v: nat)
    requires k <= n && i < Pow2(k)
    ensures Low(v, k) == i <==> Rev(n, i) <= Rev(n, v) < Rev(n, i) + Pow2(n - k)
  {
    RevShort(k, n, i);
    RevPrefix(k, n, v);
    RevSame(k, i, v);
    BlockDiv(Rev(n, v), Pow2(n - k), Rev(k, i));
    BlockDiv(Rev(n, v), Pow2(n - k), Rev(k, v));
  }

  // ----- 32-bit products -----

  /** The value of a 32-bit `int` computed without regard to overflow. */
  function Wrap32(x: int): (r: int)
    ensures -0x8000_0000 <= r < 0x8000_0000
  {
    var y := x % 0x1_0000_0000;
    if y < 0x8000_0000 then y else y - 0x1_0000_0000
  }

  lemma WrapSmall(x: int)
    ensures Wrap32(x) == x <==> -0x8000_0000 <= x < 0x8000_0000
  {
  }

  lemma WrapShift(x: int, k: int)
    ensures Wrap32(x + k * 0x1_0000_0000) == Wrap32(x)
  {
    assert (x + k * 0x1_0000_0000) % 0x1_0000_0000 == x % 0x1_0000_0000;
  }

  /** Wrapping at each product is wrapping at the end. */
  lemma WrapMul(x: int, n: nat)
    ensures Wrap32(Wrap32(x) * n) == Wrap32(x * n)
  {
    var k := (x - Wrap32(x)) / 0x1_0000_0000;
    assert x == Wrap32(x) + k * 0x1_0000_0000;
    MulOut(Wrap32(x), k, n);
    WrapShift(Wrap32(x) * n, k * n);
  }

  lemma MulOut(a: int, k: int, n: int)
    ensures (a + k * 0x1_0000_0000) * n == a * n + (k * n) * 0x1_0000_0000
  {
  }
}
