/** Powers of two and the small facts about products the other modules share. */
module Arithmetic {

  const TWO_32: nat := 0x1_0000_0000
  const TWO_64: nat := 0x1_0000_0000_0000_0000

  function Pow2(e: nat): (p: nat)
    ensures p >= 1
  {
    if e == 0 then 1 else 2 * Pow2(e - 1)
  }

  lemma {:induction false} Pow2Add(a: nat, b: nat)
    ensures Pow2(a + b) == Pow2(a) * Pow2(b)
  {
    if a == 0 {
    } else {
      Pow2Add(a - 1, b);
    }
  }

  lemma {:induction false} Pow2Monotone(a: nat, b: nat)
    requires a <= b
    ensures Pow2(a) <= Pow2(b)
    decreases b - a
  {
    if a != b {
      Pow2Monotone(a, b - 1);
    }
  }

  lemma SixtyFourBits(w: nat)
    requires w == 64
    ensures Pow2(w) == TWO_64
  {
    hide Pow2;
    var e: nat := w / 64;
    PowOne(e);
    PowSquare(e, 2);
    PowSquare(2 * e, 4);
    PowSquare(4 * e, 16);
    PowSquare(8 * e, 256);
    PowSquare(16 * e, 65536);
    PowSquare(32 * e, TWO_32);
  }

  lemma PowOne(e: nat)
    requires e == 1
    ensures Pow2(e) == 2
  {
  }

  lemma {:induction false} PowSquare(e: nat, v: nat)
    requires Pow2(e) == v
    ensures Pow2(2 * e) == v * v
  {
    Pow2Add(e, e);
  }

  function Min(x: nat, y: nat): nat { if x <= y then x else y }

  function Max(x: nat, y: nat): nat { if x >= y then x else y }

  function Sum(ns: seq<nat>): nat {
    if |ns| == 0 then 0 else Sum(ns[..|ns| - 1]) + ns[|ns| - 1]
  }

  lemma SumNext(ns: seq<nat>, n: nat)
    ensures Sum(ns + [n]) == Sum(ns) + n
  {
    assert (ns + [n])[..|ns|] == ns;
  }

  lemma MulMonotone(x: nat, y: nat, k: nat)
    requires x <= y
    ensures x * k <= y * k
  {
  }

  /** Quotient and remainder are the only ones that fit. */
  lemma {:induction false} DivModUnique(a: nat, m: nat, q: nat, r: nat)
    requires m > 0 && a == q * m + r && r < m
    ensures a / m == q && a % m == r
  {
    var d := a / m;
    assert a == d * m + a % m;
    if d < q {
      MulMonotone(d + 1, q, m);
    } else if q < d {
      MulMonotone(q + 1, d, m);
    }
  }

  /** Arithmetic modulo 2^64. */
  lemma {:induction false} ModMul(a: int, k: nat)
    ensures a % TWO_64 * k % TWO_64 == a * k % TWO_64
  {
    var q := a / TWO_64;
    assert a == q * TWO_64 + a % TWO_64;
    MulAssoc(q, TWO_64, k);
    assert a * k == (q * k) * TWO_64 + a % TWO_64 * k;
    ModShift(a % TWO_64 * k, q * k);
  }

  lemma MulAssoc(q: int, m: int, k: int)
    ensures q * m * k == (q * k) * m
  {
  }

  lemma ModShift(x: int, q: int)
    ensures (q * TWO_64 + x) % TWO_64 == x % TWO_64
  {
  }

  lemma ModAdd(a: int, b: int)
    ensures (a % TWO_64 + b % TWO_64) % TWO_64 == (a + b) % TWO_64
    ensures (a % TWO_64 + b) % TWO_64 == (a + b) % TWO_64
  {
  }

  /** The exponent of the largest power of two up to `n`. */
  function Log2(n: nat): (e: nat)
    requires n >= 1
    ensures Pow2(e) <= n < Pow2(e + 1)
  {
    if n == 1 then 0 else 1 + Log2(n / 2)
  }

  lemma Log2Unique(n: nat, e: nat)
    requires n >= 1 && Pow2(e) <= n < Pow2(e + 1)
    ensures Log2(n) == e
  {
    if e < Log2(n) {
      Pow2Monotone(e + 1, Log2(n));
    } else if Log2(n) < e {
      Pow2Monotone(Log2(n) + 1, e);
    }
  }

  predicate IsPowerOfTwo(n: nat) {
    n >= 1 && n == Pow2(Log2(n))
  }
}
