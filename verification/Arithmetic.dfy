/** Facts about products and quotients of numbers. */
module Arithmetic {

  /** One more than the largest number of 64 bits. */
  const WORD := 0x1_0000_0000_0000_0000

  const TWO52: nat := 0x10_0000_0000_0000

  function Pow2(k: nat): (p: nat)
    ensures p > 0
  {
    if k == 0 then 1 else 2 * Pow2(k - 1)
  }

  lemma {:induction false} Pow2Sum(a: nat, b: nat)
    ensures Pow2(a + b) == Pow2(a) * Pow2(b)
  {
    if a > 0 {
      Pow2Sum(a - 1, b);
      assert Pow2(a + b) == 2 * Pow2(a - 1 + b);
    }
  }

  lemma {:induction false} Pow2Monotone(a: nat, b: nat)
    requires a <= b
    ensures Pow2(a) <= Pow2(b)
    decreases b - a
  {
    if a < b {
      Pow2Monotone(a, b - 1);
    }
  }

  /** How often `p` goes into `f`. */
  function Quotient(f: nat, p: nat): (q: nat)
    requires p > 0
    ensures q * p <= f < q * p + p
  {
    if f < p then 0 else 1 + Quotient(f - p, p)
  }

  lemma Divides(m: nat, u: nat)
    requires u > 0
    ensures m == m / u * u + m % u
  {
  }

  lemma DivideUnique(x: nat, u: nat, q: nat, r: nat)
    requires x == q * u + r && r < u
    ensures x / u == q && x % u == r
  {
    Divides(x, u);
    if q < x / u {
      Successors(q, x / u, u);
    } else if x / u < q {
      Successors(x / u, q, u);
    }
  }

  lemma Monotone(a: nat, b: nat, p: nat)
    requires a <= b
    ensures a * p <= b * p
  {
  }

  lemma Successors(a: nat, b: nat, p: nat)
    requires a < b
    ensures a * p + p <= b * p
  {
    Monotone(a + 1, b, p);
    assert (a + 1) * p == a * p + p;
  }

  lemma Regroup(a: nat, b: nat, c: nat)
    ensures a * (b * c) == a * b * c
  {
  }

  lemma Distribute(a: nat, b: nat, c: nat)
    ensures (a + b) * c == a * c + b * c
  {
  }
}
