/** Divisibility facts the correctness argument of the sieve rests on. */
module Primality {

  /** `n` is a prime: at least 2 and no divisor strictly between 1 and `n`. */
  ghost predicate IsPrime(n: nat)
  {
    2 <= n && forall d :: 2 <= d < n ==> n % d != 0
  }

  /** `x` has no divisor in `[2, q]`: it survives filtering by every number
      up to `q` (and so by every prime up to `q`). */
  ghost predicate Rough(x: nat, q: nat)
  {
    forall d :: 2 <= d <= q ==> x % d != 0
  }

  /** `d * a + d <= d * b` when `a < b`. */
  lemma MulStep(d: nat, a: nat, b: nat)
    requires a < b
    ensures d * a + d <= d * b
  {
    assert d * b >= d * (a + 1);
  }

  /** Multiplication by a natural number is monotone. */
  lemma MulMono(d: nat, a: nat, b: nat)
    requires a <= b
    ensures d * a <= d * b
  {
  }

  /** Euclidean division is unique: a decomposition `x == d * q + r` with
      `r < d` gives the remainder. */
  lemma ModUnique(x: nat, d: nat, q: nat, r: nat)
    requires 0 < d && r < d && x == d * q + r
    ensures x % d == r
  {
    var q0, r0 := x / d, x % d;
    assert x == d * q0 + r0;
    if q > q0 {
      MulStep(d, q0, q);
      assert false;
    } else if q < q0 {
      MulStep(d, q, q0);
      assert false;
    }
  }

  /** Every multiple of `a` leaves remainder 0. */
  lemma ModOfMultiple(a: nat, j: nat)
    requires 0 < a
    ensures (a * j) % a == 0
  {
    ModUnique(a * j, a, j, 0);
  }

  /** Divisibility is transitive. */
  lemma DividesTrans(a: nat, b: nat, c: nat)
    requires 0 < a && 0 < b
    requires b % a == 0 && c % b == 0
    ensures c % a == 0
  {
    var k, m := b / a, c / b;
    assert b == a * k;
    assert c == b * m;
    assert c == a * (k * m);
    ModOfMultiple(a, k * m);
  }

  /** A prime above `q` is `q`-rough. */
  lemma PrimeIsRough(x: nat, q: nat)
    requires IsPrime(x) && q < x
    ensures Rough(x, q)
  {
  }

  /** Roughness for a larger bound implies roughness for a smaller one. */
  lemma RoughMono(x: nat, q: nat, q': nat)
    requires Rough(x, q') && q <= q'
    ensures Rough(x, q)
  {
  }

  /** A composite number has a divisor `e` with `e * e <= x`. */
  lemma SmallDivisor(x: nat, d: nat) returns (e: nat)
    requires 2 <= d < x && x % d == 0
    ensures 2 <= e && e * e <= x && x % e == 0
  {
    var k := x / d;
    assert x == d * k;
    if k <= 1 {
      MulMono(d, k, 1);
      assert false;
    }
    if d <= k {
      MulMono(d, d, k);
      e := d;
    } else {
      MulMono(k, k, d);
      ModOfMultiple(k, d);
      e := k;
    }
  }

  /** `e * e < p * p` forces `e < p`. */
  lemma BelowSquare(e: nat, p: nat)
    requires e * e < p * p
    ensures e < p
  {
    if e >= p {
      MulMono(e, p, e);
      MulMono(p, p, e);
      assert false;
    }
  }
}
