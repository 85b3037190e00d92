/** Primality, as the prime iterator's trial-division test decides it. */
module Primality {

  /** d divides n. */
  predicate Divides(d: int, n: int)
    requires d > 0
  {
    n % d == 0
  }

  /** n is prime: it is at least 2 and no number strictly between 1 and n divides it. */
  ghost predicate Prime(n: int) {
    n >= 2 && forall d :: 1 < d < n ==> !Divides(d, n)
  }

  /** Trial division passes for every candidate in [2, bound]. */
  ghost predicate NoDivisorUpTo(n: int, bound: int) {
    forall d :: 1 < d <= bound ==> !Divides(d, n)
  }

  // The four lemmas below spell out the arithmetic behind HalfBoundSuffices. The solver can find
  // that proof unaided, but not reliably; they keep it explicit and cheap.

  /** Multiplying by a non-negative factor keeps the order. */
  lemma MulMonotonic(a: int, b: int, c: int)
    requires a <= b && c >= 0
    ensures a * c <= b * c
  {
  }

  /** When d divides n, n is d times the quotient. */
  lemma QuotientTimesDivisor(n: int, d: int)
    requires d > 0 && Divides(d, n)
    ensures n == d * (n / d)
  {
  }

  /** A multiple of k leaves remainder 0, by uniqueness of Euclidean division. */
  lemma MultipleIsDivisible(n: int, k: int, q: int)
    requires k > 0 && n == k * q
    ensures Divides(k, n)
  {
    var m, r := n / k, n % k;
    assert n == k * m + r;
    var t := q - m;
    assert k * t == r;
    if t >= 1 {
      MulMonotonic(1, t, k);
    } else if t <= -1 {
      MulMonotonic(t, -1, k);
    }
  }

  /** A divisor d of n with 1 < d < n has a cofactor n / d that is itself a divisor in [2, n / 2]. */
  lemma CofactorIsSmallDivisor(n: int, d: int)
    requires 1 < d < n && Divides(d, n)
    ensures 1 < n / d <= n / 2 && Divides(n / d, n)
  {
    var k := n / d;
    QuotientTimesDivisor(n, d);
    if k <= 0 {
      MulMonotonic(k, 0, d);
      assert false;
    }
    assert k != 1;
    MulMonotonic(2, d, k);
    MultipleIsDivisible(n, k, d);
  }

  /** Trying divisors only up to n / 2 decides primality: the bound the source's loop uses is enough. */
  lemma HalfBoundSuffices(n: int)
    requires n >= 2
    ensures Prime(n) <==> NoDivisorUpTo(n, n / 2)
  {
    if NoDivisorUpTo(n, n / 2) {
      forall d | 1 < d < n
        ensures !Divides(d, n)
      {
        if Divides(d, n) {
          CofactorIsSmallDivisor(n, d);
        }
      }
    }
  }
}
