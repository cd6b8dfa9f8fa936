/** Remainders of rotations: positions that wrap around. */
module Remainders {

  lemma Distributes(n: int, a: int, b: int)
    ensures n * a - n * b == n * (a - b)
  {
  }

  lemma AtLeastOnce(n: int, d: int)
    requires n > 0 && d >= 1
    ensures n * d >= n
  {
    assert n * d == n * (d - 1) + n;
  }

  lemma QuotientIs(x: int, q: int, r: int, n: int)
    requires n > 0 && 0 <= r < n && x == n * q + r
    ensures x % n == r
  {
    var d := q - x / n;
    assert x % n == r + n * d by {
      assert x == n * (x / n) + x % n;
      Distributes(n, q, x / n);
    }
    Distributes(n, 0, d);
    if d >= 1 {
      AtLeastOnce(n, d);
    } else if d <= -1 {
      AtLeastOnce(n, -d);
    }
  }

  /** The remainder of a number below twice the divisor. */
  lemma SmallRemainder(x: nat, n: nat)
    requires n > 0 && x < 2 * n
    ensures x % n == if x < n then x else x - n
  {
    if x < n {
      QuotientIs(x, 0, x, n);
    } else {
      QuotientIs(x, 1, x - n, n);
    }
  }

  /** (a + i) mod n, for i at most n. */
  lemma ResidueOf(a: nat, i: nat, n: nat)
    requires n > 0 && i <= n
    ensures (a + i) % n == (a % n + i) % n
    ensures a % n + i < n ==> (a + i) % n == a % n + i
    ensures n <= a % n + i < 2 * n ==> (a + i) % n == a % n + i - n
  {
    var q, r := a / n, a % n;
    assert a == n * q + r;
    if r + i < n {
      QuotientIs(a + i, q, r + i, n);
      QuotientIs(r + i, 0, r + i, n);
    } else if r + i < 2 * n {
      assert a + i == n * (q + 1) + (r + i - n);
      QuotientIs(a + i, q + 1, r + i - n, n);
      QuotientIs(r + i, 1, r + i - n, n);
    }
  }

  lemma NextResidue(k: nat, n: nat)
    requires n > 0
    ensures (k % n + 1) % n == (k + 1) % n
  {
    ResidueOf(k, 1, n);
  }
}
