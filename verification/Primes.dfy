/** Divisibility and primality, as far as the permutation walks of the lookup table need them. */
module Primes {

  predicate Divides(d: nat, n: nat)
    requires 0 < d
  {
    n % d == 0
  }

  ghost predicate IsPrime(m: nat) {
    && 2 <= m
    && forall d :: 2 <= d < m ==> !Divides(d, m)
  }

  lemma MultipleModZero(k: int, m: nat)
    requires 0 < m
    ensures (m * k) % m == 0
  {
    var q, r := (m * k) / m, (m * k) % m;
    assert m * (k - q) == r;
    if k - q >= 1 {
      MulGrows(m, k - q);
      assert false;
    } else if k - q <= -1 {
      MulGrows(m, q - k);
      assert false;
    }
  }

  lemma MulGrows(m: nat, k: nat)
    requires 1 <= k
    ensures m <= m * k
  {
  }

  lemma DivModUnique(x: nat, n: nat, q: nat, r: nat)
    requires r < n && x == n * q + r
    ensures x % n == r && x / n == q
  {
    var q', r' := x / n, x % n;
    assert n * (q - q') == r' - r;
    if q - q' >= 1 {
      MulGrows(n, q - q');
      assert false;
    } else if q' - q >= 1 {
      MulGrows(n, q' - q);
      assert false;
    }
  }

  /** Whose turn t is when n entries take turns. */
  function TurnIndex(t: nat, n: nat): (i: nat)
    requires 0 < n
    ensures i < n
  {
    t % n
  }

  /** Congruent numbers differ by a multiple of the modulus. */
  lemma CongruentDifference(x: nat, y: nat, m: nat)
    requires 0 < m && x <= y && x % m == y % m
    ensures (y - x) % m == 0
  {
    var k := y / m - x / m;
    assert y - x == m * k;
    MultipleModZero(k, m);
  }

  /** Euclid's lemma, by descent on b: a common multiple of b and m passes to m % b. */
  lemma {:induction false} EuclidLemma(a: nat, b: nat, m: nat)
    requires IsPrime(m) && 0 < b < m
    requires (a * b) % m == 0
    ensures a % m == 0
    decreases b
  {
    if b > 1 {
      var q, r, k := m / b, m % b, (a * b) / m;
      assert !Divides(b, m);
      assert m == b * q + r;
      assert a * b == m * k;
      assert a * r == m * (a - q * k) by {
        assert a * r == a * m - a * (b * q);
        assert a * (b * q) == (a * b) * q;
        assert (m * k) * q == m * (k * q);
        assert a * m == m * a;
        assert m * a - m * (q * k) == m * (a - q * k);
      }
      MultipleModZero(a - q * k, m);
      EuclidLemma(a, r, m);
    }
  }

  /** None of the eight numbers from d divides n. */
  predicate NoDivisor8(d: nat, n: nat)
    requires 0 < d
  {
    && !Divides(d, n) && !Divides(d + 1, n) && !Divides(d + 2, n) && !Divides(d + 3, n)
    && !Divides(d + 4, n) && !Divides(d + 5, n) && !Divides(d + 6, n) && !Divides(d + 7, n)
  }

  predicate NoDivisor64(d: nat, n: nat)
    requires 0 < d
  {
    && NoDivisor8(d, n) && NoDivisor8(d + 8, n) && NoDivisor8(d + 16, n) && NoDivisor8(d + 24, n)
    && NoDivisor8(d + 32, n) && NoDivisor8(d + 40, n) && NoDivisor8(d + 48, n) && NoDivisor8(d + 56, n)
  }

  lemma NoDivisor8At(d: nat, e: nat, n: nat)
    requires 0 < d <= e < d + 8 && NoDivisor8(d, n)
    ensures !Divides(e, n)
  {
    hide Divides;
    assert e == d || e == d + 1 || e == d + 2 || e == d + 3 || e == d + 4 || e == d + 5 || e == d + 6 || e == d + 7;
  }

  lemma NoDivisor64At(d: nat, e: nat, n: nat)
    requires 0 < d <= e < d + 64 && NoDivisor64(d, n)
    ensures !Divides(e, n)
  {
    hide NoDivisor8;
    var k := (e - d) / 8;
    assert k == 0 || k == 1 || k == 2 || k == 3 || k == 4 || k == 5 || k == 6 || k == 7;
    NoDivisor8At(d + 8 * k, e, n);
  }

  lemma NoDivisorBelow66() ensures NoDivisor64(2, 65537) {}

  lemma NoDivisorBelow130() ensures NoDivisor64(66, 65537) {}

  lemma NoDivisorBelow194() ensures NoDivisor64(130, 65537) {}

  lemma NoDivisorBelow258() ensures NoDivisor64(194, 65537) {}

  lemma NoSmallDivisor(d: nat, n: nat)
    requires 2 <= d < 258 && n == 65537
    ensures !Divides(d, n)
  {
    if d < 66 { NoDivisorBelow66(); NoDivisor64At(2, d, n); }
    else if d < 130 { NoDivisorBelow130(); NoDivisor64At(66, d, n); }
    else if d < 194 { NoDivisorBelow194(); NoDivisor64At(130, d, n); }
    else { NoDivisorBelow258(); NoDivisor64At(194, d, n); }
  }

  /** The table size 65537 is prime: a divisor or its cofactor is at most 256. */
  lemma TableSizeIsPrime()
    ensures IsPrime(65537)
  {
    forall d | 2 <= d < 65537
      ensures !Divides(d, 65537)
    {
      if d <= 256 {
        NoSmallDivisor(d, 65537);
      } else if Divides(d, 65537) {
        var q := 65537 / d;
        assert d * q == 65537;
        if q >= 257 {
          MulAtLeast(d, 257, q);
        }
        MultipleModZero(d, q);
        assert q * d == 65537;
        NoSmallDivisor(q, 65537);
        assert false;
      }
    }
  }

  lemma MulAtLeast(d: nat, lo: nat, q: nat)
    requires lo <= q && lo <= d
    ensures lo * lo <= d * q
  {
    assert lo * lo <= d * lo;
    assert d * lo <= d * q;
  }
}
