/** Divisibility, as far as the shuffle of event numbers needs it. */
module NumberTheory {
  import opened Arithmetic

  /** The greatest common divisor as a combination of both numbers. */
  lemma {:induction false} Bezout(a: nat, b: nat) returns (g: nat, x: int, y: int, p: nat, q: nat)
    requires a > 0 || b > 0
    ensures g > 0 && a * x + b * y == g && a == g * p && b == g * q
    decreases b
  {
    if b == 0 {
      g, x, y, p, q := a, 1, 0, 1, 0;
    } else {
      Quotient(a, b);
      var t, r := Div(a, b), a % b;
      assert a == b * t + r;
      var x1, y1, p1, q1;
      g, x1, y1, p1, q1 := Bezout(b, r);
      x, y := y1, x1 - t * y1;
      p, q := p1 * t + q1, p1;
      BezoutStep(a, b, t, r, g, x1, y1, p1, q1);
    }
  }

  lemma BezoutStep(a: int, b: int, t: int, r: int, g: int, x1: int, y1: int, p1: int, q1: int)
    requires a == b * t + r && b * x1 + r * y1 == g && b == g * p1 && r == g * q1
    ensures a * y1 + b * (x1 - t * y1) == g && a == g * (p1 * t + q1)
  {
    Distribute(b, x1, t * y1);
    Associate(b, t, y1);
    Distribute(g, p1 * t, -q1);
    Associate(g, p1, t);
  }

  lemma Distribute(a: int, b: int, c: int)
    ensures a * (b - c) == a * b - a * c
  {
  }

  lemma Associate(a: int, b: int, c: int)
    ensures a * (b * c) == a * b * c
  {
  }

  const PRIME: nat := 953

  lemma PrimeHasNoFactors(d: nat, e: nat)
    requires d * e == PRIME
    ensures d == 1 || e == 1
  {
    if d > e {
      PrimeHasNoFactors(e, d);
    } else if d >= 31 {
      MulOrder(31, d, 31);
      MulOrder(31, e, d);
    }
  }

  lemma ModShift(a: nat, n: nat, k: nat)
    requires n > 0
    ensures (a + k * n) % n == a % n
  {
    Quotient(a, n);
    var q := Div(a, n);
    assert (q + k) * n == q * n + k * n && (q + k + 1) * n == q * n + k * n + n;
    assert a == n * q + a % n;
    QuotientIs(a + k * n, n, q + k);
  }

  /** Reducing modulo a multiple of `n` first changes nothing. */
  lemma ModMod(y: nat, m: nat, n: nat, k: nat)
    requires n > 0 && m > 0 && m == k * n
    ensures (y % m) % n == y % n
  {
    Quotient(y, m);
    var t := Div(y, m);
    assert y == y % m + t * m;
    assert t * m == t * k * n by { Associate(t, k, n); }
    ModShift(y % m, n, t * k);
  }

  lemma NoSmallMultiple(d: int, k: int, n: nat)
    requires d == k * n && d < n && -d < n
    ensures d == 0
  {
    if k >= 1 { MulOrder(1, k, n); }
    if k <= -1 { MulOrder(k, -1, n); }
  }

  /** Unless it divides `n`, the prime is invertible modulo `n`. */
  lemma Inverse(n: nat) returns (a: int, b: int)
    requires n > 0 && n % PRIME != 0
    ensures PRIME * a + n * b == 1
  {
    var g, p, q;
    g, a, b, p, q := Bezout(PRIME, n);
    PrimeHasNoFactors(g, p);
    ModShift(0, PRIME, q);
    assert g == PRIME ==> n == 0 + q * PRIME;
  }

  /** A distance below `n` whose multiple by the prime is a multiple of `n` is zero. */
  lemma PrimeIsInjective(d: int, n: nat, k: int)
    requires n > 0 && n % PRIME != 0 && d < n && -d < n
    requires PRIME * d == n * k
    ensures d == 0
  {
    var a, b := Inverse(n);
    Combine(d, n, k, a, b);
    NoSmallMultiple(d, a * k + b * d, n);
  }

  /** Equal remainders differ by a multiple, and the other way round. */
  lemma SameRemainder(a: nat, b: nat, n: nat)
    requires n > 0 && a % n == b % n
    ensures a - b == n * (a / n - b / n)
  {
    Quotient(a, n);
    Quotient(b, n);
  }

  lemma MultipleApart(a: nat, b: nat, n: nat, k: int)
    requires n > 0 && a - b == k * n
    ensures a % n == b % n
  {
    if k >= 0 {
      ModShift(b, n, k);
    } else {
      assert b - a == -k * n;
      ModShift(a, n, -k);
    }
  }

  lemma Euclid(v: int, n: nat) returns (e: int, d: nat)
    requires n > 0
    ensures v == n * e + d && d < n
  {
    e, d := v / n, v % n;
  }

  /** A distance the prime takes to any given remainder. */
  lemma Preimage(n: nat, c: nat) returns (d: nat, k: int)
    requires n > 0 && n % PRIME != 0 && 0 < c < n
    ensures 0 < d < n && PRIME * d - c == k * n
  {
    d, k := PreimageWith(n, c);
  }

  lemma PreimageWith(n: nat, c: nat) returns (d: nat, k: int)
    requires n > 0 && n % PRIME != 0
    ensures d < n && PRIME * d - c == k * n
  {
    var a, b := Inverse(n);
    var e;
    e, d := Euclid(a * c, n);
    k := -(b * c + PRIME * e);
    PreimageStep(n, c, a, b, e, d);
  }

  lemma PreimageStep(n: int, c: int, a: int, b: int, e: int, d: int)
    requires PRIME * a + n * b == 1 && a * c == n * e + d
    ensures PRIME * d - c == -(b * c + PRIME * e) * n
  {
    calc {
      PRIME * d - c;
      PRIME * (a * c - n * e) - c;
      { Distribute(PRIME, a * c, n * e); Associate(PRIME, a, c); Associate(PRIME, n, e); }
      (PRIME * a) * c - PRIME * n * e - c;
      (1 - n * b) * c - PRIME * n * e - c;
      { Distribute(c, 1, n * b); Associate(c, n, b); }
      -(c * n * b) - PRIME * n * e;
      -(b * c + PRIME * e) * n;
    }
  }

  lemma Combine(d: int, n: int, k: int, a: int, b: int)
    requires PRIME * d == n * k && PRIME * a + n * b == 1
    ensures d == (a * k + b * d) * n
  {
    calc {
      d;
      d * (PRIME * a + n * b);
      d * (PRIME * a) + d * (n * b);
      { Associate(d, PRIME, a); Associate(d, n, b); }
      (PRIME * d) * a + (d * n) * b;
      (n * k) * a + (d * n) * b;
      { Associate(n, k, a); Associate(n, d, b); }
      n * (k * a) + n * (d * b);
      n * (a * k + b * d);
    }
  }
}
