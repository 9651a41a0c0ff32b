/** Order facts about products and quotients. */
module Arithmetic {
  lemma {:induction false} MulGrows(x: int, s: int)
    requires x >= 0 && s > 0
    ensures x * s >= x
  {
    if x > 0 {
      MulGrows(x - 1, s);
      assert x * s == (x - 1) * s + s;
    }
  }

  lemma MulOrder(a: int, b: int, s: int)
    requires s > 0
    ensures a <= b <==> a * s <= b * s
    ensures a < b <==> a * s < b * s
  {
    assert (b - a) * s == b * s - a * s;
    assert (a - b) * s == a * s - b * s;
    if a <= b { MulGrows(b - a, s); } else { MulGrows(a - b, s); }
  }

  lemma Quotient(d: int, s: int)
    requires d >= 0 && s > 0
    ensures d / s >= 0 && (d / s) * s <= d < (d / s + 1) * s
    ensures d % s == 0 ==> (d / s) * s == d
  {
    assert d == s * (d / s) + d % s;
    assert (d / s + 1) * s == (d / s) * s + s;
    if d / s < 0 { MulOrder(d / s, -1, s); }
  }

  function Div(d: nat, s: nat): nat
    requires s > 0
  {
    Quotient(d, s);
    d / s
  }

  /** A quotient reaches `c` exactly when the dividend reaches `c * b`. */
  lemma QuotientAtLeast(a: int, b: int, c: int)
    requires a >= 0 && b > 0
    ensures a / b >= c <==> a >= c * b
  {
    Quotient(a, b);
    MulOrder(c, a / b, b);
    MulOrder(a / b + 1, c, b);
  }

  lemma QuotientIs(a: int, b: int, q: int)
    requires a >= 0 && b > 0 && q * b <= a < (q + 1) * b
    ensures a / b == q && a % b == a - q * b
  {
    QuotientAtLeast(a, b, q);
    QuotientAtLeast(a, b, q + 1);
    assert a == b * (a / b) + a % b;
  }

  function CeilDiv(a: nat, b: nat): nat
    requires b > 0
  {
    Div(a + b - 1, b)
  }

  lemma CeilDivAtMost(a: nat, b: nat, k: nat)
    requires b > 0
    ensures k >= CeilDiv(a, b) <==> k * b >= a
  {
    QuotientAtLeast(a + b - 1, b, k + 1);
    assert (k + 1) * b == k * b + b;
  }
}
