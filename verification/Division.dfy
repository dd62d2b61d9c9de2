/** Go's integer division, and facts about quotients of positive divisors. */
module Division {

  lemma MulLe(a: int, b: int, c: int)
    requires a <= b && c > 0
    ensures a * c <= b * c
  {
    assert (b - a) * c >= 0;
  }

  lemma Cancel(a: int, b: int, c: int)
    requires a * c <= b * c && c > 0
    ensures a <= b
  {
    assert (a - b) * c <= 0;
  }

  lemma CancelLt(a: int, b: int, c: int)
    requires a * c < b * c && c > 0
    ensures a < b
  {
    assert (a - b) * c < 0;
  }

  lemma Product(a: int, d: int)
    requires d > 0
    ensures a - d < d * (a / d) <= a
  {
    assert a == a / d * d + a % d;
  }

  lemma OneMore(k: int, q: int)
    ensures (k + 1) * q == k * q + q
  {
  }

  lemma Assoc(a: int, b: int, c: int)
    ensures a * b * c == a * c * b
  {
  }

  lemma AtLeast(a: int, q: int, d: int)
    requires d > 0 && q * d <= a
    ensures q <= a / d
  {
    var r := a / d;
    assert a < r * d + d;
    assert (r + 1) * d == r * d + d;
    CancelLt(q, r + 1, d);
  }

  lemma Below(a: int, q: int, d: int)
    requires d > 0 && a < q * d
    ensures a / d < q
  {
    assert a / d * d <= a;
    CancelLt(a / d, q, d);
  }

  lemma Floor(a: int, d: int)
    requires d > 0
    ensures a / d * d <= a < (a / d + 1) * d
  {
    assert a == a / d * d + a % d;
    OneMore(a / d, d);
  }

  lemma DivMul(k: int, d: int)
    requires d > 0
    ensures k * d / d == k
  {
    AtLeast(k * d, k, d);
    assert k * d < k * d + d == (k + 1) * d;
    Below(k * d, k + 1, d);
  }

  /** A smaller fraction has a quotient that is no larger. */
  lemma DivLe(p: int, q: int, x: int, y: int)
    requires q > 0 && y > 0 && p * y <= x * q
    ensures p / q <= x / y
  {
    var k := p / q;
    assert k * q <= p;
    MulLe(k * q, p, y);
    Assoc(k, q, y);
    Cancel(k * y, x, q);
    AtLeast(x, k, y);
  }

  lemma StepUp(p: int, d: int)
    requires d > 0
    ensures (p + d) / d == p / d + 1
  {
    var q := p / d;
    assert q * d <= p < q * d + d;
    assert (q + 1) * d == q * d + d && (q + 2) * d == q * d + d + d;
    AtLeast(p + d, q + 1, d);
    Below(p + d, q + 2, d);
  }

  function Abs(x: int): (r: nat)
    ensures x != 0 ==> r > 0
  {
    if x < 0 then -x else x
  }

  /** Towards zero. */
  function Trunc(p: int, q: int): int
    requires q != 0
  {
    if (p < 0) == (q < 0) then Abs(p) / Abs(q) else -(Abs(p) / Abs(q))
  }
}
