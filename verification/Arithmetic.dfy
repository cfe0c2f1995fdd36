/** Order facts about products and Euclidean quotients, stated once for every module. */
module Arithmetic {

  lemma MulOrder(a: int, b: int, c: nat)
    ensures a <= b ==> a * c <= b * c
  {
  }

  lemma CancelFactor(a: int, b: int, c: int)
    requires c > 0 && a * c <= b * c
    ensures a <= b
  {
    MulOrder(b + 1, a, c);
  }

  lemma QuotientBounds(n: int, d: int)
    requires d > 0
    ensures (n / d) * d <= n < (n / d + 1) * d
  {
  }

  lemma QuotientUnique(n: int, d: int, x: int, y: int)
    requires d > 0 && x * d <= n < (x + 1) * d && y * d <= n < (y + 1) * d
    ensures x == y
  {
    MulOrder(x + 1, y, d);
    MulOrder(y + 1, x, d);
  }

  lemma DivShift(q: int, r: int, d: int)
    requires d > 0
    ensures (q * d + r) / d == q + r / d
  {
    var n := q * d + r;
    QuotientBounds(n, d);
    QuotientBounds(r, d);
    var y := r / d;
    assert (q + y) * d == q * d + y * d && (q + y + 1) * d == q * d + (y + 1) * d;
    QuotientUnique(n, d, n / d, q + y);
  }

  lemma DivCovers(k: int, x: int, d: int)
    requires d > 0 && k * d <= x
    ensures k <= x / d
  {
    QuotientBounds(x, d);
    MulOrder(x / d + 1, k, d);
  }

  lemma DivMonotone(x: int, y: int, d: int)
    requires d > 0 && x <= y
    ensures x / d <= y / d
  {
    QuotientBounds(x, d);
    DivCovers(x / d, y, d);
  }
}
