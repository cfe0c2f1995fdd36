/**
 Integer square roots by Newton iteration, as the governance contract computes
 them for voting weights (64 bits) and for quadratic funding (128 bits).
 */
module Isqrt {
  import opened Arithmetic
  import opened Prelude
  import opened Bits

  ghost predicate IsFloorSqrt(n: nat, r: nat) {
    r * r <= n < (r + 1) * (r + 1)
  }

  /** `x * x`, as the sum of the first `x` odd numbers (see `SquareIsProduct`). */
  function Square(x: nat): nat {
    if x == 0 then 0 else Square(x - 1) + 2 * x - 1
  }

  lemma {:induction false} SquareIsProduct(x: nat)
    ensures Square(x) == x * x
  {
    if x > 0 {
      SquareIsProduct(x - 1);
      assert (x - 1) * (x - 1) == x * x - 2 * x + 1;
    }
  }

  /** The floor of the square root, by counting up. */
  ghost function FloorSqrt(n: nat): (r: nat) {
    if n == 0 then 0
    else
      var r := FloorSqrt(n - 1);
      if Square(r + 1) <= n then r + 1 else r
  }

  lemma {:induction false} FloorSqrtSpec(n: nat)
    ensures IsFloorSqrt(n, FloorSqrt(n))
  {
    if n > 0 {
      FloorSqrtSpec(n - 1);
      var r := FloorSqrt(n - 1);
      SquareIsProduct(r + 1);
      NextSquare(r);
    }
  }

  lemma NextSquare(r: nat)
    ensures (r + 1) * (r + 1) < (r + 2) * (r + 2)
  {
  }

  lemma SquareMonotone(a: nat, b: nat)
    requires a <= b
    ensures a * a <= b * b
  {
  }

  lemma FloorSqrtUnique(n: nat, r: nat, s: nat)
    requires IsFloorSqrt(n, r) && IsFloorSqrt(n, s)
    ensures r == s
  {
    if r < s {
      SquareMonotone(r + 1, s);
    } else if s < r {
      SquareMonotone(s + 1, r);
    }
  }

  lemma FloorSqrtMonotone(m: nat, n: nat)
    requires m <= n
    ensures FloorSqrt(m) <= FloorSqrt(n)
  {
    FloorSqrtSpec(m);
    FloorSqrtSpec(n);
    if FloorSqrt(n) < FloorSqrt(m) {
      SquareMonotone(FloorSqrt(n) + 1, FloorSqrt(m));
    }
  }

  // ---- the iteration ----

  /** The starting power of two lies above the root. */
  lemma StartAbove(n: nat)
    requires n > 0
    ensures var x := Pow2((BitLength(n) + 1) / 2); x * x > n
  {
    var b := BitLength(n);
    var k := (b + 1) / 2;
    BitLengthBounds(n);
    Pow2Add(k, k);
    Pow2Mono(b, k + k);
  }

  /** `(x - n/x)^2 >= 0`: an iterate never falls below the root. */
  lemma IterateAbove(n: nat, x: nat, r: nat)
    requires x > 0 && r * r <= n
    ensures (x + n / x) / 2 >= r
  {
    QuotientBounds(n, x);
    // If the sum fell below 2r, then x * (n/x + 1) <= x * (2r - x) <= r^2 <= n.
    MulOrder(n / x + 1, 2 * r - x, x);
    SquareIdentity(x, r);
  }

  lemma SquareIdentity(x: int, r: int)
    ensures (2 * r - x) * x == r * r - (r - x) * (r - x)
    ensures (2 * r - x) * x <= r * r
  {
  }

  /** When an iterate no longer descends it is the floor of the root. */
  lemma FixpointIsRoot(n: nat, x: nat, r: nat)
    requires x >= r && x > 0 && IsFloorSqrt(n, r) && (x + n / x) / 2 >= x
    ensures x == r
  {
    QuotientBounds(n, x);
    MulOrder(x, n / x, x);
    if x > r {
      SquareMonotone(r + 1, x);
    }
  }

  /** Above the root minus one, the quotient stays close to the iterate, so sums do not overflow. */
  lemma QuotientBound(n: nat, x: nat)
    requires x > 0 && (x + 1) * (x + 1) > n
    ensures n / x <= x + 2
  {
    QuotientBounds(n, x);
    MulOrder(x + 3, n / x, x);
  }

  /** One round: the sum stays near twice the iterate, and either the root is found or the next iterate is above it. */
  lemma NewtonStep(n: nat, x: nat, r: nat)
    requires 0 < n && IsFloorSqrt(n, r) && r <= x && 0 < x
    ensures n / x <= x + 2
    ensures var next := (x + n / x) / 2; 0 < r <= next && (next >= x ==> x == r)
  {
    RootPositive(n, r);
    SquareMonotone(r + 1, x + 1);
    QuotientBound(n, x);
    IterateAbove(n, x, r);
    if (x + n / x) / 2 >= x {
      FixpointIsRoot(n, x, r);
    }
  }

  /**
   The Newton loop shared by both widths. `width` bounds the machine integers:
   no intermediate value leaves it.
   */
  method Newton(n: nat, width: nat) returns (x: nat)
    requires 4 <= n < Pow2(width) && width >= 4 && width % 2 == 0
    ensures x == FloorSqrt(n)
  {
    ghost var r, top := FloorSqrt(n), Pow2(width);
    FloorSqrtSpec(n);
    StartAbove(n);
    var bits := BitLength(n);
    BitLengthUnique(n, width);
    StartFits(bits, width);
    x := Pow2((bits + 1) / 2);
    AboveRoot(n, x, r);
    while true
      invariant r <= x && 0 < x && 2 * x + 2 < top
      decreases x
    {
      NewtonStep(n, x, r);
      assert x + n / x < top;
      var next := (x + n / x) / 2;
      if next >= x {
        return;
      }
      x := next;
    }
  }

  lemma AboveRoot(n: nat, x: nat, r: nat)
    requires x * x > n && IsFloorSqrt(n, r)
    ensures r <= x && 0 < x
  {
    if x < r {
      SquareMonotone(x, r);
    }
  }

  lemma RootPositive(n: nat, r: nat)
    requires n > 0 && IsFloorSqrt(n, r)
    ensures r > 0
  {
  }

  lemma StartFits(bits: nat, width: nat)
    requires bits <= width && width >= 4 && width % 2 == 0
    ensures 2 * Pow2((bits + 1) / 2) + 2 < Pow2(width)
  {
    var half := width / 2;
    Pow2Mono((bits + 1) / 2, half);
    Pow2Add(half, half);
    Pow2Mono(2, half);
    assert Pow2(2) == 4;
    assert Pow2(half) * Pow2(half) >= 4 * Pow2(half);
  }

  lemma Pow2At64()
    ensures Pow2(64) == U64_MAX + 1 && Pow2(128) == U128_MAX + 1
  {
    Pow2At32();
    Pow2Add(32, 32);
    Pow2Add(64, 64);
  }

  /** The square root of a voting deposit. */
  method Isqrt64(n: nat) returns (r: nat)
    requires n <= U64_MAX
    ensures r == FloorSqrt(n)
  {
    if n == 0 {
      return 0;
    }
    if n < 4 {
      FloorSqrtSpec(n);
      FloorSqrtUnique(n, FloorSqrt(n), 1);
      return 1;
    }
    Pow2At64();
    r := Newton(n, 64);
  }

  /** The square root of a scaled donation: the 64-bit one where it fits, the same iteration above. */
  method Isqrt128(n: nat) returns (r: nat)
    requires n <= U128_MAX
    ensures r == FloorSqrt(n)
  {
    if n == 0 {
      return 0;
    }
    if n <= U64_MAX {
      r := Isqrt64(n);
      return;
    }
    Pow2At64();
    r := Newton(n, 128);
  }

  /** Roots of 64-bit numbers fit 32 bits. */
  lemma RootFits(n: nat)
    requires n <= U64_MAX
    ensures FloorSqrt(n) <= U32_MAX
  {
    FloorSqrtSpec(n);
    if FloorSqrt(n) > U32_MAX {
      SquareMonotone(U32_MAX + 1, FloorSqrt(n));
    }
  }

  lemma SumSquare(r: nat, q: nat)
    ensures (r + q + 1) * (r + q + 1) >= (r + 1) * (r + 1) + (q + 1) * (q + 1) - 1
  {
    assert r * q >= 0;
  }

  /** Flooring keeps square roots subadditive: `sqrt(x + y) <= sqrt(x) + sqrt(y)`. */
  lemma FloorSqrtSubadditive(x: nat, y: nat)
    ensures FloorSqrt(x + y) <= FloorSqrt(x) + FloorSqrt(y)
  {
    var r, q, s := FloorSqrt(x), FloorSqrt(y), FloorSqrt(x + y);
    FloorSqrtSpec(x);
    FloorSqrtSpec(y);
    FloorSqrtSpec(x + y);
    SumSquare(r, q);
    if s > r + q {
      SquareMonotone(r + q + 1, s);
    }
  }
}
