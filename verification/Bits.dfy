/**
 Right shifts, powers of two and bit lengths of natural numbers. A shift is
 defined one halving at a time, so that the tree and square-root proofs stay in
 linear arithmetic; `ShrBounds` relates it to division by a power of two.
 */
module Bits {
  import opened Arithmetic

  function Pow2(k: nat): (p: nat)
    ensures p >= 1
  {
    if k == 0 then 1 else 2 * Pow2(k - 1)
  }

  /** `n >> k` */
  function Shr(n: nat, k: nat): (r: nat)
    ensures r <= n
  {
    if k == 0 then n else Shr(n, k - 1) / 2
  }

  /** Whether bit `k` of `n` is set: `(n >> k) & 1 == 1`. */
  predicate Bit(n: nat, k: nat) {
    Shr(n, k) % 2 == 1
  }

  /** Number of significant bits: `width - n.leading_zeros()`. */
  function BitLength(n: nat): (b: nat)
    ensures n > 0 ==> b > 0
  {
    if n == 0 then 0 else 1 + BitLength(n / 2)
  }

  /** A shift divides by a power of two, rounding down. */
  lemma {:induction false} ShrBounds(n: nat, k: nat)
    ensures Shr(n, k) * Pow2(k) <= n < (Shr(n, k) + 1) * Pow2(k)
  {
    if k > 0 {
      ShrBounds(n, k - 1);
      var h, q, p := Shr(n, k - 1), Shr(n, k), Pow2(k - 1);
      MulRegroup(q, p);
      MulRegroup(q + 1, p);
      MulOrder(2 * q, h, p);
      MulOrder(h + 1, 2 * q + 2, p);
    }
  }

  lemma MulRegroup(a: int, b: int)
    ensures a * (2 * b) == (2 * a) * b
  {
  }

  lemma {:induction false} ShrHalf(n: nat, k: nat)
    ensures Shr(n / 2, k) == Shr(n, k + 1)
  {
    if k > 0 {
      ShrHalf(n, k - 1);
    }
  }

  /** A number has exactly `BitLength` significant bits. */
  lemma {:induction false} BitLengthExact(n: nat, k: nat)
    ensures Shr(n, k) == 0 <==> k >= BitLength(n)
  {
    if n == 0 {
      if k > 0 {
        BitLengthExact(0, k - 1);
      }
    } else if k > 0 {
      BitLengthExact(n / 2, k - 1);
      ShrHalf(n, k - 1);
    }
  }

  lemma {:induction false} BitLengthBounds(n: nat)
    requires n > 0
    ensures Pow2(BitLength(n) - 1) <= n < Pow2(BitLength(n))
  {
    if n > 1 {
      BitLengthBounds(n / 2);
    }
  }

  lemma {:induction false} BitLengthUnique(n: nat, b: nat)
    requires n < Pow2(b)
    ensures BitLength(n) <= b
  {
    if n > 0 {
      BitLengthUnique(n / 2, b - 1);
    }
  }

  lemma {:induction false} Pow2Add(a: nat, b: nat)
    ensures Pow2(a + b) == Pow2(a) * Pow2(b)
  {
    if a > 0 {
      Pow2Add(a - 1, b);
      assert Pow2(a + b) == 2 * Pow2(a - 1 + b);
    }
  }

  lemma {:induction false} Pow2Mono(a: nat, b: nat)
    requires a <= b
    ensures Pow2(a) <= Pow2(b)
    decreases b - a
  {
    if a < b {
      Pow2Mono(a + 1, b);
    }
  }

  lemma Pow2At32()
    ensures Pow2(32) == 0x1_0000_0000
  {
    assert Pow2(8) == 0x100;
    Pow2Add(8, 8);
    Pow2Add(16, 16);
  }
}
