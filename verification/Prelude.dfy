/**
 Shared vocabulary of the contract models: results, optional values, addresses,
 bytes and the bounds of the fixed-width integers the contracts store.
 */
module Prelude {

  datatype Option<+T> = None | Some(value: T)

  datatype Result<+T, +E> = Ok(value: T) | Err(error: E) {
    predicate IsFailure() {
      Err?
    }

    function PropagateFailure<U>(): Result<U, E>
      requires Err?
    {
      Err(error)
    }

    function Extract(): T
      requires Ok?
    {
      value
    }
  }

  /** Accounts and contracts are only ever compared for equality. */
  datatype Address = Address(id: nat)

  newtype byte = x: int | 0 <= x < 0x100

  const U32_MAX: int := 0xFFFF_FFFF
  const U64_MAX: int := 0xFFFF_FFFF_FFFF_FFFF
  const U128_MAX: int := 0xFFFF_FFFF_FFFF_FFFF_FFFF_FFFF_FFFF_FFFF
  const I128_MAX: int := 0x7FFF_FFFF_FFFF_FFFF_FFFF_FFFF_FFFF_FFFF
  const I128_MIN: int := -0x8000_0000_0000_0000_0000_0000_0000_0000

  predicate FitsI128(x: int) {
    I128_MIN <= x <= I128_MAX
  }

  function Min(a: int, b: int): (m: int)
    ensures m <= a && m <= b && (m == a || m == b)
  {
    if a <= b then a else b
  }

  function Max(a: int, b: int): (m: int)
    ensures a <= m && b <= m && (m == a || m == b)
  {
    if a <= b then b else a
  }

  /** `saturating_sub` on an unsigned type. */
  function SatSub(a: nat, b: nat): (r: nat)
    ensures a <= b ==> r == 0
    ensures b <= a ==> r + b == a
  {
    if a <= b then 0 else a - b
  }

  /** `saturating_add` on an unsigned type with maximum `max`. */
  function SatAdd(a: nat, b: nat, max: nat): (r: nat)
    ensures r <= max
    ensures a + b <= max ==> r == a + b
    ensures a + b >= max ==> r == max
  {
    Min(a + b, max)
  }

  /** The signed `/` of the contracts: rounds toward zero. */
  function TruncDiv(a: int, b: int): int
    requires b != 0
  {
    if (a >= 0) == (b > 0) then Abs(a) / Abs(b) else -(Abs(a) / Abs(b))
  }

  function Abs(a: int): (m: nat)
    ensures m == a || m == -a
  {
    if a >= 0 then a else -a
  }

  predicate NoDuplicates<T(==)>(s: seq<T>) {
    forall i, j :: 0 <= i < j < |s| ==> s[i] != s[j]
  }
}
