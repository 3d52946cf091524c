/** Option, Result and Outcome values used by every component. */
module Wrappers {

  datatype Option<+T> = None | Some(value: T)

  datatype Result<+T, +E> = Ok(value: T) | Err(error: E)

  /** The result of a check that carries no value. */
  datatype Outcome<+E> = Pass | Fail(error: E)

  /** `u64::MAX`. */
  const U64_MAX: nat := 0xFFFF_FFFF_FFFF_FFFF

  /** Rust's `u64`, as a subset of the natural numbers. */
  type U64 = n: nat | n <= U64_MAX

  /** `u64::saturating_add`. */
  function SaturatingAdd(a: U64, b: U64): (r: U64)
    ensures r >= a && (a < U64_MAX && b > 0 ==> r > a)
  {
    if a + b <= U64_MAX then a + b else U64_MAX
  }

  /** `u64::abs_diff`. */
  function AbsDiff(a: nat, b: nat): (r: nat)
    ensures a <= b + r && b <= a + r && (r == a - b || r == b - a)
  {
    if a <= b then b - a else a - b
  }
}
