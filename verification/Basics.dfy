/** Machine integers and the small datatypes that every other module shares. */
module Basics {

  const U64_MAX: int := 0xFFFF_FFFF_FFFF_FFFF
  const U32_MAX: int := 0xFFFF_FFFF

  type u64 = x: int | 0 <= x <= U64_MAX
  type u32 = x: int | 0 <= x <= U32_MAX
  type u8 = x: int | 0 <= x < 256

  datatype Option<+T> = None | Some(value: T)

  /** Rust's `saturating_add` on u64. */
  function SaturatingAdd(a: u64, b: u64): (r: u64)
  {
    if a + b <= U64_MAX then a + b else U64_MAX
  }

  /** Rust's `saturating_sub` on u64. */
  function SaturatingSub(a: u64, b: u64): (r: u64)
  {
    if b <= a then a - b else 0
  }

  /** Rust's `abs_diff` on u64. */
  function AbsDiff(a: u64, b: u64): (r: u64)
  {
    if a <= b then b - a else a - b
  }

  // ----- division -----

  lemma Quotient(n: int, d: int, k: int)
    requires 0 < d && d * k <= n < d * k + d
    ensures n / d == k
  {
    var quotient := n / d;
    assert n == d * quotient + n % d;
    if quotient < k {
      Multiples(d, quotient + 1, k);
    } else if k < quotient {
      Multiples(d, k + 1, quotient);
    }
  }

  lemma {:induction false} Multiples(d: int, a: int, b: int)
    requires 0 < d && a <= b
    ensures d * a <= d * b
    decreases b - a
  {
    if a < b {
      Multiples(d, a + 1, b);
      assert d * (a + 1) == d * a + d;
    }
  }

  lemma DividedIsSmaller(n: nat, d: nat)
    requires n > 0 && d >= 2
    ensures n / d < n
  {
    assert n == d * (n / d) + n % d;
    if n / d > 0 { Multiples(n / d, 2, d); }
  }
}
