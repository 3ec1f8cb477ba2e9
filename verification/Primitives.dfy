/** Optional values, results and the machine-integer operations the modelled
    code relies on: checked, saturating, truncating and wrapping arithmetic. */
module Primitives {
  datatype Option<+T> = None | Some(value: T)

  datatype Result<+T, +E> = Ok(value: T) | Err(error: E)

  const TWO_63: int := 0x8000_0000_0000_0000
  const TWO_64: int := 0x1_0000_0000_0000_0000
  const TWO_127: int := 0x8000_0000_0000_0000_0000_0000_0000_0000
  const TWO_128: int := 0x1_0000_0000_0000_0000_0000_0000_0000_0000

  type u8 = x: int | 0 <= x < 256
  type u16 = x: int | 0 <= x < 65536
  type u64 = x: int | 0 <= x < 0x1_0000_0000_0000_0000

  const U64_MAX: u64 := 0xFFFF_FFFF_FFFF_FFFF

  function Min(a: int, b: int): int {
    if a <= b then a else b
  }

  function SaturatingSub(a: nat, b: nat): nat {
    if a <= b then 0 else a - b
  }

  /** The result of a `checked_` operation on u64. */
  function CheckedU64(x: int): Option<u64> {
    if 0 <= x < TWO_64 then Some(x) else None
  }

  /** The result of a `checked_` operation on u128. */
  function CheckedU128(x: int): Option<nat> {
    if 0 <= x < TWO_128 then Some(x) else None
  }

  /** The result of a `checked_` operation on i128. */
  function CheckedI128(x: int): Option<int> {
    if -TWO_127 <= x < TWO_127 then Some(x) else None
  }

  /** The result of a `saturating_` operation on i128. */
  function SaturateI128(x: int): int {
    if x < -TWO_127 then -TWO_127 else if x < TWO_127 then x else TWO_127 - 1
  }

  /** Integer division that rounds toward zero, for a positive divisor. */
  function TruncDiv(a: int, d: int): int
    requires d > 0
  {
    if a >= 0 then a / d else -((-a) / d)
  }

  /** The cast `as i64`: keep the low 64 bits, read as two's complement. */
  function WrapI64(x: int): int {
    (x + TWO_63) % TWO_64 - TWO_63
  }

  /** The cast `as u64` from a wider unsigned integer: keep the low 64 bits. */
  function WrapU64(x: nat): u64 {
    x % TWO_64
  }

  // ---- Multiplication facts the solver needs by name -----------------------

  lemma MulMono(a: int, b: int, c: nat)
    requires a <= b
    ensures a * c <= b * c
  {
  }

  lemma MulStrict(a: int, b: int, c: int)
    requires a < b && c > 0
    ensures a * c < b * c
  {
  }

  /** Cancelling a positive factor. */
  lemma MulCancel(a: int, b: int, c: int)
    requires a * c < b * c && c > 0
    ensures a < b
  {
    if b <= a {
      MulMono(b, a, c);
    }
  }

  lemma QuotientAtMost(a: nat, q: nat, d: nat)
    requires d > 0 && a <= q * d
    ensures a / d <= q
  {
    assert a == (a / d) * d + a % d;
    if q < a / d {
      MulMono(q + 1, a / d, d);
    }
  }

  lemma QuotientBelow(a: nat, q: nat, d: nat)
    requires d > 0 && a < q * d
    ensures a / d < q
  {
    assert a == (a / d) * d + a % d;
    if q <= a / d {
      MulMono(q, a / d, d);
    }
  }

  lemma QuotientAtLeast(a: nat, q: nat, d: nat)
    requires d > 0 && a >= q * d
    ensures a / d >= q
  {
    assert a == (a / d) * d + a % d;
    if a / d < q {
      MulMono(a / d + 1, q, d);
    }
  }
}
