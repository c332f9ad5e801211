/** Result types and integer bounds shared by every protocol module. */
module Common {
  datatype Option<+T> = None | Some(value: T)
  {
    function GetOr(default: T): T {
      if Some? then value else default
    }
  }

  datatype Result<+T, +E> = Ok(value: T) | Err(error: E)

  newtype byte = x: int | 0 <= x < 256

  /** `Number.MAX_SAFE_INTEGER`: every sequence number, nonce and clock reading stays below it. */
  const MAX_SAFE: nat := 9007199254740991

  const I64_MAX: int := 0x7fff_ffff_ffff_ffff
  const I64_MIN: int := -0x8000_0000_0000_0000

  /** Rust's `i64::saturating_add`. */
  function SaturatingAdd(a: int, b: int): int {
    if a + b > I64_MAX then I64_MAX
    else if a + b < I64_MIN then I64_MIN
    else a + b
  }

  /** A clock reading that both implementations accept: a non-negative safe integer. */
  predicate SafeTime(now: int) {
    0 <= now <= MAX_SAFE
  }
}
