/** Small datatypes and fixed-width arithmetic shared by every module of the model. */
module Prelude {

  datatype Option<+T> = None | Some(value: T) {
    function GetOr(default: T): T {
      match this
      case Some(v) => v
      case None => default
    }
  }

  datatype Result<+T, +E> = Ok(value: T) | Err(error: E)

  const I64_MAX: int := 0x7fff_ffff_ffff_ffff
  const I64_MIN: int := -0x8000_0000_0000_0000

  /** Rust's `i64::saturating_add`. */
  function SatAdd(a: int, b: int): int {
    Clamp(a + b)
  }

  /** Rust's `i64::saturating_sub`. */
  function SatSub(a: int, b: int): int {
    Clamp(a - b)
  }

  function Clamp(x: int): int {
    if x > I64_MAX then I64_MAX else if x < I64_MIN then I64_MIN else x
  }

  /** Saturation: the exact difference where an i64 holds it, otherwise the nearest end of the range. */
  lemma SaturatesAtTheEnds(a: int, b: int)
    ensures I64_MIN <= a - b <= I64_MAX ==> SatSub(a, b) == a - b
    ensures a - b > I64_MAX ==> SatSub(a, b) == I64_MAX
    ensures a - b < I64_MIN ==> SatSub(a, b) == I64_MIN
    ensures SatAdd(a, b) == SatSub(a, -b)
  {
  }

  /** Rust's `/`, which rounds toward zero (Dafny's rounds down for a positive divisor). */
  function TruncDiv(a: int, b: int): int
    requires b > 0
  {
    if a >= 0 then a / b else -((-a) / b)
  }

  lemma Regroup<T>(a: seq<T>, b: seq<T>, c: seq<T>)
    ensures a + b + c == a + (b + c)
  {
  }
}
