/** Error-carrying results shared by the three models. */
module Results {

  /** A value that may be absent: Go's `(value, exists)` pair. */
  datatype Option<T> = None | Some(value: T)

  /** Either a value or an error: Go's `(value, error)` pair, a Java constructor that may throw. */
  datatype Result<T, E> = Ok(value: T) | Err(error: E)
}

/** Two's-complement 32-bit integers, as Rust's `i32` and Java's `int`. */
module Ints {

  const INT32_MIN: int := -0x8000_0000
  const INT32_MAX: int := 0x7fff_ffff

  predicate InInt32(x: int) {
    INT32_MIN <= x <= INT32_MAX
  }

  type Int32 = x: int | INT32_MIN <= x <= INT32_MAX

  /** Java's `x++` on an `int`: silently wraps from the largest value to the smallest. */
  function WrappingIncrement(x: Int32): (r: Int32)
    ensures x < INT32_MAX ==> r == x + 1
    ensures x == INT32_MAX ==> r == INT32_MIN
    ensures (r - x) % 0x1_0000_0000 == 1
  {
    if x == INT32_MAX then INT32_MIN else x + 1
  }
}
