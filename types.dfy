/** Shared value types: the 64-bit signed integers the agent stores its
    session counters in, and an optional value. */
module Types {

  const INT64_MIN: int := -0x8000_0000_0000_0000
  const INT64_MAX: int := 0x7FFF_FFFF_FFFF_FFFF

  /** std::int64_t */
  type int64 = x: int | INT64_MIN <= x <= INT64_MAX

  datatype Option<+T> = None | Some(value: T) {
    function GetOr(default: T): T {
      match this
      case Some(v) => v
      case None => default
    }
  }

  /** `++x` on an int64. Overflow is undefined behaviour in C++; the model
      takes the two's-complement wrap-around that the hardware performs. */
  function Inc64(x: int64): (y: int64)
    ensures x < INT64_MAX ==> y == x + 1
    ensures x == INT64_MAX ==> y == INT64_MIN
  {
    if x == INT64_MAX then INT64_MIN else x + 1
  }
}
