/** Failure-carrying results, bytes, 64-bit bounds and suffixes, shared by every module. */
module Wrappers {

  datatype Option<+T> = None | Some(value: T)

  datatype Result<+T, +E> = Ok(value: T) | Err(error: E)

  type Byte = value: nat | value < 0x100

  const I64_MIN := -0x8000_0000_0000_0000
  const I64_MAX := 0x7FFF_FFFF_FFFF_FFFF

  predicate FitsI64(x: int) {
    I64_MIN <= x <= I64_MAX
  }

  /** What is left after `n` elements, which may be more than there are. */
  function Drop<T>(s: seq<T>, n: nat): (rest: seq<T>)
    ensures n > 0 && s != [] ==> |rest| < |s|
  {
    if n <= |s| then s[n..] else []
  }
}
