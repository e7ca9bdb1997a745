/** Values shared by every module: optional values, results, identifiers,
    the 32-bit integers of the ledger, and instants in microseconds. */
module Prelude {

  datatype Option<+T> = None | Some(value: T)

  datatype Result<+T, +E> = Ok(value: T) | Err(error: E)

  const UUID_LIMIT: int := 0x1_0000_0000_0000_0000_0000_0000_0000_0000

  /** A UUID is its 128 bits read as one big-endian number. Module UuidText
      shows that this order is also the order of the canonical strings. */
  type Uuid = n: nat | n < UUID_LIMIT

  const NIL_UUID: Uuid := 0

  const MIN_INT32: int := -0x8000_0000
  const MAX_INT32: int := 0x7fff_ffff

  type int32 = n: int | MIN_INT32 <= n <= MAX_INT32

  /** Microseconds, the resolution of a stored TIMESTAMPTZ. */
  type Timestamp = int

  /** The zero time of the Go programs, which validation treats as absent. */
  const ZERO_TIME: Timestamp := 0

  predicate FitsInt32(n: int) {
    MIN_INT32 <= n <= MAX_INT32
  }

  /** An optional text that is blank counts as absent. */
  function NormalizeOptional(text: Option<string>): Option<string> {
    if text == Some("") then None else text
  }
}
