/** The host's numbers: safe integers, dates in milliseconds, and doubles as they
    are rounded. */
module HostNumbers {
  const MAX_SAFE: int := 0x1F_FFFF_FFFF_FFFF
  const MAX_DATE: int := 8_640_000_000_000_000

  /** A date's milliseconds; the host clips every date to this range. */
  type Millis = ms: int | -MAX_DATE <= ms <= MAX_DATE

  predicate Safe(n: int) { -MAX_SAFE <= n <= MAX_SAFE }

  /** Rounding to a double: exact up to two to the 53rd, and order keeping. */
  ghost predicate Rounds(round: int -> int) {
    && (forall n :: -MAX_SAFE - 1 <= n <= MAX_SAFE + 1 ==> round(n) == n)
    && (forall m, n :: m <= n ==> round(m) <= round(n))
  }

  /** A number as a caller may pass it. */
  datatype Number = NaN | Infinite(positive: bool) | Finite(value: real)
}
