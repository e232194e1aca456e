/** Vocabulary shared by every module: octets, optional values, the limits of
    pkg/jobs/types.go, and the two clocks (Go instants and stored timestamps). */
module Base {

  type Byte = b: int | 0 <= b < 256

  /** Go strings, Go byte slices and PostgreSQL text and bytea values are all octet sequences here. */
  type Bytes = seq<Byte>

  datatype Option<+T> = None | Some(value: T)

  const MAX_QUEUE_BYTES: nat := 128
  const MAX_KIND_BYTES: nat := 128
  const MAX_WORKER_BYTES: nat := 256
  const MAX_KEY_BYTES: nat := 256
  const MAX_PAYLOAD_BYTES: nat := 1048576
  const MAX_FAILURE_BYTES: nat := 4096
  const MAX_ATTEMPTS: int := 100
  const MAX_DEAD_PAGE: int := 100

  // Go durations, in nanoseconds.
  const MICROSECOND: int := 1000
  const SECOND: int := 1_000_000_000
  const MIN_LEASE: int := SECOND
  const MAX_LEASE: int := 3600 * SECOND
  const MAX_RETRY_DELAY: int := 24 * 3600 * SECOND

  /** A Go `time.Time`: the instant in nanoseconds since the Unix epoch, and
      whether its location is UTC. */
  datatype Time = Time(ns: int, utc: bool) {
    predicate IsZero() { ns == ZERO_US * MICROSECOND }
  }

  /** The zero `time.Time`, 0001-01-01T00:00:00Z, in microseconds since the Unix epoch. */
  const ZERO_US: int := -62_135_596_800_000_000

  const ZERO_TIME := Time(ZERO_US * MICROSECOND, true)

  // The finite timestamptz range, -4713-11-24 through 294276-12-31T23:59:59.999999, in microseconds.
  const MIN_US: int := -210_866_803_200_000_000
  const MAX_US: int := 9_224_318_015_999_999_999

  function Min(a: int, b: int): int { if a < b then a else b }

  /** The octets of an ASCII literal. */
  function Ascii(s: string): (b: Bytes)
    ensures |b| == |s|
    ensures forall i :: 0 <= i < |b| ==> 0 < b[i] < 128
  {
    seq(|s|, i requires 0 <= i < |s| => if 0 < s[i] as int < 128 then s[i] as int else 63)
  }
}
