/** Instants, to the nanosecond. */
module Times {
  import opened Wrappers

  datatype Instant = Instant(secs: int, nanos: int) {
    predicate Before(other: Instant) {
      secs < other.secs || (secs == other.secs && nanos < other.nanos)
    }

    predicate InRange() {
      MIN_SECS <= secs <= MAX_SECS && 0 <= nanos < 1_000_000_000
    }
  }

  /** The instants a time can hold. */
  type Time = t: Instant | t.InRange() witness Instant(0, 0)

  const MIN_SECS: int := -62_167_219_200
  const MAX_SECS: int := 253_402_300_799
  const DAY: int := 86_400

  function FromUnix(secs: int, nanos: int): Option<Time>
    requires 0 <= nanos
  {
    if MIN_SECS <= secs <= MAX_SECS && nanos < 1_000_000_000 then Some(Instant(secs, nanos)) else None
  }
}
