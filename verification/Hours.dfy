/** The clock's units, and the floors that destructive clocks are held to. */
module Hours {
  const HOUR_MS := 3_600_000

  /** The shortest grace a warning may promise, in hours. */
  const MIN_GRACE_HOURS := 1

  /** The least a release or a close may wait in all, in hours. */
  const MIN_REAP_HOURS := 2
}
