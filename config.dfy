/** The tuning constants of CursorConfig (main.cpp:15-22) that the core uses. */
module Config {

  /** Pointer speed, in pixels per second, above which a sample counts as a shake. */
  const SpeedThreshold: int := 3000

  /** How long, in milliseconds, the enlarged cursor stays before it may be restored. */
  const EnlargeDurationMs: int := 1000

  /** The id of the periodic timer whose ticks drive the restore check. */
  const TimerId: int := 1

  /** The factor by which the enlarged cursor is scaled from the arrow. */
  const LargeScale: real := 2.0

  /** Milliseconds per second, used to state speeds per second. */
  const MsPerSecond: int := 1000
}
