/** Freshness windows (src/freshness.ts), shared by the readback comparators. Times are milliseconds;
    a timestamp that does not parse is a schema error and not modelled here. */
module Freshness {
  datatype Window = Window(now: int, maxAgeMs: int)

  /** checkObservationFreshness: not in the future and not older than the window allows. */
  predicate ObservationFresh(observedAt: int, window: Window) {
    observedAt <= window.now && window.now - observedAt <= window.maxAgeMs
  }

  /** checkNotExpired: the instant of expiry itself still passes. */
  predicate NotExpired(expiresAt: int, now: int) { now <= expiresAt }
}
