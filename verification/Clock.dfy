/** Time as the services read it: nanoseconds since the epoch on one clock that never goes back. */
module Clock {
  const SECOND := 1_000_000_000
  const HOUR := 3600 * SECOND

  /** Go's Time.Unix(): whole seconds, rounded down. */
  function Unix(now: nat): nat {
    now / SECOND
  }

  lemma UnixBounds(now: nat)
    ensures Unix(now) * SECOND <= now < (Unix(now) + 1) * SECOND
  {
  }
}
