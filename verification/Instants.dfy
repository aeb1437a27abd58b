/** Instants are whole nanoseconds since the Unix epoch, in UTC. */
module Instants {
  const SECOND: int := 1_000_000_000
  const MINUTE: int := 60 * SECOND
  const HOUR: int := 60 * MINUTE

  /** time.Time{}: the first instant of year 1, before any reading of the clock. */
  const ZERO_TIME: int := -62_135_596_800 * SECOND

  /** Time.Unix: whole seconds since the epoch, rounded down. */
  function Unix(t: int): int { t / SECOND }

  /** What is left of an instant once a metav1.Time has been stored: whole seconds. */
  function Floor(t: int): (r: int)
    ensures r <= t < r + SECOND && Unix(r) == Unix(t) && Whole(r)
  {
    Unix(t) * SECOND
  }

  predicate Whole(t: int) { t % SECOND == 0 }

  /** Storing keeps the order of instants and loses nothing on whole seconds. */
  lemma FloorOrder(s: int, t: int)
    ensures s <= t ==> Floor(s) <= Floor(t) && Unix(s) <= Unix(t)
    ensures Whole(t) ==> Floor(t) == t
    ensures Whole(s) && s <= t ==> s <= Floor(t)
    ensures Unix(s) < Unix(t) <==> Floor(s) < Floor(t)
    ensures Unix(s) == Unix(t) <==> Floor(s) == Floor(t)
  {
  }

  /** A Go time.Duration is a signed 64-bit number of nanoseconds; products wrap. */
  function Wrap64(d: int): (r: int)
    ensures -0x8000_0000_0000_0000 <= r < 0x8000_0000_0000_0000
    ensures -0x8000_0000_0000_0000 <= d < 0x8000_0000_0000_0000 ==> r == d
  {
    (d + 0x8000_0000_0000_0000) % 0x1_0000_0000_0000_0000 - 0x8000_0000_0000_0000
  }

  /** What wrapping takes away is a multiple of 2 to the 64th. */
  lemma WrapsAround(d: int)
    ensures (d - Wrap64(d)) % 0x1_0000_0000_0000_0000 == 0
  {
  }
}
