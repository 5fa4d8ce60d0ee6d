/** Small vocabulary shared by the other modules.  Instants and durations are integers counting
    nanoseconds; instants come from a clock that never runs backwards. */
module Basics {
  datatype Option<+T> = None | Some(value: T)

  const SECOND: int := 1_000_000_000
  const MINUTE: int := 60 * SECOND

  /** The whole seconds of an instant, rounded down. */
  function UnixSeconds(t: int): int { t / SECOND }

  lemma UnixSecondsBounds(t: int)
    ensures UnixSeconds(t) * SECOND <= t < (UnixSeconds(t) + 1) * SECOND
  {
  }

  lemma UnixSecondsMonotone(t: int, u: int)
    requires t <= u
    ensures UnixSeconds(t) <= UnixSeconds(u)
  {
    UnixSecondsBounds(t);
    UnixSecondsBounds(u);
  }

  /** The next key of a loop over a Go map, whose order is arbitrary. */
  method Pick<K>(keys: set<K>) returns (key: K)
    requires keys != {}
    ensures key in keys
  {
    key :| key in keys;
  }
}
