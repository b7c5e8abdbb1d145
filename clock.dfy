/**
 * The time quantiser: wall-clock instants become counts of 10-millisecond
 * Sonyflake time units, and the back-off sleep is computed so that it ends at
 * the start of a given unit.
 *
 * An instant (Go's time.Time) is an integer count of nanoseconds since
 * 1970-01-01 00:00:00 UTC, equal to its UnixNano value inside the int64 range.
 */
module Clock {
  import opened GoInts

  type Time = int

  /** One Sonyflake time unit in nanoseconds (10 msec). */
  const SonyflakeTimeUnit: int := 10_000_000

  /** The zero time.Time, January 1 of year 1, 00:00:00 UTC. */
  const ZeroTime: Time := -62_135_596_800 * 1_000_000_000

  /** The start time used when the settings leave it zero: 2014-09-01 00:00:00 UTC. */
  const DefaultStartTime: Time := 1_409_529_600 * 1_000_000_000

  predicate IsZero(t: Time) {
    t == ZeroTime
  }

  /** time.Time.After: t is a strictly later instant than u. */
  predicate After(t: Time, u: Time) {
    t > u
  }

  /** toSonyflakeTime: the instant in whole time units, Go's division truncating toward zero. */
  function ToSonyflakeTime(t: Time): (r: int) {
    Quo(t, SonyflakeTimeUnit)
  }

  /** currentElapsedTime with the clock reading passed in: units elapsed since startTime. */
  function CurrentElapsedTime(startTime: int, now: Time): (r: int) {
    ToSonyflakeTime(now) - startTime
  }

  /** sleepTime with the clock reading passed in: overtime units less the part of the current unit already gone. */
  function SleepTime(overtime: int, now: Time): (r: int) {
    overtime * SonyflakeTimeUnit - Rem(now, SonyflakeTimeUnit)
  }

  /**
   * Quantisation truncates: an instant at or after 1970 lies in [r, r + 1) units,
   * an instant before it in (r - 1, r] units.
   */
  lemma ToSonyflakeTimeTruncates(t: Time)
    ensures var r := ToSonyflakeTime(t);
      && (t >= 0 ==> r * SonyflakeTimeUnit <= t < (r + 1) * SonyflakeTimeUnit)
      && (t < 0 ==> (r - 1) * SonyflakeTimeUnit < t <= r * SonyflakeTimeUnit)
  {
    QuoRem(t, SonyflakeTimeUnit);
  }

  /** Quantisation never puts a later instant in an earlier unit. */
  lemma ToSonyflakeTimeMonotone(t: Time, u: Time)
    requires t <= u
    ensures ToSonyflakeTime(t) <= ToSonyflakeTime(u)
  {
    ToSonyflakeTimeTruncates(t);
    ToSonyflakeTimeTruncates(u);
    var a, b := ToSonyflakeTime(t), ToSonyflakeTime(u);
    if a > b {
      MulLe(b + 1, a, SonyflakeTimeUnit);
    }
  }

  /** Sleeping SleepTime(overtime, now) from now wakes exactly at the start of unit ToSonyflakeTime(now) + overtime. */
  lemma SleepEndsAtUnitStart(overtime: int, now: Time)
    ensures now + SleepTime(overtime, now) == (ToSonyflakeTime(now) + overtime) * SonyflakeTimeUnit
  {
    QuoRem(now, SonyflakeTimeUnit);
  }

  /** For a clock at or after 1970 and overtime >= 1 the sleep is positive and at most overtime units. */
  lemma SleepTimeBounds(overtime: int, now: Time)
    requires overtime >= 1 && now >= 0
    ensures (overtime - 1) * SonyflakeTimeUnit < SleepTime(overtime, now) <= overtime * SonyflakeTimeUnit
  {
    QuoRem(now, SonyflakeTimeUnit);
  }

  /**
   * When overtime is the distance from the current elapsed time to a logical
   * elapsed time, the sleep ends at the start of that logical unit.
   */
  lemma SleepReachesLogicalTime(startTime: int, elapsedTime: int, now: Time)
    ensures var overtime := elapsedTime - CurrentElapsedTime(startTime, now);
      now + SleepTime(overtime, now) == (startTime + elapsedTime) * SonyflakeTimeUnit
  {
    SleepEndsAtUnitStart(elapsedTime - CurrentElapsedTime(startTime, now), now);
  }

  /**
   * For a start at or after 1970 and no later than now, the elapsed time is
   * the number of whole units between the two instants, or one more: the
   * start's unit counts from its beginning.
   */
  lemma CurrentElapsedTimeBounds(start: Time, now: Time)
    requires 0 <= start <= now
    ensures var q := Quo(now - start, SonyflakeTimeUnit);
      q <= CurrentElapsedTime(ToSonyflakeTime(start), now) <= q + 1
  {
    ToSonyflakeTimeTruncates(start);
    ToSonyflakeTimeTruncates(now);
    QuoRem(now - start, SonyflakeTimeUnit);
    var a, b, q := ToSonyflakeTime(start), ToSonyflakeTime(now), Quo(now - start, SonyflakeTimeUnit);
    if b - a < q {
      MulLe(b - a + 1, q, SonyflakeTimeUnit);
    }
    if b - a > q + 1 {
      MulLe(q + 2, b - a, SonyflakeTimeUnit);
    }
  }

  /**
   * The elapsed time is a difference of two quantised instants, not the
   * quantised difference: with a start 5 ms into a unit, 7 ms later one unit
   * boundary has been crossed and the elapsed time is 1.
   */
  lemma ElapsedTimeCountsUnitBoundaries()
    ensures CurrentElapsedTime(ToSonyflakeTime(5_000_000), 12_000_000) == 1
    ensures Quo(12_000_000 - 5_000_000, SonyflakeTimeUnit) == 0
  {
  }
}
