/**
 * The clock and the local calendar the scheduler reads its times in.
 *
 * A time is a count of system-clock ticks (100 ns each) since the epoch; 0 is
 * the zero time point, which the program uses for "unset" and "never". The
 * local calendar has fixed-length days of 86400 seconds and no daylight-saving
 * change, its days start at multiples of 86400 seconds, and the weekday of day
 * `d` is `(d + 4) % 7` (0 = Sunday; day 0, 1 January 1970, was a Thursday).
 * `to_time_t` truncates to whole seconds; `mktime` normalises any hour, minute,
 * second and day-of-month values by plain arithmetic in this calendar.
 */
module Calendar {

  type Time = nat

  /**
   * A time point that may lie before the epoch. Only `nextRunTime` needs it:
   * an interval step whose minute count wraps to a negative `int` can move it
   * below zero.
   */
  type TimePoint = int

  const UNSET: Time := 0
  const TICKS_PER_SECOND: nat := 10_000_000
  const SECONDS_PER_DAY: nat := 86400
  const TICKS_PER_DAY: nat := 864_000_000_000
  const EPOCH_WEEKDAY: nat := 4

  /** `system_clock::to_time_t`. */
  function ToTimeT(t: Time): nat {
    t / TICKS_PER_SECOND
  }

  /** `system_clock::from_time_t`. */
  function FromTimeT(s: nat): Time {
    s * TICKS_PER_SECOND
  }

  /** `tm_wday` of the local date of second `s`. */
  function WeekdayOf(s: nat): (w: nat)
    ensures w < 7
  {
    (s / SECONDS_PER_DAY + EPOCH_WEEKDAY) % 7
  }

  /** Seconds since local midnight for a clock reading `h:m:sec`. */
  function TimeOfDay(h: nat, m: nat, sec: nat): nat {
    h * 3600 + m * 60 + sec
  }

  /**
   * `mktime` of the local date of second `s`, moved `dayOffset` days on, with
   * its clock fields set to `h:m:sec`.
   */
  function LocalTimeT(s: nat, dayOffset: nat, h: nat, m: nat, sec: nat): nat {
    s / SECONDS_PER_DAY * SECONDS_PER_DAY + dayOffset * SECONDS_PER_DAY + TimeOfDay(h, m, sec)
  }
}
