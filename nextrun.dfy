/**
 * The next-run calculator, `TaskManager::CalculateNextRun`
 * (Cursach/TaskManager.cpp). The clock reading `now` is a parameter.
 */
module NextRun {
  import opened Wrappers
  import opened Numeric
  import opened Calendar
  import opened Tasks

  const TICKS_PER_MINUTE: nat := 60 * TICKS_PER_SECOND

  /**
   * `minutes(task->intervalMinutes)` in ticks. The `minutes` duration counts in
   * a 32-bit `int`, so the unsigned field converts with wrap-around: a count of
   * 2^31 or more becomes negative.
   */
  function IntervalStep(m: uint32): int {
    ToInt32(m) * TICKS_PER_MINUTE
  }

  /** Today at the task's daily clock time. */
  function DailyCandidate(t: Task, now: Time): Time {
    FromTimeT(LocalTimeT(ToTimeT(now), 0, t.dailyHour, t.dailyMinute, t.dailySecond))
  }

  /** The weekday `offset` days after today. */
  function WeekdayAt(now: Time, offset: nat): (d: nat)
    ensures d < 7
  {
    (WeekdayOf(ToTimeT(now)) + offset) % 7
  }

  /** `offset` days after today at the task's weekly clock time. */
  function WeeklyCandidate(t: Task, now: Time, offset: nat): Time {
    FromTimeT(LocalTimeT(ToTimeT(now), offset, t.weeklyHour, t.weeklyMinute, t.weeklySecond))
  }

  /** The weekly scan stops at `offset` when that weekday is set and its candidate is not today in the past. */
  predicate Accepts(t: Task, now: Time, offset: nat) {
    t.weeklyDays[WeekdayAt(now, offset)] && (WeeklyCandidate(t, now, offset) > now || offset > 0)
  }

  /** The `for (offset = o; offset < 7; ++offset)` scan; None when it ends without a `break`. */
  function WeeklyScan(t: Task, now: Time, o: nat): Option<Time>
    decreases 7 - o
  {
    if o >= 7 then None
    else if Accepts(t, now, o) then Some(WeeklyCandidate(t, now, o))
    else WeeklyScan(t, now, o + 1)
  }

  /**
   * The value CalculateNextRun stores in `nextRunTime`; None when it leaves the
   * field as it was (a weekly scan that finds nothing).
   */
  function NextRun(t: Task, now: Time): Option<TimePoint> {
    if t.triggerType == ONCE then
      if t.runOnceTime == UNSET then Some(UNSET)
      else if t.runOnceTime <= now then Some(if t.runIfMissed then now else UNSET)
      else Some(t.runOnceTime)
    else if t.triggerType == INTERVAL then
      var base := if t.lastRunTime == UNSET then now else t.lastRunTime;
      Some(base + IntervalStep(t.intervalMinutes))
    else if t.triggerType == DAILY then
      var tp := DailyCandidate(t, now);
      Some(if tp <= now then tp + TICKS_PER_DAY else tp)
    else if t.triggerType == WEEKLY then
      WeeklyScan(t, now, 0)
    else
      Some(UNSET)
  }

  /** The task after CalculateNextRun: only `nextRunTime` can differ. */
  function Recalculate(t: Task, now: Time): (r: Task)
    ensures r == t.(nextRunTime := r.nextRunTime)
    ensures NextRun(t, now).None? ==> r == t
    ensures NextRun(t, now).Some? ==> r.nextRunTime == NextRun(t, now).value
  {
    match NextRun(t, now)
    case Some(n) => t.(nextRunTime := n)
    case None => t
  }

  /** The weekly `for` loop of CalculateNextRun and its `break`: the time it stores, if any. */
  method ScanWeek(task: Task, now: Time) returns (found: Option<Time>)
    ensures found == WeeklyScan(task, now, 0)
  {
    var tt := ToTimeT(now);
    var today := WeekdayOf(tt);
    var offset := 0;
    while offset < 7
      invariant 0 <= offset <= 7
      invariant WeeklyScan(task, now, offset) == WeeklyScan(task, now, 0)
    {
      var d := (today + offset) % 7;
      if task.weeklyDays[d] {
        var ct := LocalTimeT(tt, offset, task.weeklyHour, task.weeklyMinute, task.weeklySecond);
        var tp := FromTimeT(ct);
        if tp > now || offset > 0 {
          return Some(tp);
        }
      }
      offset := offset + 1;
    }
    return None;
  }

  /** `TaskManager::CalculateNextRun`. */
  method CalculateNextRun(task: Task, now: Time) returns (r: Task)
    ensures r == Recalculate(task, now)
  {
    r := task;
    if task.triggerType == ONCE {
      if task.runOnceTime == UNSET {
        r := r.(nextRunTime := UNSET);
      } else {
        r := r.(nextRunTime := task.runOnceTime);
        if r.nextRunTime <= now {
          if task.runIfMissed {
            r := r.(nextRunTime := now);
          } else {
            r := r.(nextRunTime := UNSET);
          }
        }
      }
    } else if task.triggerType == INTERVAL {
      if task.lastRunTime == UNSET {
        r := r.(nextRunTime := now + ToInt32(task.intervalMinutes) * TICKS_PER_MINUTE);
      } else {
        r := r.(nextRunTime := task.lastRunTime + ToInt32(task.intervalMinutes) * TICKS_PER_MINUTE);
      }
    } else if task.triggerType == DAILY {
      var tt := ToTimeT(now);
      var target := LocalTimeT(tt, 0, task.dailyHour, task.dailyMinute, task.dailySecond);
      var tp := FromTimeT(target);
      if tp <= now {
        tp := tp + TICKS_PER_DAY;
      }
      r := r.(nextRunTime := tp);
    } else if task.triggerType == WEEKLY {
      var found := ScanWeek(task, now);
      if found.Some? {
        r := r.(nextRunTime := found.value);
      }
    } else {
      r := r.(nextRunTime := UNSET);
    }
  }

  // ---------------------------------------------------------------------------
  // Once
  // ---------------------------------------------------------------------------

  /** Once: unset stays unset; a future time is kept; a past time fires now or is skipped. */
  lemma OnceSchedule(t: Task, now: Time)
    requires t.triggerType == ONCE
    ensures NextRun(t, now).Some?
    ensures t.runOnceTime == UNSET ==> NextRun(t, now).value == UNSET
    ensures t.runOnceTime > now ==> NextRun(t, now).value == t.runOnceTime
    ensures t.runOnceTime != UNSET && t.runOnceTime <= now && t.runIfMissed ==> NextRun(t, now).value == now
    ensures t.runOnceTime != UNSET && t.runOnceTime <= now && !t.runIfMissed ==> NextRun(t, now).value == UNSET
  {
  }

  /** Once never schedules into the past: the result is unset, `now`, or a later time. */
  lemma OnceNotInPast(t: Task, now: Time)
    requires t.triggerType == ONCE
    ensures NextRun(t, now).Some?
    ensures NextRun(t, now).value == UNSET || NextRun(t, now).value >= now
    ensures NextRun(t, now).value != UNSET ==> NextRun(t, now).value == now || NextRun(t, now).value == t.runOnceTime
  {
  }

  // ---------------------------------------------------------------------------
  // Interval
  // ---------------------------------------------------------------------------

  /**
   * Interval: anchored to the last start, or to `now` when never run, and moved
   * by the interval read as a 32-bit `int` number of minutes.
   */
  lemma IntervalSchedule(t: Task, now: Time)
    requires t.triggerType == INTERVAL
    ensures t.lastRunTime == UNSET ==> NextRun(t, now) == Some(now + ToInt32(t.intervalMinutes) * TICKS_PER_MINUTE)
    ensures t.lastRunTime != UNSET ==> NextRun(t, now) == Some(t.lastRunTime + ToInt32(t.intervalMinutes) * TICKS_PER_MINUTE)
  {
  }

  /**
   * Interval, by size of the stored count: below 2^31 the next run is that many
   * minutes after the anchor; from 2^31 on (a stored -1 reads back as
   * 4294967295) the count wraps and the next run lies 2^32 - m minutes before
   * the anchor.
   */
  lemma IntervalWrap(t: Task, now: Time)
    requires t.triggerType == INTERVAL
    ensures var base := if t.lastRunTime == UNSET then now else t.lastRunTime;
      && (t.intervalMinutes < 0x8000_0000 ==> NextRun(t, now) == Some(base + t.intervalMinutes * TICKS_PER_MINUTE))
      && (t.intervalMinutes >= 0x8000_0000 ==>
            NextRun(t, now) == Some(base - (0x1_0000_0000 - t.intervalMinutes) * TICKS_PER_MINUTE)
            && NextRun(t, now).value < base)
  {
  }

  /** Interval: the result depends on `lastRunTime`, `intervalMinutes` and `now` only. */
  lemma IntervalDependsOnlyOnItsFields(t: Task, u: Task, now: Time)
    requires t.triggerType == INTERVAL && u.triggerType == INTERVAL
    requires t.lastRunTime == u.lastRunTime && t.intervalMinutes == u.intervalMinutes
    ensures NextRun(t, now) == NextRun(u, now)
  {
  }

  // ---------------------------------------------------------------------------
  // Daily
  // ---------------------------------------------------------------------------

  /** A clock time that the editing boundary admits: 00:00:00 to 23:59:59. */
  predicate ValidClock(h: nat, m: nat, s: nat) {
    h < 24 && m < 60 && s < 60
  }

  /** A whole-second time whose local clock reads `tod` seconds past midnight. */
  predicate AtClock(x: Time, tod: nat) {
    x % TICKS_PER_SECOND == 0 && ToTimeT(x) % SECONDS_PER_DAY == tod
  }

  lemma TimeOfDayBound(h: nat, m: nat, s: nat)
    requires ValidClock(h, m, s)
    ensures TimeOfDay(h, m, s) < SECONDS_PER_DAY
  {
  }

  /** Midnight of the day holding second `s`, in ticks, and the clock reading of a tick count. */
  lemma MidnightFacts(now: Time)
    ensures ToTimeT(now) / SECONDS_PER_DAY * SECONDS_PER_DAY * TICKS_PER_SECOND <= now
    ensures now < (ToTimeT(now) / SECONDS_PER_DAY * SECONDS_PER_DAY + SECONDS_PER_DAY) * TICKS_PER_SECOND
  {
  }

  /** A time at clock `tod` on day `day` has that clock reading. */
  lemma AtClockOfDay(day: nat, tod: nat)
    requires tod < SECONDS_PER_DAY
    ensures AtClock((day * SECONDS_PER_DAY + tod) * TICKS_PER_SECOND, tod)
  {
    var x := (day * SECONDS_PER_DAY + tod) * TICKS_PER_SECOND;
    assert ToTimeT(x) == day * SECONDS_PER_DAY + tod;
  }

  /** Two times with the same clock reading within one day of each other are equal. */
  lemma AtClockWithinADay(x: Time, y: Time, tod: nat)
    requires AtClock(x, tod) && AtClock(y, tod)
    requires x <= y < x + TICKS_PER_DAY
    ensures x == y
  {
    var sx, sy := ToTimeT(x), ToTimeT(y);
    assert x == sx * TICKS_PER_SECOND && y == sy * TICKS_PER_SECOND;
    assert sx <= sy < sx + SECONDS_PER_DAY;
    assert (sy - sx) % SECONDS_PER_DAY == 0;
  }

  /**
   * The arithmetic behind the daily rule: with `tp` the clock time `tod` on the
   * day holding `now`, `tp` (or `tp` plus a day once `tp` is not after `now`) is
   * the first time after `now` at that clock reading.
   */
  lemma NextClockTime(now: Time, day: nat, tod: nat, r: Time)
    requires tod < SECONDS_PER_DAY
    requires day * SECONDS_PER_DAY * TICKS_PER_SECOND <= now < (day * SECONDS_PER_DAY + SECONDS_PER_DAY) * TICKS_PER_SECOND
    requires var tp := (day * SECONDS_PER_DAY + tod) * TICKS_PER_SECOND;
      r == if tp <= now then tp + TICKS_PER_DAY else tp
    ensures now < r <= now + TICKS_PER_DAY
    ensures AtClock(r, tod)
    ensures forall x :: now < x < r ==> !AtClock(x, tod)
  {
    var tp := (day * SECONDS_PER_DAY + tod) * TICKS_PER_SECOND;
    AtClockOfDay(day, tod);
    AtClockOfDay(day + 1, tod);
    assert tp + TICKS_PER_DAY == ((day + 1) * SECONDS_PER_DAY + tod) * TICKS_PER_SECOND;
    forall x | now < x < r
      ensures !AtClock(x, tod)
    {
      if AtClock(x, tod) {
        if tp <= now {
          AtClockWithinADay(tp, x, tod);
        } else {
          AtClockWithinADay(x, tp, tod);
        }
      }
    }
  }

  /**
   * Daily, for a valid clock time: the result is the first moment strictly after
   * `now` at which the local clock reads the configured time, so it lies in
   * (now, now + 24 h].
   */
  lemma DailyIsNextClockTime(t: Task, now: Time)
    requires t.triggerType == DAILY
    requires ValidClock(t.dailyHour, t.dailyMinute, t.dailySecond)
    ensures NextRun(t, now).Some?
    ensures var r := NextRun(t, now).value;
      && now < r <= now + TICKS_PER_DAY
      && AtClock(r, TimeOfDay(t.dailyHour, t.dailyMinute, t.dailySecond))
      && forall x :: now < x < r ==> !AtClock(x, TimeOfDay(t.dailyHour, t.dailyMinute, t.dailySecond))
  {
    var tod := TimeOfDay(t.dailyHour, t.dailyMinute, t.dailySecond);
    TimeOfDayBound(t.dailyHour, t.dailyMinute, t.dailySecond);
    var day := ToTimeT(now) / SECONDS_PER_DAY;
    MidnightFacts(now);
    assert DailyCandidate(t, now) == (day * SECONDS_PER_DAY + tod) * TICKS_PER_SECOND;
    NextClockTime(now, day, tod, NextRun(t, now).value);
  }

  /** Daily, recomputed at its own result, advances by exactly 24 hours. */
  lemma DailyAdvancesByOneDay(t: Task, now: Time)
    requires t.triggerType == DAILY
    requires ValidClock(t.dailyHour, t.dailyMinute, t.dailySecond)
    ensures NextRun(t, now).Some? && NextRun(t, now).value > now
    ensures NextRun(t, NextRun(t, now).value) == Some(NextRun(t, now).value + TICKS_PER_DAY)
  {
    DailyIsNextClockTime(t, now);
    var r := NextRun(t, now).value;
    var tod := TimeOfDay(t.dailyHour, t.dailyMinute, t.dailySecond);
    TimeOfDayBound(t.dailyHour, t.dailyMinute, t.dailySecond);
    var s := ToTimeT(r);
    assert r == s * TICKS_PER_SECOND;
    assert s / SECONDS_PER_DAY * SECONDS_PER_DAY + tod == s;
    assert DailyCandidate(t, r) == r;
  }

  // ---------------------------------------------------------------------------
  // Weekly
  // ---------------------------------------------------------------------------

  /**
   * Weekly: the result is the candidate of the smallest offset in 0..6 that the
   * scan accepts, and the field is left unchanged exactly when no offset is accepted.
   */
  lemma {:induction false} WeeklyScanFinds(t: Task, now: Time, o: nat)
    requires o <= 7
    ensures WeeklyScan(t, now, o).Some? <==> exists k :: o <= k < 7 && Accepts(t, now, k)
    ensures WeeklyScan(t, now, o).Some? ==>
      exists k :: o <= k < 7 && Accepts(t, now, k) && WeeklyScan(t, now, o).value == WeeklyCandidate(t, now, k)
        && forall j :: o <= j < k ==> !Accepts(t, now, j)
    decreases 7 - o
  {
    if o < 7 {
      WeeklyScanFinds(t, now, o + 1);
      if !Accepts(t, now, o) && WeeklyScan(t, now, o + 1).Some? {
        var k :| o + 1 <= k < 7 && Accepts(t, now, k) && WeeklyScan(t, now, o + 1).value == WeeklyCandidate(t, now, k)
          && forall j :: o + 1 <= j < k ==> !Accepts(t, now, j);
        assert forall j :: o <= j < k ==> !Accepts(t, now, j);
      }
    }
  }

  lemma WeeklySchedule(t: Task, now: Time)
    requires t.triggerType == WEEKLY
    ensures NextRun(t, now).Some? <==> exists k :: 0 <= k < 7 && Accepts(t, now, k)
    ensures NextRun(t, now).Some? ==>
      exists k :: 0 <= k < 7 && Accepts(t, now, k) && NextRun(t, now).value == WeeklyCandidate(t, now, k)
        && forall j :: 0 <= j < k ==> !Accepts(t, now, j)
    ensures NextRun(t, now).None? ==> Recalculate(t, now) == t
  {
    WeeklyScanFinds(t, now, 0);
  }

  /** Weekly with no weekday set leaves `nextRunTime` as it was. */
  lemma WeeklyEmptyMaskUnchanged(t: Task, now: Time)
    requires t.triggerType == WEEKLY && t.weeklyDays == NO_DAYS
    ensures NextRun(t, now).None? && Recalculate(t, now) == t
  {
    WeeklyScanFinds(t, now, 0);
  }

  /** Weekly, for a valid clock time: a result is strictly after `now` and less than 7 days later. */
  lemma WeeklyWithinAWeek(t: Task, now: Time)
    requires t.triggerType == WEEKLY
    requires ValidClock(t.weeklyHour, t.weeklyMinute, t.weeklySecond)
    requires NextRun(t, now).Some?
    ensures now < NextRun(t, now).value < now + 7 * TICKS_PER_DAY
  {
    WeeklyScanFinds(t, now, 0);
    var k :| 0 <= k < 7 && Accepts(t, now, k) && NextRun(t, now).value == WeeklyCandidate(t, now, k);
    TimeOfDayBound(t.weeklyHour, t.weeklyMinute, t.weeklySecond);
    MidnightFacts(now);
    var day := ToTimeT(now) / SECONDS_PER_DAY;
    var tod := TimeOfDay(t.weeklyHour, t.weeklyMinute, t.weeklySecond);
    assert WeeklyCandidate(t, now, k) == ((day + k) * SECONDS_PER_DAY + tod) * TICKS_PER_SECOND;
  }

  /**
   * Weekly with only today's weekday set, after today's clock time has passed:
   * the scan never looks at next week, so `nextRunTime` is left as it was.
   */
  lemma WeeklyOnlyTodayPassedUnchanged(t: Task, now: Time)
    requires t.triggerType == WEEKLY
    requires forall d :: 0 <= d < 7 ==> (t.weeklyDays[d] <==> d == WeekdayAt(now, 0))
    requires WeeklyCandidate(t, now, 0) <= now
    ensures NextRun(t, now).None? && Recalculate(t, now) == t
  {
    forall k | 0 < k < 7
      ensures !Accepts(t, now, k)
    {
      OtherWeekday(WeekdayOf(ToTimeT(now)), k);
    }
    WeeklyScanFinds(t, now, 0);
  }

  /** A day 1 to 6 days on has another weekday. */
  lemma OtherWeekday(w: nat, k: nat)
    requires 0 < k < 7
    ensures (w + k) % 7 != (w + 0) % 7
  {
    var q, r := w / 7, w % 7;
    if r + k < 7 {
      assert w + k == 7 * q + (r + k);
    } else {
      assert w + k == 7 * (q + 1) + (r + k - 7);
    }
  }
}
