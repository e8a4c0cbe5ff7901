/**
 * The task record (Cursach/Task.h) and its two text helpers (Cursach/Task.cpp).
 */
module Tasks {
  import opened Wrappers
  import opened Numeric
  import opened Calendar
  import opened WString

  /** `enum class TriggerType : int`; a cast from an integer can give it any `int` value. */
  type TriggerType = int32

  const ONCE: TriggerType := 0
  const INTERVAL: TriggerType := 1
  const DAILY: TriggerType := 2
  const WEEKLY: TriggerType := 3

  /** The four trigger kinds the program knows. */
  predicate IsKnownTrigger(t: TriggerType) {
    t == ONCE || t == INTERVAL || t == DAILY || t == WEEKLY
  }

  /** `std::bitset<7>`: index 0 is Sunday, 1 Monday, ..., 6 Saturday. */
  type WeekDays = s: seq<bool> | |s| == 7 witness [false, false, false, false, false, false, false]

  const NO_DAYS: WeekDays := [false, false, false, false, false, false, false]

  /**
   * `struct Task`. The two timeout fields are read by the job executor; the
   * header does not declare them, so their types and zero defaults are assumed.
   */
  datatype Task = Task(
    id: string,
    name: string,
    description: string,
    exePath: string,
    arguments: string,
    workingDirectory: string,
    enabled: bool,
    triggerType: TriggerType,
    runOnceTime: Time,
    intervalMinutes: uint32,
    dailyHour: uint8,
    dailyMinute: uint8,
    dailySecond: uint8,
    weeklyDays: WeekDays,
    weeklyHour: uint8,
    weeklyMinute: uint8,
    weeklySecond: uint8,
    runIfMissed: bool,
    hasExecutionTimeout: bool,
    executionTimeoutMinutes: uint32,
    lastRunTime: Time,
    nextRunTime: TimePoint,
    lastExitCode: int32)

  /** `std::make_shared<Task>()`: the default member initialisers. */
  function NewTask(): Task {
    Task(
      id := "", name := "", description := "", exePath := "", arguments := "", workingDirectory := "",
      enabled := true,
      triggerType := DAILY,
      runOnceTime := UNSET,
      intervalMinutes := 60,
      dailyHour := 12, dailyMinute := 0, dailySecond := 0,
      weeklyDays := NO_DAYS,
      weeklyHour := 12, weeklyMinute := 0, weeklySecond := 0,
      runIfMissed := true,
      hasExecutionTimeout := false, executionTimeoutMinutes := 0,
      lastRunTime := UNSET, nextRunTime := UNSET, lastExitCode := 0)
  }

  /** `TriggerTypeToWString`: upper-case kind names, "UNKNOWN" for any other value. */
  function TriggerTypeToWString(t: TriggerType): (r: string)
    ensures r == "ONCE" <==> t == ONCE
    ensures r == "INTERVAL" <==> t == INTERVAL
    ensures r == "DAILY" <==> t == DAILY
    ensures r == "WEEKLY" <==> t == WEEKLY
    ensures r == "UNKNOWN" <==> !IsKnownTrigger(t)
  {
    if t == ONCE then "ONCE"
    else if t == INTERVAL then "INTERVAL"
    else if t == DAILY then "DAILY"
    else if t == WEEKLY then "WEEKLY"
    else "UNKNOWN"
  }

  function BoolText(b: bool): string {
    if b then "true" else "false"
  }

  /** `part` occurs in `s` at some position. */
  predicate Contains(s: string, part: string) {
    exists k :: 0 <= k <= |s| && MatchAt(s, part, k)
  }

  /** The second part of a concatenation occurs right after the first. */
  lemma MatchAtEnd(x: string, y: string)
    ensures MatchAt(x + y, y, |x|)
  {
    forall j | 0 <= j < |y|
      ensures (x + y)[|x| + j] == y[j]
    {
    }
  }

  /** An occurrence stays where it is when text is appended. */
  lemma MatchAtExtend(s: string, y: string, p: nat, z: string)
    requires MatchAt(s, y, p)
    ensures MatchAt(s + z, y, p)
  {
    forall j | 0 <= j < |y|
      ensures (s + z)[p + j] == y[j]
    {
      assert (s + z)[p + j] == s[p + j];
    }
  }

  /**
   * `TaskToDebugString`; None is the null pointer. A present task's text opens
   * with its id and closes with its executable path and a bracket.
   */
  function TaskToDebugString(task: Option<Task>): (r: string)
    ensures task.None? <==> r == "<null>"
    ensures task.Some? ==>
      var head := "Task[id=" + task.value.id;
      var tail := ", exe=" + task.value.exePath + "]";
      && |head| + |tail| <= |r|
      && r[..|head|] == head
      && r[|r| - |tail|..] == tail
  {
    match task
    case None => "<null>"
    case Some(t) =>
      ("Task[id=" + t.id) + (", name=" + t.name) + (", enabled=" + BoolText(t.enabled))
      + (", trigger=" + TriggerTypeToWString(t.triggerType)) + (", exe=" + t.exePath + "]")
  }

  /** The text of a present task shows its name, its enabled flag and its trigger kind's name. */
  lemma DebugStringFields(t: Task)
    ensures var r := TaskToDebugString(Some(t));
      && Contains(r, ", name=" + t.name)
      && Contains(r, ", enabled=" + BoolText(t.enabled))
      && Contains(r, ", trigger=" + TriggerTypeToWString(t.triggerType))
  {
    var id := "Task[id=" + t.id;
    var name := ", name=" + t.name;
    var enabled := ", enabled=" + BoolText(t.enabled);
    var trigger := ", trigger=" + TriggerTypeToWString(t.triggerType);
    var exe := ", exe=" + t.exePath + "]";
    assert TaskToDebugString(Some(t)) == id + name + enabled + trigger + exe;
    MatchAtEnd(id, name);
    MatchAtExtend(id + name, name, |id|, enabled);
    MatchAtEnd(id + name, enabled);
    MatchAtExtend(id + name + enabled, name, |id|, trigger);
    MatchAtExtend(id + name + enabled, enabled, |id + name|, trigger);
    MatchAtEnd(id + name + enabled, trigger);
    MatchAtExtend(id + name + enabled + trigger, name, |id|, exe);
    MatchAtExtend(id + name + enabled + trigger, enabled, |id + name|, exe);
    MatchAtExtend(id + name + enabled + trigger, trigger, |id + name + enabled|, exe);
  }
}
