/**
 * The scheduler, `class Scheduler` (Cursach/Scheduler.cpp): the `running` and
 * `needWake` flags, and one pass of the `ThreadProc` loop body. The clock
 * readings of a pass and the operating system's answers are parameters;
 * threads, the condition variable and the detached launch thread are left out.
 */
module Scheduling {
  import opened Wrappers
  import opened Numeric
  import opened Calendar
  import opened Tasks
  import opened NextRun
  import opened Store
  import opened JobExecutor

  /** A task the scan may run now: enabled, with a set next run that has come. */
  predicate Due(t: Task, now: Time) {
    t.enabled && t.nextRunTime != UNSET && t.nextRunTime <= now
  }

  /** A task the scan waits for: enabled, with a set next run still to come. */
  predicate Pending(t: Task, now: Time) {
    t.enabled && t.nextRunTime != UNSET && t.nextRunTime > now
  }

  // ---------------------------------------------------------------------------
  // The selection scan
  // ---------------------------------------------------------------------------

  /** The scan's two variables: the index of `nextTask` (None for nullptr) and `nextDeadline` (0 for unset). */
  datatype Pick = Pick(nextTask: Option<nat>, nextDeadline: Time)

  /** One turn of the `for (auto& t : tasks)` body at index `i`. */
  function ScanTurn(tasks: seq<Task>, now: Time, p: Pick, i: nat): Pick
    requires i < |tasks| && (p.nextTask.Some? ==> p.nextTask.value < |tasks|)
  {
    var t := tasks[i];
    if !t.enabled || t.nextRunTime == UNSET then p
    else if t.nextRunTime <= now then
      if p.nextTask.None? || t.nextRunTime < tasks[p.nextTask.value].nextRunTime then p.(nextTask := Some(i)) else p
    else if p.nextTask.None? then
      if p.nextDeadline == UNSET || t.nextRunTime < p.nextDeadline then p.(nextDeadline := t.nextRunTime) else p
    else if t.nextRunTime < p.nextDeadline then p.(nextDeadline := t.nextRunTime)
    else p
  }

  /** The scan over the first `n` tasks. */
  function ScanPrefix(tasks: seq<Task>, now: Time, n: nat): (p: Pick)
    requires n <= |tasks|
    ensures p.nextTask.Some? ==> p.nextTask.value < n
  {
    if n == 0 then Pick(None, UNSET) else ScanTurn(tasks, now, ScanPrefix(tasks, now, n - 1), n - 1)
  }

  /** The scan over the whole snapshot. */
  function Selection(tasks: seq<Task>, now: Time): Pick {
    ScanPrefix(tasks, now, |tasks|)
  }

  /** The selection loop of `ThreadProc` (lines 44-67), with its `continue`s. */
  method Scan(tasks: seq<Task>, now: Time) returns (nextTask: Option<nat>, nextDeadline: Time)
    ensures Pick(nextTask, nextDeadline) == Selection(tasks, now)
  {
    nextTask, nextDeadline := None, UNSET;
    for i := 0 to |tasks|
      invariant Pick(nextTask, nextDeadline) == ScanPrefix(tasks, now, i)
    {
      var t := tasks[i];
      if !t.enabled {
        continue;
      }
      if t.nextRunTime == UNSET {
        continue;
      }
      if t.nextRunTime <= now {
        if nextTask.None? || t.nextRunTime < tasks[nextTask.value].nextRunTime {
          nextTask := Some(i);
        }
      } else {
        if nextTask.None? {
          if nextDeadline == UNSET || t.nextRunTime < nextDeadline {
            nextDeadline := t.nextRunTime;
          }
        } else {
          if t.nextRunTime < nextDeadline {
            nextDeadline := t.nextRunTime;
          }
        }
      }
    }
  }

  /**
   * What the scan over the first `n` tasks has established about `nextTask`:
   * it is set exactly when one of them is due, and then to the first due task
   * with the earliest next run.
   */
  predicate SelectInv(tasks: seq<Task>, now: Time, n: nat, p: Pick)
    requires n <= |tasks|
  {
    && (p.nextTask.Some? ==> p.nextTask.value < n)
    && (p.nextTask.None? <==> forall j :: 0 <= j < n ==> !Due(tasks[j], now))
    && (p.nextTask.Some? ==>
          var i := p.nextTask.value;
          && Due(tasks[i], now)
          && (forall j :: 0 <= j < n && Due(tasks[j], now) ==> tasks[i].nextRunTime <= tasks[j].nextRunTime)
          && (forall j :: 0 <= j < i && Due(tasks[j], now) ==> tasks[i].nextRunTime < tasks[j].nextRunTime))
  }

  /**
   * What the scan over the first `n` tasks has established about `nextDeadline`
   * while no task is due: 0 when none of them is pending, else the earliest
   * pending next run.
   */
  predicate DeadlineInv(tasks: seq<Task>, now: Time, n: nat, p: Pick)
    requires n <= |tasks|
  {
    p.nextTask.None? ==>
      && (p.nextDeadline == UNSET <==> forall j :: 0 <= j < n ==> !Pending(tasks[j], now))
      && (p.nextDeadline != UNSET ==> exists j :: 0 <= j < n && Pending(tasks[j], now) && tasks[j].nextRunTime == p.nextDeadline)
      && (forall j :: 0 <= j < n && Pending(tasks[j], now) ==> p.nextDeadline <= tasks[j].nextRunTime)
  }

  /** One turn of the scan keeps SelectInv. */
  lemma SelectStep(tasks: seq<Task>, now: Time, n: nat, q: Pick)
    requires n < |tasks| && SelectInv(tasks, now, n, q)
    ensures SelectInv(tasks, now, n + 1, ScanTurn(tasks, now, q, n))
  {
  }

  /** One turn of the scan keeps DeadlineInv. */
  lemma DeadlineStep(tasks: seq<Task>, now: Time, n: nat, q: Pick)
    requires n < |tasks| && (q.nextTask.Some? ==> q.nextTask.value < n)
    requires DeadlineInv(tasks, now, n, q)
    ensures DeadlineInv(tasks, now, n + 1, ScanTurn(tasks, now, q, n))
  {
    var p := ScanTurn(tasks, now, q, n);
    if q.nextTask.None? && p.nextTask.None? && q.nextDeadline != UNSET && p.nextDeadline == q.nextDeadline {
      var j :| 0 <= j < n && Pending(tasks[j], now) && tasks[j].nextRunTime == q.nextDeadline;
      assert 0 <= j < n + 1 && Pending(tasks[j], now) && tasks[j].nextRunTime == p.nextDeadline;
    }
  }

  lemma {:induction false} ScanSelectFacts(tasks: seq<Task>, now: Time, n: nat)
    requires n <= |tasks|
    ensures SelectInv(tasks, now, n, ScanPrefix(tasks, now, n))
  {
    if n > 0 {
      ScanSelectFacts(tasks, now, n - 1);
      SelectStep(tasks, now, n - 1, ScanPrefix(tasks, now, n - 1));
    }
  }

  lemma {:induction false} ScanDeadlineFacts(tasks: seq<Task>, now: Time, n: nat)
    requires n <= |tasks|
    ensures DeadlineInv(tasks, now, n, ScanPrefix(tasks, now, n))
  {
    if n > 0 {
      ScanDeadlineFacts(tasks, now, n - 1);
      DeadlineStep(tasks, now, n - 1, ScanPrefix(tasks, now, n - 1));
    }
  }

  /** The selected task is due, no due task runs earlier, and among equal times the first in scan order wins. */
  lemma SelectedIsEarliestDue(tasks: seq<Task>, now: Time)
    requires Selection(tasks, now).nextTask.Some?
    ensures var i := Selection(tasks, now).nextTask.value;
      && i < |tasks| && Due(tasks[i], now)
      && (forall j :: 0 <= j < |tasks| && Due(tasks[j], now) ==> tasks[i].nextRunTime <= tasks[j].nextRunTime)
      && (forall j :: 0 <= j < i && Due(tasks[j], now) ==> tasks[i].nextRunTime < tasks[j].nextRunTime)
  {
    ScanSelectFacts(tasks, now, |tasks|);
  }

  /** A task is selected exactly when one is due; disabled tasks and unset times never count. */
  lemma SelectsIffSomeDue(tasks: seq<Task>, now: Time)
    ensures Selection(tasks, now).nextTask.Some? <==> exists j :: 0 <= j < |tasks| && Due(tasks[j], now)
  {
    ScanSelectFacts(tasks, now, |tasks|);
  }

  /** With nothing due, the deadline is the earliest pending next run, or 0 when nothing is pending. */
  lemma DeadlineIsEarliestPending(tasks: seq<Task>, now: Time)
    requires Selection(tasks, now).nextTask.None?
    ensures var d := Selection(tasks, now).nextDeadline;
      && (d == UNSET <==> forall j :: 0 <= j < |tasks| ==> !Pending(tasks[j], now))
      && (d != UNSET ==> d > now && exists j :: 0 <= j < |tasks| && Pending(tasks[j], now) && tasks[j].nextRunTime == d)
      && (forall j :: 0 <= j < |tasks| && Pending(tasks[j], now) ==> d <= tasks[j].nextRunTime)
  {
    ScanDeadlineFacts(tasks, now, |tasks|);
  }

  /** A disabled task is never selected, at any time. */
  lemma DisabledNeverSelected(tasks: seq<Task>, i: nat, now: Time)
    requires i < |tasks| && !tasks[i].enabled
    ensures Selection(tasks, now).nextTask != Some(i)
  {
    ScanSelectFacts(tasks, now, |tasks|);
  }

  // ---------------------------------------------------------------------------
  // One pass of the loop
  // ---------------------------------------------------------------------------

  /** The fallback wait when there is no deadline: five seconds. */
  const WAIT_FALLBACK: nat := 5 * TICKS_PER_SECOND

  /** `wait_for(seconds(5))` or `wait_until(nextDeadline)`; either ends early once `!running || needWake`. */
  datatype WaitPlan = WaitFor(ticks: nat) | WaitUntil(deadline: Time)

  datatype Iteration =
    | Stopped                                 // the loop condition `running` is false
    | LaunchedAsync(index: nat)               // a repeating task was dispatched to a background thread
    | RanOnce(index: nat, exitCode: int32)    // a Once task was run to its end
    | Waited(plan: WaitPlan)                  // nothing was dispatched

  /** A repeating trigger: launched in the background after the reschedule. */
  predicate Repeating(t: TriggerType) {
    t == INTERVAL || t == DAILY || t == WEEKLY
  }

  function PlanFor(d: Time): WaitPlan {
    if d == UNSET then WaitFor(WAIT_FALLBACK) else WaitUntil(d)
  }

  /**
   * One pass over the store's list `tasks` while running: `now` is the scan's
   * clock reading, `dispatchNow` the one stored in `lastRunTime`, `calcNow` the
   * one inside CalculateNextRun; `host` and `finish` are RunTask's.
   */
  function Pass(tasks: seq<Task>, now: Time, dispatchNow: Time, calcNow: Time, host: Host, finish: Time): (Iteration, seq<Task>) {
    var sel := Selection(tasks, now);
    if sel.nextTask.Some? && Repeating(tasks[sel.nextTask.value].triggerType) then
      var i := sel.nextTask.value;
      (LaunchedAsync(i), tasks[i := Recalculate(tasks[i].(lastRunTime := dispatchNow), calcNow)])
    else if sel.nextTask.Some? && tasks[sel.nextTask.value].triggerType == ONCE then
      var i := sel.nextTask.value;
      var run := Execute(Some(tasks[i]), host, finish);
      (RanOnce(i, run.exitCode), tasks[i := run.task.value.(enabled := false, nextRunTime := UNSET)])
    else
      (Waited(PlanFor(sel.nextDeadline)), tasks)
  }

  class Scheduler {
    const taskManager: TaskManager
    var running: bool
    var needWake: bool

    constructor (tm: TaskManager)
      ensures taskManager == tm && !running && !needWake
    {
      taskManager := tm;
      running := false;
      needWake := false;
    }

    /** `Start`: nothing when already running; otherwise the worker starts. */
    method Start()
      modifies this
      ensures running && needWake == old(needWake)
    {
      if running {
        return;
      }
      running := true;
    }

    /** `Stop`: when running, clears `running` and raises `needWake`; otherwise nothing. */
    method Stop()
      modifies this
      ensures !running
      ensures needWake == (old(needWake) || old(running))
    {
      if !running {
        return;
      }
      running := false;
      needWake := true;
    }

    /** `Notify`: raises `needWake`. */
    method Notify()
      modifies this
      ensures needWake && running == old(running)
    {
      needWake := true;
    }

    /** One pass of the `while (running)` loop in `ThreadProc`. */
    method RunIteration(now: Time, dispatchNow: Time, calcNow: Time, host: Host, finish: Time) returns (r: Iteration)
      modifies this, taskManager
      ensures running == old(running)
      ensures !old(running) ==> r == Stopped && needWake == old(needWake) && unchanged(taskManager)
      ensures old(running) ==>
        var (it, ts) := Pass(old(taskManager.tasks), now, dispatchNow, calcNow, host, finish);
        && r == it
        && taskManager.tasks == ts
        && (r.Waited? ==> !needWake && taskManager.saved == old(taskManager.saved) && taskManager.saves == old(taskManager.saves))
        && (!r.Waited? ==> needWake == old(needWake) && taskManager.saved == ts && taskManager.saves == old(taskManager.saves) + 1)
      ensures taskManager.onChangeSet == old(taskManager.onChangeSet) && taskManager.changes == old(taskManager.changes)
    {
      if !running {
        return Stopped;
      }
      var tasks := taskManager.GetAllTasks();
      var nextTask, nextDeadline := Scan(tasks, now);
      if nextTask.Some? {
        var i := nextTask.value;
        var triggerType := tasks[i].triggerType;
        if triggerType == INTERVAL || triggerType == DAILY || triggerType == WEEKLY {
          var t := tasks[i].(lastRunTime := dispatchNow);
          t := CalculateNextRun(t, calcNow);
          taskManager.tasks := taskManager.tasks[i := t];
          taskManager.Save();
          return LaunchedAsync(i);
        }
        if triggerType == ONCE {
          var run := RunTask(Some(tasks[i]), host, finish);
          var t := run.task.value;
          t := t.(enabled := false, nextRunTime := UNSET);
          taskManager.tasks := taskManager.tasks[i := t];
          taskManager.Save();
          return RanOnce(i, run.exitCode);
        }
      }
      var plan := if nextDeadline == UNSET then WaitFor(WAIT_FALLBACK) else WaitUntil(nextDeadline);
      needWake := false;
      return Waited(plan);
    }
  }

  // ---------------------------------------------------------------------------
  // Properties of a pass
  // ---------------------------------------------------------------------------

  /** A pass changes at most the one selected task, and only when that task is due. */
  lemma AtMostOneDispatched(tasks: seq<Task>, now: Time, dispatchNow: Time, calcNow: Time, host: Host, finish: Time)
    ensures var (it, ts) := Pass(tasks, now, dispatchNow, calcNow, host, finish);
      && |ts| == |tasks|
      && (it.Waited? ==> ts == tasks)
      && (it.LaunchedAsync? || it.RanOnce? ==>
            && it.index < |tasks| && Due(tasks[it.index], now)
            && forall j :: 0 <= j < |tasks| && j != it.index ==> ts[j] == tasks[j])
  {
    if Selection(tasks, now).nextTask.Some? {
      SelectedIsEarliestDue(tasks, now);
    }
  }

  /** A repeating task gets the dispatch time as its last run and a next run recomputed from it. */
  lemma RepeatingDispatch(tasks: seq<Task>, now: Time, dispatchNow: Time, calcNow: Time, host: Host, finish: Time)
    requires Pass(tasks, now, dispatchNow, calcNow, host, finish).0.LaunchedAsync?
    ensures var (it, ts) := Pass(tasks, now, dispatchNow, calcNow, host, finish);
      && Repeating(tasks[it.index].triggerType)
      && ts[it.index].lastRunTime == dispatchNow
      && ts[it.index] == Recalculate(tasks[it.index].(lastRunTime := dispatchNow), calcNow)
  {
  }

  /** An interval of one minute up to 2^31 - 1 minutes puts the next run after the dispatch time. */
  lemma IntervalMovesPastDispatch(tasks: seq<Task>, now: Time, dispatchNow: Time, calcNow: Time, host: Host, finish: Time)
    requires dispatchNow != UNSET
    requires Pass(tasks, now, dispatchNow, calcNow, host, finish).0.LaunchedAsync?
    requires var i := Pass(tasks, now, dispatchNow, calcNow, host, finish).0.index;
      tasks[i].triggerType == INTERVAL && 0 < tasks[i].intervalMinutes < 0x8000_0000
    ensures var (it, ts) := Pass(tasks, now, dispatchNow, calcNow, host, finish);
      ts[it.index].nextRunTime > dispatchNow
  {
  }

  /**
   * An interval of 2^31 minutes or more wraps to a negative step: the next run
   * lands before the dispatch time, so the task stays due and is dispatched
   * again on every later pass.
   */
  lemma IntervalWrapRedispatches(tasks: seq<Task>, now: Time, dispatchNow: Time, calcNow: Time, host: Host, finish: Time, later: Time)
    requires dispatchNow != UNSET
    requires Pass(tasks, now, dispatchNow, calcNow, host, finish).0.LaunchedAsync?
    requires var i := Pass(tasks, now, dispatchNow, calcNow, host, finish).0.index;
      tasks[i].triggerType == INTERVAL && tasks[i].intervalMinutes >= 0x8000_0000
    requires later >= dispatchNow
    ensures var (it, ts) := Pass(tasks, now, dispatchNow, calcNow, host, finish);
      && ts[it.index].nextRunTime < dispatchNow
      && (ts[it.index].nextRunTime != UNSET ==> Due(ts[it.index], later))
  {
    AtMostOneDispatched(tasks, now, dispatchNow, calcNow, host, finish);
  }

  /** A Once task ends disabled with no next run, whatever its exit code, and is never selected again. */
  lemma OnceDispatchDisables(tasks: seq<Task>, now: Time, dispatchNow: Time, calcNow: Time, host: Host, finish: Time, later: Time)
    requires Pass(tasks, now, dispatchNow, calcNow, host, finish).0.RanOnce?
    ensures var (it, ts) := Pass(tasks, now, dispatchNow, calcNow, host, finish);
      && tasks[it.index].triggerType == ONCE
      && !ts[it.index].enabled && ts[it.index].nextRunTime == UNSET
      && Selection(ts, later).nextTask != Some(it.index)
  {
    var (it, ts) := Pass(tasks, now, dispatchNow, calcNow, host, finish);
    DisabledNeverSelected(ts, it.index, later);
  }

  /** A Once task killed on timeout is disabled all the same and keeps 999 as its last exit code. */
  lemma OnceTimeoutStillDisables(tasks: seq<Task>, now: Time, dispatchNow: Time, calcNow: Time, host: Host, finish: Time)
    requires Pass(tasks, now, dispatchNow, calcNow, host, finish).0.RanOnce?
    requires var i := Pass(tasks, now, dispatchNow, calcNow, host, finish).0.index;
      tasks[i].exePath != "" && host.createError.None? && TimedWait(tasks[i]) && host.waitResult == WAIT_TIMEOUT
    ensures var (it, ts) := Pass(tasks, now, dispatchNow, calcNow, host, finish);
      it.exitCode == 999 && ts[it.index].lastExitCode == 999 && !ts[it.index].enabled
  {
  }

  /**
   * With nothing due the pass waits for five seconds when nothing is pending,
   * and otherwise until the earliest pending next run, which lies after `now`.
   */
  lemma WaitEndsByNextPending(tasks: seq<Task>, now: Time, dispatchNow: Time, calcNow: Time, host: Host, finish: Time)
    requires forall j :: 0 <= j < |tasks| ==> !Due(tasks[j], now)
    ensures var (it, ts) := Pass(tasks, now, dispatchNow, calcNow, host, finish);
      && it.Waited?
      && (it.plan == WaitFor(WAIT_FALLBACK) <==> forall j :: 0 <= j < |tasks| ==> !Pending(tasks[j], now))
      && (it.plan.WaitUntil? ==>
            && it.plan.deadline > now
            && (exists j :: 0 <= j < |tasks| && Pending(tasks[j], now) && tasks[j].nextRunTime == it.plan.deadline)
            && forall j :: 0 <= j < |tasks| && Pending(tasks[j], now) ==> it.plan.deadline <= tasks[j].nextRunTime)
  {
    SelectsIffSomeDue(tasks, now);
    DeadlineIsEarliestPending(tasks, now);
  }
}
