/**
 * `JobExecutor::RunTask` and `KillProcessesByName` (Cursach/JobExecutor.cpp).
 * The Win32 process API is an oracle `Host` that fixes what each call returns;
 * the result `Run` records the exit code, the task after the write-back, and
 * what was asked of the operating system.
 */
module JobExecutor {
  import opened Wrappers
  import opened Numeric
  import opened WString
  import opened Calendar
  import opened Tasks
  import opened Utils

  const WAIT_OBJECT_0: uint32 := 0
  const WAIT_TIMEOUT: uint32 := 0x102
  /** The exit code given to a process terminated on timeout. */
  const TIMEOUT_EXIT_CODE: uint32 := 999
  const WAIT_FAILED_CODE: uint32 := 0xFFFF_FFFF

  /** One entry of the process snapshot, with what OpenProcess and TerminateProcess do to it. */
  datatype ProcessEntry = ProcessEntry(exeFile: string, pid: uint32, opens: bool, terminates: bool)

  /** What the operating system answers to each call `RunTask` makes. */
  datatype Host = Host(
    createError: Option<uint32>,              // None: CreateProcessW succeeds; Some(e): it fails with GetLastError() == e
    waitResult: uint32,                       // what the timed WaitForSingleObject returns
    exitCode: Option<uint32>,                 // None: GetExitCodeProcess fails
    snapshot: Option<seq<ProcessEntry>>)      // None: CreateToolhelp32Snapshot fails

  /** The arguments of CreateProcessW that the task decides: the command line and the working directory (None is NULL). */
  datatype Launch = Launch(commandLine: string, workingDirectory: Option<string>)

  datatype WaitRequest = Infinite | Timed(ms: uint32)

  datatype Run = Run(
    exitCode: int32,
    task: Option<Task>,            // the task after RunTask's writes
    launch: Option<Launch>,        // None when no process creation was attempted
    wait: Option<WaitRequest>,     // None when no process was created
    terminatedOwn: bool,           // TerminateProcess was called on the created process
    killedByName: seq<uint32>)     // the pids terminated by name

  // ---------------------------------------------------------------------------
  // Command line
  // ---------------------------------------------------------------------------

  /** The executable in quotes, then a blank and the arguments when there are any. */
  function CommandLine(exePath: string, arguments: string): string {
    "\"" + exePath + "\"" + (if arguments == "" then "" else " " + arguments)
  }

  /** How the command line splits back into executable and arguments: the text between the first two quotes, then what follows the blank. */
  function ParseCommandLine(cl: string): Option<(string, string)> {
    if |cl| == 0 || cl[0] != '"' then None
    else
      match Find(cl, "\"", 1)
      case None => None
      case Some(q) =>
        var rest := cl[q + 1..];
        if rest == [] then Some((cl[1..q], ""))
        else if rest[0] == ' ' then Some((cl[1..q], rest[1..]))
        else None
  }

  /** With no quote in the executable path, executable and arguments are recovered from the command line. */
  lemma CommandLineRoundTrip(exePath: string, arguments: string)
    requires forall i :: 0 <= i < |exePath| ==> exePath[i] != '"'
    ensures ParseCommandLine(CommandLine(exePath, arguments)) == Some((exePath, arguments))
  {
    var cl := CommandLine(exePath, arguments);
    var q := 1 + |exePath|;
    assert MatchAt(cl, "\"", q);
    forall p | 1 <= p < q
      ensures !MatchAt(cl, "\"", p)
    {
      assert cl[p + 0] == exePath[p - 1] != "\""[0];
    }
    FindReturnsFirst(cl, "\"", 1, q);
    assert cl[1..q] == exePath;
    if arguments != "" {
      assert cl[q + 1..] == " " + arguments;
    } else {
      assert cl[q + 1..] == [];
    }
  }

  // ---------------------------------------------------------------------------
  // Kill by name
  // ---------------------------------------------------------------------------

  /** `towlower` on the ASCII letters. */
  function Lower(c: char): char {
    if 'A' <= c <= 'Z' then (c as int + 32) as char else c
  }

  /** `_wcsicmp(a, b) == 0`. */
  predicate SameNameIgnoringCase(a: string, b: string) {
    |a| == |b| && forall i :: 0 <= i < |a| ==> Lower(a[i]) == Lower(b[i])
  }

  /** A snapshot entry the loop terminates: same name, OpenProcess and TerminateProcess succeed. */
  predicate Kills(e: ProcessEntry, name: string) {
    SameNameIgnoringCase(e.exeFile, name) && e.opens && e.terminates
  }

  /** The pids terminated, in snapshot order. */
  function Killed(es: seq<ProcessEntry>, name: string): seq<uint32> {
    if es == [] then []
    else Killed(es[..|es| - 1], name) + (if Kills(es[|es| - 1], name) then [es[|es| - 1].pid] else [])
  }

  /** A pid is terminated exactly when some entry with it matches the name and can be terminated. */
  lemma {:induction false} KilledExactly(es: seq<ProcessEntry>, name: string, pid: uint32)
    ensures pid in Killed(es, name) <==> exists e :: e in es && Kills(e, name) && e.pid == pid
  {
    if es != [] {
      var init, last := es[..|es| - 1], es[|es| - 1];
      assert es == init + [last];
      KilledExactly(init, name, pid);
      if pid in Killed(init, name) {
        var e :| e in init && Kills(e, name) && e.pid == pid;
        assert e in es;
      }
      if exists e :: e in es && Kills(e, name) && e.pid == pid {
        var e :| e in es && Kills(e, name) && e.pid == pid;
        if e != last {
          assert e in init;
        }
      }
    }
  }

  /** What `KillProcessesByName(exePath)` terminates, given the snapshot. */
  function KillList(exePath: string, snapshot: Option<seq<ProcessEntry>>): seq<uint32> {
    var name := GetFileName(exePath);
    if name == "" || snapshot.None? then [] else Killed(snapshot.value, name)
  }

  /** `KillProcessesByName`: the snapshot loop counting successful terminations; true iff there was one. */
  method KillProcessesByName(exePath: string, snapshot: Option<seq<ProcessEntry>>) returns (ok: bool, killed: seq<uint32>)
    ensures killed == KillList(exePath, snapshot)
    ensures ok <==> |killed| > 0
  {
    var exeName := GetFileName(exePath);
    killed := [];
    if exeName == "" {
      return false, killed;
    }
    if snapshot.None? {
      return false, killed;
    }
    var es := snapshot.value;
    var killedCount := 0;
    for i := 0 to |es|
      invariant killed == Killed(es[..i], exeName)
      invariant killedCount == |killed|
    {
      assert es[..i + 1][..i] == es[..i];
      if SameNameIgnoringCase(es[i].exeFile, exeName) {
        if es[i].opens {
          if es[i].terminates {
            killedCount := killedCount + 1;
            killed := killed + [es[i].pid];
          }
        }
      }
    }
    assert es[..|es|] == es;
    ok := killedCount > 0;
  }

  /** An empty file name (no path, or a path ending in a separator) kills nothing. */
  lemma KillNothingWithoutName(exePath: string, snapshot: Option<seq<ProcessEntry>>)
    requires GetFileName(exePath) == ""
    ensures KillList(exePath, snapshot) == []
  {
  }

  // ---------------------------------------------------------------------------
  // RunTask
  // ---------------------------------------------------------------------------

  /** `executionTimeoutMinutes * 60 * 1000` in 32-bit unsigned arithmetic. */
  function TimeoutMs(minutes: uint32): uint32 {
    ToUint32(minutes * 60 * 1000)
  }

  /** Up to 71582 minutes the product fits in 32 bits. */
  lemma TimeoutExactBelowWrap(minutes: uint32)
    requires minutes <= 71582
    ensures TimeoutMs(minutes) == minutes * 60000
  {
  }

  /** From 71583 minutes on the product wraps around: 71583 minutes wait less than a minute. */
  lemma TimeoutWrapsAbove()
    ensures TimeoutMs(71583) == 71583 * 60000 - 0x1_0000_0000
    ensures TimeoutMs(71583) < 60000
  {
  }

  /** Whether the wait is bounded. */
  predicate TimedWait(t: Task) {
    t.hasExecutionTimeout && t.executionTimeoutMinutes > 0
  }

  /** The DWORD exit code after the wait. */
  function ExitCodeAfterWait(t: Task, host: Host): uint32 {
    if !TimedWait(t) then host.exitCode.GetOr(0)
    else if host.waitResult == WAIT_TIMEOUT then TIMEOUT_EXIT_CODE
    else if host.waitResult == WAIT_OBJECT_0 then host.exitCode.GetOr(0)
    else WAIT_FAILED_CODE
  }

  /** What `RunTask(task)` does, given the host's answers and the clock reading `finish` at line 213. */
  function Execute(task: Option<Task>, host: Host, finish: Time): Run {
    if task.None? then Run(-1, None, None, None, false, [])
    else
      var t := task.value;
      if t.exePath == "" then Run(-1, task, None, None, false, [])
      else
        var launch := Launch(CommandLine(t.exePath, t.arguments),
                             if t.workingDirectory == "" then None else Some(t.workingDirectory));
        if host.createError.Some? then
          Run(ToInt32(-(ToInt32(host.createError.value) as int)), task, Some(launch), None, false, [])
        else
          var wait := if TimedWait(t) then Timed(TimeoutMs(t.executionTimeoutMinutes)) else Infinite;
          var timedOut := TimedWait(t) && host.waitResult == WAIT_TIMEOUT;
          var code := ToInt32(ExitCodeAfterWait(t, host));
          Run(code, Some(t.(lastExitCode := code, lastRunTime := finish)), Some(launch), Some(wait),
              timedOut, if timedOut then KillList(t.exePath, host.snapshot) else [])
  }

  /** `JobExecutor::RunTask`, step by step. */
  method RunTask(task: Option<Task>, host: Host, finish: Time) returns (r: Run)
    ensures r == Execute(task, host, finish)
  {
    if task.None? {
      return Run(-1, None, None, None, false, []);
    }
    var t := task.value;
    var commandLine: string;
    if t.exePath != "" {
      commandLine := "\"" + t.exePath + "\"";
      if t.arguments != "" {
        commandLine := commandLine + " " + t.arguments;
      }
    } else {
      return Run(-1, task, None, None, false, []);
    }
    assert commandLine == CommandLine(t.exePath, t.arguments);
    var launch := Launch(commandLine, if t.workingDirectory == "" then None else Some(t.workingDirectory));
    if host.createError.Some? {
      var err := host.createError.value;
      return Run(ToInt32(-(ToInt32(err) as int)), task, Some(launch), None, false, []);
    }
    var exitCode: uint32 := 0;
    var wait: WaitRequest;
    var terminatedOwn := false;
    var killed: seq<uint32> := [];
    if t.hasExecutionTimeout && t.executionTimeoutMinutes > 0 {
      var timeoutMs := ToUint32(t.executionTimeoutMinutes * 60 * 1000);
      wait := Timed(timeoutMs);
      var waitRes := host.waitResult;
      if waitRes == WAIT_TIMEOUT {
        terminatedOwn := true;
        var killedByName;
        killedByName, killed := KillProcessesByName(t.exePath, host.snapshot);
        exitCode := 999;
      } else if waitRes == WAIT_OBJECT_0 {
        if host.exitCode.Some? {
          exitCode := host.exitCode.value;
        }
      } else {
        exitCode := 0xFFFF_FFFF;
      }
    } else {
      wait := Infinite;
      if host.exitCode.Some? {
        exitCode := host.exitCode.value;
      }
    }
    var code := ToInt32(exitCode);
    t := t.(lastExitCode := code, lastRunTime := finish);
    return Run(code, Some(t), Some(launch), Some(wait), terminatedOwn, killed);
  }

  // ---------------------------------------------------------------------------
  // Properties of RunTask
  // ---------------------------------------------------------------------------

  /** A null task or one without an executable gives -1, starts nothing and leaves the task as it was. */
  lemma NothingToRun(task: Option<Task>, host: Host, finish: Time)
    requires task.None? || task.value.exePath == ""
    ensures var r := Execute(task, host, finish);
      r.exitCode == -1 && r.task == task && r.launch.None? && r.wait.None? && r.killedByName == []
  {
  }

  /** A failed CreateProcessW with error e returns -e (as an int) and leaves the task as it was. */
  lemma LaunchFailure(t: Task, host: Host, finish: Time)
    requires t.exePath != "" && host.createError.Some?
    ensures var r := Execute(Some(t), host, finish);
      r.task == Some(t) && r.wait.None? && r.exitCode == ToInt32(-(ToInt32(host.createError.value) as int))
    ensures var e := host.createError.value; var r := Execute(Some(t), host, finish);
      0 < e < 0x8000_0000 ==> r.exitCode == -(e as int) && r.exitCode < 0
  {
  }

  /** The wait is bounded exactly when the task has a timeout of more than zero minutes, and then lasts minutes * 60000 ms (mod 2^32). */
  lemma WaitChoice(t: Task, host: Host, finish: Time)
    requires t.exePath != "" && host.createError.None?
    ensures var r := Execute(Some(t), host, finish);
      (r.wait.value.Timed? <==> t.hasExecutionTimeout && t.executionTimeoutMinutes > 0)
      && (r.wait.value.Timed? ==> r.wait.value.ms == (t.executionTimeoutMinutes * 60000) % 0x1_0000_0000)
  {
  }

  /** A timeout reports 999 whatever the kills achieve, and terminates the own process and the namesakes. */
  lemma TimeoutReports999(t: Task, host: Host, finish: Time)
    requires t.exePath != "" && host.createError.None?
    requires TimedWait(t) && host.waitResult == WAIT_TIMEOUT
    ensures var r := Execute(Some(t), host, finish);
      r.exitCode == 999 && r.terminatedOwn && r.killedByName == KillList(t.exePath, host.snapshot)
  {
  }

  /** A finished process reports its exit code as an int, or 0 when it cannot be read; nothing is terminated. */
  lemma NormalExit(t: Task, host: Host, finish: Time)
    requires t.exePath != "" && host.createError.None?
    requires !TimedWait(t) || host.waitResult == WAIT_OBJECT_0
    ensures var r := Execute(Some(t), host, finish);
      && (host.exitCode.None? ==> r.exitCode == 0)
      && (host.exitCode.Some? ==> r.exitCode == ToInt32(host.exitCode.value))
      && (host.exitCode.Some? && host.exitCode.value < 0x8000_0000 ==> r.exitCode == host.exitCode.value)
      && (host.exitCode.Some? && host.exitCode.value >= 0x8000_0000 ==> r.exitCode == host.exitCode.value - 0x1_0000_0000)
      && !r.terminatedOwn && r.killedByName == []
  {
  }

  /** A failed timed wait reports 0xFFFFFFFF, which is -1 as an int. */
  lemma WaitFailure(t: Task, host: Host, finish: Time)
    requires t.exePath != "" && host.createError.None?
    requires TimedWait(t) && host.waitResult != WAIT_TIMEOUT && host.waitResult != WAIT_OBJECT_0
    ensures Execute(Some(t), host, finish).exitCode == -1
  {
  }

  /** After a launch the task records the returned code and the finish time, and nothing else of it changes. */
  lemma WriteBack(t: Task, host: Host, finish: Time)
    requires t.exePath != "" && host.createError.None?
    ensures var r := Execute(Some(t), host, finish);
      r.task.Some? && r.task.value.lastExitCode == r.exitCode && r.task.value.lastRunTime == finish
      && r.task.value.(lastExitCode := t.lastExitCode, lastRunTime := t.lastRunTime) == t
  {
  }

  /** The command line handed to CreateProcessW carries the task's executable and arguments. */
  lemma LaunchCarriesTask(t: Task, host: Host, finish: Time)
    requires t.exePath != ""
    requires forall i :: 0 <= i < |t.exePath| ==> t.exePath[i] != '"'
    ensures var r := Execute(Some(t), host, finish);
      r.launch.Some? && ParseCommandLine(r.launch.value.commandLine) == Some((t.exePath, t.arguments))
      && (r.launch.value.workingDirectory.None? <==> t.workingDirectory == "")
  {
    CommandLineRoundTrip(t.exePath, t.arguments);
  }
}
