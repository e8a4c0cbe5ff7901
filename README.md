# A verified model of the Cursach task scheduler

Cursach ("MiniTaskScheduler") is a small Windows task scheduler written in C++. A user defines tasks, each with:

- an executable, its arguments and a working directory;
- a trigger (Once, Interval, Daily or Weekly).

The program has these parts:

- **Task store (`TaskManager`).** Keeps the tasks in memory, computes each task's next run, saves the list to a hand-written JSON file and reloads it at start-up.
- **Scheduler thread (`Scheduler`).** Repeatedly picks the earliest due task, dispatches it, and otherwise sleeps until the next deadline.
- **Job executor (`JobExecutor`).** Starts the process, waits for it with an optional timeout, kills it by name on timeout, and writes the exit code back into the task.

This project models the decision logic of these parts in Dafny and proves what the code promises about it.

The model is organised by source file, one module each:

| module | file | models |
|---|---|---|
| `Wrappers`, `Numeric`, `Calendar`, `WString` | — | `Option`; the C++ integer types and their wrap-around casts; decimal text and `std::stoll`; the tick/second clock and a local calendar of 86400-second days aligned to UTC; the `std::wstring` `find` family (`npos` is `None`) and `size_t` arithmetic on it |
| `Tasks` | `Task.h`, `Task.cpp` | the `Task` record and its defaults, `TriggerTypeToWString`, `TaskToDebugString` |
| `Utils` | `Utils.cpp` | `IsValidJsonSimple`, `EscapeJSON`, `UnescapeJSON`, `GetFileName` |
| `NextRun` | `TaskManager.cpp` | `CalculateNextRun` |
| `Store` | `TaskManager.cpp` | `class TaskManager` over a `seq<Task>`; `Save` and `onChange` are observable counters |
| `JobExecutor` | `JobExecutor.cpp` | `RunTask` and `KillProcessesByName`; the Win32 process API is an oracle `Host` fixing each call's answer |
| `Scheduling` | `Scheduler.cpp` | `class Scheduler` (`running`, `needWake`), the selection scan, and one pass of the `ThreadProc` loop |
| `Persistence` | `Persistence.cpp` | the text `Save` writes; `Load`'s block scanner and field readers; a missing file is `None` |

## How the model represents the program

**Time.** A time point is a count of 100 ns ticks, where 0 means "unset".

**Calendar.** Local time is a calendar of UTC-aligned days:
- a day is 86400 seconds, and each day starts at a multiple of 86400 seconds since the epoch;
- the weekday is `(day + 4) % 7`, because day 0 was a Thursday;
- there is no DST.

**Integers.** Integer widths are explicit where the program's behaviour depends on them:
- `uint8`, `uint32`, `int32` and `int64` are subset types;
- the C casts `(uint8_t)`, `(uint32_t)` and `(int)` wrap;
- the DWORD timeout `minutes * 60 * 1000` is computed modulo 2^32;
- `std::chrono::minutes` counts in a 32-bit `int`, so an `intervalMinutes` of 2^31 or more becomes a negative step (`NextRun.IntervalStep`), and `nextRunTime` is an `int` tick count that may fall before the epoch;
- the `size_t` arithmetic of `getString` wraps modulo 2^64.

Time points other than `nextRunTime` are unbounded naturals: the 64-bit tick counter of `system_clock` is not modelled.

**Exceptions.** `getInt` can throw, so `Persistence.LoadContent` returns `Option<seq<Task>>`, where `None` is the exception.

**GUIDs.** `GenerateGUID` becomes a parameter `guid: nat -> string` whose values are non-empty. The k-th record block gets `guid(k)`.

**Shared pointers.** A task is a value. The scheduler writes into the store's `tasks` at the selected index, which is where the C++ writes through its `shared_ptr`.

The model follows the code in these places, where a reader might expect otherwise:
- The weekly search scans offsets 0..6 only; it does not go on into a second week.
- When nothing qualifies (an empty day mask included), the old `nextRunTime` is kept rather than cleared.
- `Save` does not write `runOnceTime`, the runtime fields or the timeout fields, so a full Save/Load round trip does not hold. What is proved instead:
  - each of the six string fields of a saved record reads back, under the conditions listed under "Left out" (`Persistence.RecordStringsReadBack`);
  - the day mask reads back (`Persistence.MaskRoundTrip`);
  - an integer's decimal text reads back through `std::stoll` (`Numeric.StoLLOfDecimal`).

## Model

| member | source | states |
|---|---|---|
| Numeric.ToInt32 | Cursach/JobExecutor.cpp:212-218 | the `(int)` cast is exact on the int32 range and otherwise congruent to its argument modulo 2^32 |
| Numeric.DigitsOfDecimal | Cursach/Persistence.cpp:32-45 | the decimal text `operator<<` writes for a number denotes that number |
| Numeric.LeadingDigits | Cursach/Persistence.cpp:128 | the digit run at the front of a string: the prefix is all digits and the character after it is not a digit |
| Numeric.LeadingDigitsOfRun | Cursach/Persistence.cpp:128 | a digit run followed by a non-digit (or the end) is exactly the leading digit run |
| Numeric.StoLL | Cursach/Persistence.cpp:129 | `std::stoll`: an optional sign, then the longest digit run; none when there is no digit or the value is outside 64 bits (the exception). Its properties are stated by `StoLLOfDecimal` |
| Numeric.StoLLOfDecimal | Cursach/Persistence.cpp:122-130 | `std::stoll` of a number's decimal text, followed by a non-digit, gives the number back |
| WString.Find | Cursach/Persistence.cpp:79-86 | `std::wstring::find` returns a position at or after the start at which the whole pattern fits |
| WString.FindIsFirstMatch | Cursach/Persistence.cpp:79-86 | `find` returns a match with no earlier match from the start, and `npos` exactly when there is no match from the start |
| WString.FindReturnsFirst | Cursach/Persistence.cpp:79-86 | conversely, the first match from the start is what `find` returns |
| WString.FindFirstOfIsFirst | Cursach/Persistence.cpp:126 | `find_first_of` returns the first position holding one of the characters, and `npos` when none does |
| WString.FindFirstNotOfIsFirst | Cursach/Persistence.cpp:143 | `find_first_not_of` returns the first position holding none of the characters, and `npos` when all do |
| WString.FindLastOf | Cursach/Utils.cpp:115 | `find_last_of` returns the last position holding one of the characters, and `npos` when none does |
| WString.Substr | Cursach/Persistence.cpp:109 | `substr(pos, n)` is the slice from `pos`, cut to `n` characters or at the end of the string |
| Tasks.TriggerTypeToWString | Cursach/Task.cpp:9-17 | each of ONCE, INTERVAL, DAILY and WEEKLY gets its own upper-case name and no other value gets it; "UNKNOWN" is exactly the result for every other value |
| Tasks.NewTask | Cursach/Task.h:14-41 | `make_shared<Task>()`: the default field values of the struct (enabled, Daily at 12:00:00, a 60-minute interval, runIfMissed, empty strings and mask, zero times and exit code) |
| Tasks.TaskToDebugString | Cursach/Task.cpp:19-29 | exactly a null task gives "<null>"; a present task's text starts with `Task[id=` and its id, and ends with `, exe=`, its executable and `]` |
| Tasks.DebugStringFields | Cursach/Task.cpp:23-25 | the text of a present task contains `, name=` with its name, `, enabled=` with `true` or `false`, and `, trigger=` with the trigger's name |
| Utils.ScanStep | Cursach/Utils.cpp:53-62 | one character of the brace scan: the depth changes only on an unescaped `{` or `}` outside quotes |
| Utils.IsValidJsonSimple | Cursach/Utils.cpp:49-64 | the loop, with its early `return false`, answers exactly the predicate `Balanced`: the depth stays non-negative outside quotes and ends at 0 with no quote open |
| Utils.EmptyIsBalanced | Cursach/Utils.cpp:49-64 | the empty text is balanced, so `IsValidJsonSimple("")` holds |
| Utils.EscapeChar | Cursach/Utils.cpp:69-76 | the five special characters become a backslash pair; every other character is copied |
| Utils.Escape | Cursach/Utils.cpp:66-79 | escaping never shortens its input |
| Utils.EscapeJSON | Cursach/Utils.cpp:66-79 | the character loop builds exactly `Escape(s)` |
| Utils.UnescapeJSON | Cursach/Utils.cpp:82-108 | the character loop with its `escape` flag builds exactly `Unescape(s)` |
| Utils.UnescapeEscapeRun | Cursach/Utils.cpp:81-108 | unescaping escaped text ends outside an escape with the original text |
| Utils.UnescapeEscape | Cursach/Utils.cpp:81-108 | `UnescapeJSON(EscapeJSON(s)) == s` for every s |
| Utils.UnescapeUnknown | Cursach/Utils.cpp:88-98 | every escape `\x` other than `\n`, `\r` and `\t` unescapes to `x`, the escaped backslash and quote included |
| Utils.UnescapeTrailingBackslash | Cursach/Utils.cpp:86-105 | a trailing lone backslash is dropped and leaves the loop inside an escape |
| Utils.EscapeKeepsQuoteFree | Cursach/Utils.cpp:66-79 | escaping quote-free text gives quote-free text |
| Utils.EscapeWithoutBackslash | Cursach/Utils.cpp:66-79 | when the escape of a text holds no backslash, the escape is the text itself |
| Utils.GetFileName | Cursach/Utils.cpp:111-122 | the result is a suffix of the path with no separator in it, preceded in the path by a separator whenever it is shorter; so "" gives "" and a path without separators is returned whole |
| NextRun.WeekdayAt | Cursach/TaskManager.cpp:155-158 | `(today + offset) % 7` is a weekday index below 7 |
| NextRun.Recalculate | Cursach/TaskManager.cpp:92-181 | `CalculateNextRun` changes nothing but `nextRunTime`; it sets it to the computed next run, or leaves the task untouched when there is none |
| NextRun.ScanWeek | Cursach/TaskManager.cpp:157-174 | the `for offset` loop with its `break` finds the first accepted weekly candidate |
| NextRun.CalculateNextRun | Cursach/TaskManager.cpp:95-181 | the statement-by-statement switch computes exactly `Recalculate(task, now)` |
| NextRun.OnceSchedule | Cursach/TaskManager.cpp:100-123 | Once: an unset time gives unset; a future time is kept; a past time gives `now` with runIfMissed and unset without |
| NextRun.OnceNotInPast | Cursach/TaskManager.cpp:104-116 | a Once schedule is unset or not before `now`, and is `now` or the configured time |
| NextRun.NextRun | Cursach/TaskManager.cpp:95-180 | the value `CalculateNextRun` stores, per trigger, or none when the weekly scan finds nothing; its properties are stated by the lemmas below |
| NextRun.IntervalSchedule | Cursach/TaskManager.cpp:125-130 | Interval: `now` plus the interval when never run, else `lastRunTime` plus the interval, the minute count read as a 32-bit `int` |
| NextRun.IntervalWrap | Cursach/TaskManager.cpp:125-130 | below 2^31 minutes the next run is that many minutes after the anchor; from 2^31 on it is 2^32 - m minutes before the anchor, so before it |
| NextRun.IntervalDependsOnlyOnItsFields | Cursach/TaskManager.cpp:125-130 | an Interval schedule depends on `lastRunTime` and `intervalMinutes` only |
| NextRun.NextClockTime | Cursach/TaskManager.cpp:141-146 | today's clock time, plus a day when it is not after `now`, is the first time after `now` showing that clock time, and is at most a day away |
| NextRun.DailyIsNextClockTime | Cursach/TaskManager.cpp:132-147 | Daily: the result is after `now`, at most 24 h after it, at the configured time of day, and no earlier time after `now` shows that time of day |
| NextRun.DailyAdvancesByOneDay | Cursach/TaskManager.cpp:132-147 | recomputing a Daily task at its own next run moves it on by exactly 24 h |
| NextRun.WeeklyScanFinds | Cursach/TaskManager.cpp:157-174 | the offset scan finds a candidate iff some offset qualifies, and then it is the candidate of the smallest such offset |
| NextRun.WeeklySchedule | Cursach/TaskManager.cpp:150-175 | Weekly: scheduled iff some offset 0..6 has its weekday bit set and its candidate after `now` or the offset > 0; the smallest such offset wins; otherwise the task is left unchanged |
| NextRun.WeeklyEmptyMaskUnchanged | Cursach/TaskManager.cpp:157-175 | an empty day mask schedules nothing and leaves `nextRunTime` as it was |
| NextRun.WeeklyWithinAWeek | Cursach/TaskManager.cpp:157-174 | a Weekly schedule, when found, is after `now` and less than seven days away |
| NextRun.WeeklyOnlyTodayPassedUnchanged | Cursach/TaskManager.cpp:157-175 | with only today's bit set and today's time passed, nothing qualifies and the old `nextRunTime` is kept |
| Store.IndexOfId | Cursach/TaskManager.cpp:45-46 | the index of the first task with the id, or none when no task has it |
| Store.AppendKeepsLookups | Cursach/TaskManager.cpp:26-29 | appending a task keeps every existing first-by-id lookup and makes the new task findable when its id was new |
| Store.TaskManager.constructor | Cursach/TaskManager.cpp:11-14 | the store starts with the loaded tasks fixed up: ids non-empty, next runs computed |
| Store.TaskManager.GetAllTasks | Cursach/TaskManager.cpp:21-24 | returns a snapshot equal to the store's list |
| Store.TaskManager.SetOnChange | Cursach/TaskManager.cpp:205-207 | installs the callback and nothing else; after an empty `std::function` no callback runs |
| Store.TaskManager.Save | Cursach/TaskManager.cpp:183-186 | the persisted list becomes the current list |
| Store.TaskManager.NotifyChange | Cursach/TaskManager.cpp:33 | the callback runs only when one is installed |
| Store.TaskManager.AddTask | Cursach/TaskManager.cpp:26-40 | appends the recomputed task, keeps the others, then saves and notifies |
| Store.TaskManager.RemoveTask | Cursach/TaskManager.cpp:42-61 | removes exactly the first task with the id, then saves and notifies; with no match nothing at all happens |
| Store.TaskManager.UpdateTask | Cursach/TaskManager.cpp:63-82 | replaces exactly the first task with the id by the recomputed new one, keeps the length, and saves and notifies even when nothing matched |
| Store.TaskManager.GetTaskById | Cursach/TaskManager.cpp:84-90 | returns the first task with the id, and null iff no task has it |
| Store.TaskManager.Load | Cursach/TaskManager.cpp:188-203 | replaces the list with the loaded tasks, each with a non-empty id and a freshly computed next run, then notifies |
| JobExecutor.CommandLine | Cursach/JobExecutor.cpp:87-93 | the command line: the quoted executable, then a blank and the arguments when there are any; `CommandLineRoundTrip` states its property |
| JobExecutor.CommandLineRoundTrip | Cursach/JobExecutor.cpp:87-93 | the quoted executable, plus a blank and the arguments when there are any, can be split back into both |
| JobExecutor.Killed | Cursach/JobExecutor.cpp:31-57 | the pids the snapshot loop terminates, in snapshot order; `KilledExactly` states which they are |
| JobExecutor.KillList | Cursach/JobExecutor.cpp:12-71 | nothing for an empty file name or a failed snapshot, else `Killed` of the snapshot |
| JobExecutor.KilledExactly | Cursach/JobExecutor.cpp:32-57 | a pid is killed exactly when its entry has the name (ignoring case), opens and terminates |
| JobExecutor.KillProcessesByName | Cursach/JobExecutor.cpp:12-71 | the snapshot loop terminates exactly the `KillList` pids and returns true iff it killed at least one |
| JobExecutor.KillNothingWithoutName | Cursach/JobExecutor.cpp:14-15 | an empty file name kills nothing |
| JobExecutor.TimeoutExactBelowWrap | Cursach/JobExecutor.cpp:126 | up to 71582 minutes the DWORD timeout is exactly minutes·60000 |
| JobExecutor.TimeoutWrapsAbove | Cursach/JobExecutor.cpp:126 | at 71583 minutes the DWORD product wraps to under a minute |
| JobExecutor.Execute | Cursach/JobExecutor.cpp:73-219 | the outcome of `RunTask` for a host's answers: code, task written back, kills; the lemmas below state it per path |
| JobExecutor.RunTask | Cursach/JobExecutor.cpp:73-219 | the step-by-step body computes exactly the outcome `Execute` |
| JobExecutor.NothingToRun | Cursach/JobExecutor.cpp:74-97 | a null task or an empty exePath returns -1, launches nothing and leaves the task untouched |
| JobExecutor.LaunchFailure | Cursach/JobExecutor.cpp:111-116 | a failed CreateProcess with error e returns -e, waits for nothing and leaves the task untouched |
| JobExecutor.WaitChoice | Cursach/JobExecutor.cpp:125-198 | the wait is timed, for minutes·60000 ms mod 2^32, iff the timeout is on with minutes > 0; otherwise it is infinite |
| JobExecutor.TimeoutReports999 | Cursach/JobExecutor.cpp:135-167 | a timed-out wait terminates the process, kills by name and reports 999 whatever the kills did |
| JobExecutor.NormalExit | Cursach/JobExecutor.cpp:169-207 | a finished wait reports the process's exit code cast to `int` (a code of 2^31 or more becomes negative), or 0 if querying it fails, and kills nothing |
| JobExecutor.WaitFailure | Cursach/JobExecutor.cpp:188-192 | a failed timed wait reports 0xFFFFFFFF, returned as -1 |
| JobExecutor.WriteBack | Cursach/JobExecutor.cpp:212-213 | after a launch `lastExitCode` is the returned code, `lastRunTime` is the finish time, and no other field changes |
| JobExecutor.LaunchCarriesTask | Cursach/JobExecutor.cpp:87-108 | the process is created with the task's executable and arguments, and a NULL directory iff the working directory is empty |
| Scheduling.ScanPrefix | Cursach/Scheduler.cpp:48-67 | after n turns of the scan, a selected index lies among the first n tasks |
| Scheduling.Scan | Cursach/Scheduler.cpp:48-67 | the `for` loop updating `nextTask`/`nextDeadline` computes exactly `Selection` |
| Scheduling.SelectStep | Cursach/Scheduler.cpp:52-55 | one turn of the scan keeps the selection invariant: the selected task is the earliest due one so far, the first among equals |
| Scheduling.DeadlineStep | Cursach/Scheduler.cpp:57-65 | one turn keeps the deadline invariant while nothing is selected: the deadline is the earliest pending time so far, or unset |
| Scheduling.ScanSelectFacts | Cursach/Scheduler.cpp:48-67 | every prefix of the scan satisfies the selection invariant |
| Scheduling.ScanDeadlineFacts | Cursach/Scheduler.cpp:48-67 | every prefix of the scan satisfies the deadline invariant |
| Scheduling.SelectedIsEarliestDue | Cursach/Scheduler.cpp:52-55 | the selected task is due, no due task has an earlier time, and every earlier due task has a strictly later one |
| Scheduling.SelectsIffSomeDue | Cursach/Scheduler.cpp:48-56 | a task is selected iff some task is due |
| Scheduling.DeadlineIsEarliestPending | Cursach/Scheduler.cpp:57-66 | when nothing is due, the deadline is the minimum next run among enabled future tasks, or unset iff there is none |
| Scheduling.DisabledNeverSelected | Cursach/Scheduler.cpp:49-50 | a disabled task is never selected |
| Scheduling.Scheduler.constructor | Cursach/Scheduler.cpp:7 | a new scheduler is not running and has no wake-up pending |
| Scheduling.Scheduler.Start | Cursach/Scheduler.cpp:13-18 | afterwards the scheduler runs; `needWake` is untouched, and nothing happens when already running |
| Scheduling.Scheduler.Stop | Cursach/Scheduler.cpp:20-30 | afterwards it is not running, and `needWake` is raised iff it was running |
| Scheduling.Scheduler.Notify | Cursach/Scheduler.cpp:32-38 | raises `needWake` and leaves `running` alone |
| Scheduling.Pass | Cursach/Scheduler.cpp:42-152 | one pass: the selection, then a background dispatch with reschedule, a Once run with disable, or the wait plan; its properties are stated by the lemmas below |
| Scheduling.Scheduler.RunIteration | Cursach/Scheduler.cpp:40-154 | one loop pass does what `Pass` says to the store's list; it saves after a dispatch, clears `needWake` after a wait, and does nothing when stopped |
| Scheduling.AtMostOneDispatched | Cursach/Scheduler.cpp:69-142 | a pass changes at most the one selected task, which was due, and a waiting pass changes nothing |
| Scheduling.RepeatingDispatch | Cursach/Scheduler.cpp:79-94 | a repeating dispatch sets `lastRunTime` to the dispatch time and then recomputes the next run |
| Scheduling.IntervalMovesPastDispatch | Cursach/Scheduler.cpp:89-93 | after an Interval dispatch with an interval from 1 to 2^31 - 1 minutes, the next run is after the dispatch time |
| Scheduling.IntervalWrapRedispatches | Cursach/Scheduler.cpp:89-93 | after an Interval dispatch with an interval of 2^31 minutes or more, the next run is before the dispatch time, and at any later time the task is due again |
| Scheduling.OnceDispatchDisables | Cursach/Scheduler.cpp:118-141 | a Once dispatch leaves the task disabled with its next run unset, so no later scan selects it |
| Scheduling.OnceTimeoutStillDisables | Cursach/Scheduler.cpp:122-131 | a Once task killed by timeout reports and stores 999 and is disabled all the same |
| Scheduling.WaitEndsByNextPending | Cursach/Scheduler.cpp:145-152 | with nothing due the pass waits 5 s iff nothing is pending, and otherwise until the earliest pending next run, which is after `now` |
| Persistence.PackBound | Cursach/Persistence.cpp:38-40 | the packed mask of 7 days is below 2^7 |
| Persistence.UnpackPack | Cursach/Persistence.cpp:38-42 | unpacking a packed day list gives it back |
| Persistence.PackUnpack | Cursach/Persistence.cpp:153-154 | packing the low n bits of a number gives the number mod 2^n |
| Persistence.MaskRoundTrip | Cursach/Persistence.cpp:38-42 | the written mask is below 0x80 and reads back as the same seven days |
| Persistence.DaysFromMask | Cursach/Persistence.cpp:153-154 | the seven days of `(uint8_t)(days & 0x7F)`; `MaskReadsLowBits` and `MaskRoundTrip` state its properties |
| Persistence.MaskReadsLowBits | Cursach/Persistence.cpp:153-154 | the days read from a value are its low 7 bits after the `unsigned long` cast |
| Persistence.RecordText | Cursach/Persistence.cpp:24-47 | the lines of one record as `Save` writes them; the read-back lemmas below state their properties |
| Persistence.Document | Cursach/Persistence.cpp:21-49 | the whole file: header, the records, footer; `SaveText` states the loop computes it |
| Persistence.RecordSeparators | Cursach/Persistence.cpp:47 | a record is closed by `},` when another follows and by `}` after the last |
| Persistence.PackDays | Cursach/Persistence.cpp:38-40 | the bit loop computes the sum of 2^k over the set days |
| Persistence.SaveText | Cursach/Persistence.cpp:21-49 | the streaming loop writes exactly `Document(tasks)` |
| Persistence.NumberEnd | Cursach/Persistence.cpp:127-128 | the digit scan stops within the block, not before its start |
| Persistence.GetInt | Cursach/Persistence.cpp:122-130 | `getInt`: 0 for a missing key, else `std::stoll` of the digit run from the first sign or digit after the colon |
| Persistence.GetIntField | Cursach/Persistence.cpp:122-130 | `getInt` with its `while` loop computes `GetInt`: 0 for a missing key, an exception when no number follows |
| Persistence.GetString | Cursach/Persistence.cpp:112-120 | `getString`: "" for a missing key, else the unescaped text between the first two quotes after the colon, with `size_t` arithmetic |
| Persistence.GetStringField | Cursach/Persistence.cpp:112-120 | `getString` computes `GetString` |
| Persistence.GetStrings | Cursach/Persistence.cpp:133-138 | one string per key |
| Persistence.GetInts | Cursach/Persistence.cpp:147-158 | one integer per key when none of the reads throws |
| Persistence.GetStringsAre | Cursach/Persistence.cpp:133-138 | the reads return each key's `getString` in order |
| Persistence.GetIntsThrows | Cursach/Persistence.cpp:129 | one throwing `getInt` makes the whole record throw |
| Persistence.GetIntsReturns | Cursach/Persistence.cpp:147-158 | when every read returns, the record gets each key's value in order |
| Persistence.ReadStrings | Cursach/Persistence.cpp:133-138 | the six `getString` calls read the six string fields |
| Persistence.ReadInts | Cursach/Persistence.cpp:147-158 | the nine `getInt` calls read the integer fields up to the first exception |
| Persistence.ParseRecord | Cursach/Persistence.cpp:132-168 | one record block read into a task, or none when a `getInt` throws; `KeylessRecord` and `ParsedId` state its properties |
| Persistence.ParseBlock | Cursach/Persistence.cpp:132-168 | a record block is parsed into exactly `ParseRecord` |
| Persistence.BlockEnd | Cursach/Persistence.cpp:92-105 | the closing-brace scan stops within the content |
| Persistence.ScanBlock | Cursach/Persistence.cpp:89-105 | the inner `for` loop with its `break` stops at `BlockEnd` |
| Persistence.ParseFound | Cursach/Persistence.cpp:107-170 | parsing a complete block and moving the cursor past it is one step of `LoadFrom` |
| Persistence.LoadFrom | Cursach/Persistence.cpp:84-171 | the cursor loop over record blocks; `LoadedIdsNonEmpty` and `UnterminatedBlock` state its properties |
| Persistence.LoadBlocks | Cursach/Persistence.cpp:84-171 | the cursor loop collects exactly `LoadFrom` |
| Persistence.LoadContent | Cursach/Persistence.cpp:62-175 | `Load` on a file's contents; `LoadFallbacks` and `LoadContentIdsNonEmpty` state its properties |
| Persistence.Load | Cursach/Persistence.cpp:62-175 | `Persistence::Load` returns exactly `LoadContent` of the file |
| Persistence.MissingKey | Cursach/Persistence.cpp:112-130 | a missing key reads as "" for strings, 0 for integers and the default for booleans |
| Persistence.NoQuoteNoKey | Cursach/Persistence.cpp:113 | text without a quote contains no quoted key |
| Persistence.KeylessReads | Cursach/Persistence.cpp:132-165 | a block with no keys reads as six empty strings, nine zeros and the true defaults |
| Persistence.KeylessRecord | Cursach/Persistence.cpp:132-167 | a block with no keys gives a default task with the generated id and zeroed integer fields, trigger Once included |
| Persistence.SubstrMatch | Cursach/Persistence.cpp:144 | `compare(s, 4, "true") == 0` is a match of "true" at s |
| Persistence.GetBoolAt | Cursach/Persistence.cpp:140-145 | with the key and colon found, the boolean is whether "true" starts at the first non-blank after the colon |
| Persistence.TrueAfterMeans | Cursach/Persistence.cpp:143-144 | "true" at the first non-blank after the colon means "true" after the colon with only blanks before it |
| Persistence.FirstNonBlank | Cursach/Persistence.cpp:143 | `find_first_not_of` blanks from after the colon finds the first non-blank |
| Persistence.GetBool | Cursach/Persistence.cpp:140-145 | the `enabled`/`runIfMissed` reader: the default for a missing key, else whether `true` opens the first non-blank after the colon; `GetBoolMeansTrue` states it |
| Persistence.GetBoolMeansTrue | Cursach/Persistence.cpp:140-145 | `enabled`/`runIfMissed` read true iff, after the colon following the first occurrence of the key, only blanks come before "true" |
| Persistence.LineLayout | Cursach/Persistence.cpp:25-30 | a string line is six blanks, the quoted key, `: `, the quoted value and `,` plus a newline |
| Persistence.LineIsField | Cursach/Persistence.cpp:25-30 | a written line anywhere in a text has that layout at its offset |
| Persistence.FieldKeyFound | Cursach/Persistence.cpp:113 | when the quoted key occurs nowhere before the line, the lookup finds the line's key |
| Persistence.FieldColonFound | Cursach/Persistence.cpp:115 | the colon found is the one after the key |
| Persistence.FieldQuotesFound | Cursach/Persistence.cpp:116-117 | the two quotes found enclose the written value |
| Persistence.FieldRead | Cursach/Persistence.cpp:115-118 | with the colon and both quotes found inside a text shorter than 2^64, the raw value is the text between the quotes |
| Persistence.FieldValue | Cursach/Persistence.cpp:118 | the text between the quotes is the written value |
| Persistence.FieldFinds | Cursach/Persistence.cpp:113-118 | on a written line whose quoted key occurs nowhere before it, the four lookups find key, colon and both quotes, and the text between the quotes is the written value |
| Persistence.FieldReadBack | Cursach/Persistence.cpp:112-120 | with the four lookups found around a value, `getString` returns the value unescaped |
| Persistence.FieldUnescaped | Cursach/Persistence.cpp:112-120 | a written line whose quoted key occurs nowhere before it reads back as its value unescaped |
| Persistence.FieldRoundTrip | Cursach/Persistence.cpp:112-120 | a quote-free value, written by `EscapeJSON` in such a line, reads back exactly |
| Persistence.StringFieldRoundTrip | Cursach/Persistence.cpp:112-120 | a quote-free value written by Save as `EscapeJSON` (lines 25-30), between any texts that do not contain the quoted key, is read back by `getString` exactly |
| Persistence.NoKeyStartInBlock | Cursach/Persistence.cpp:113 | a piece in which every quote is followed by a mismatch with the quoted key starts no occurrence of it in a larger text |
| Persistence.NoKeyStartConcat | Cursach/Persistence.cpp:113 | neither does a run of such pieces |
| Persistence.FieldLineNoKeyStart | Cursach/Persistence.cpp:25-30 | a written line under another key, with a quote-free value other than the key, is such a piece |
| Persistence.EarlierLineClear | Cursach/Persistence.cpp:25-30 | so is the line of a quote-free value that is not the key, under a key name of another length |
| Persistence.RecordStringLine | Cursach/Persistence.cpp:24-30 | line 0 of a record opens it, and line n, for n from 1 to 6, holds string field n - 1 |
| Persistence.RecordLineClear | Cursach/Persistence.cpp:24-30 | the lines of a record before a string field's line start no occurrence of its quoted key |
| Persistence.LinesStringField | Cursach/Persistence.cpp:112-120 | in any list of lines, a written string line reads back when the lines before it start no occurrence of its key |
| Persistence.RecordStringField | Cursach/Persistence.cpp:112-138 | each string field of a saved record reads back as written, when it and the fields before it hold no quote and none of those equals its key |
| Persistence.RecordStringsReadBack | Cursach/Persistence.cpp:133-138 | the six `getString` reads of a saved record return its six string fields |
| Persistence.ParsedId | Cursach/Persistence.cpp:133-167 | a parsed record keeps a non-empty stored id and otherwise gets the generated one |
| Persistence.ParsedIdNonEmpty | Cursach/Persistence.cpp:167 | every parsed record has a non-empty id |
| Persistence.LoadedIdsNonEmpty | Cursach/Persistence.cpp:86-171 | every task the block scan returns has a non-empty id |
| Persistence.LoadAtIds | Cursach/Persistence.cpp:107-170 | the tasks from a complete block onward have non-empty ids |
| Persistence.LoadContentIdsNonEmpty | Cursach/Persistence.cpp:62-175 | every task Load returns has a non-empty id |
| Persistence.LoadFallbacks | Cursach/Persistence.cpp:65-82 | a missing file, text failing `IsValidJsonSimple`, text lacking `"tasks"`, or balanced text with no `[` at or after the first `"tasks"` gives an empty list |
| Persistence.BlockEndIsClosingBrace | Cursach/Persistence.cpp:94-105 | where the block scan stops inside the content there is the closing `}` |
| Persistence.UnterminatedBlock | Cursach/Persistence.cpp:107 | a block that never closes ends the load with the records read so far |

## Left out

- Scheduling.Pass: a repeating task is handed to a detached thread that runs `RunTask` on the shared task (Scheduler.cpp:101-111). That thread later writes `lastExitCode` and `lastRunTime` (JobExecutor.cpp:212-213) into the stored task, concurrently with later passes. The model's pass leaves both fields as the dispatch set them, and that later write-back is not modelled.
- Threads, locks and the condition variable are not modelled. `RunIteration` models one iteration of the loop and the choice of wait (5 s or until the deadline). The timed wait itself is not modelled, nor is its early end on `!running || needWake`, nor the detached background thread that runs a repeating task.
- Win32 calls, file I/O and logging are not modelled:
  - process creation, waiting, exit codes, termination and the process snapshot become the `Host` oracle;
  - the file's contents become an `Option<string>`;
  - the temp-file rename and the `Logger` calls are not modelled.
- `system_clock::now()`, `localtime_s` and `mktime` are replaced by clock readings passed as parameters and a calendar of UTC-aligned days without DST. A local time zone offset is not modelled.
- `GenerateGUID` is a parameter. Its format and its fallback are not modelled.
- `GetAppDataDir` and `TimePointToWString` are not modelled: they only produce paths and display text.
- The UI (MainWindow.cpp, TaskDialog.cpp, main.cpp) is not part of this model.
- The destructor-time `Save` of `TaskManager` and the `Stop` in `Scheduler`'s destructor are not modelled.
- The null-pointer checks on `TaskPtr` are not modelled: tasks are values, except where `Option` models the null of `RunTask` and `TaskToDebugString`.
- `hasExecutionTimeout` and `executionTimeoutMinutes` are not declared in Task.h. They are assumed to be a `bool` and a `uint32_t` defaulting to false and 0.
- JobExecutor.Lower: `towlower` and `iswdigit` are modelled on ASCII letters and digits only.
- The `elapsed` computation (JobExecutor.cpp:178) is not modelled: it does nothing.
- Persistence.SaveText: writes only the fields that `Save` writes. No whole-document Save-then-Load round trip is stated. Because `runOnceTime`, the runtime fields and the timeout fields are not saved, such a round trip does not hold.
- Persistence.StringFieldRoundTrip: is stated for:
  - a value without `"`, because `getString` stops at the first quote, even an escaped one;
  - a key without `:`;
  - text before the line that holds no occurrence of the quoted key;
  - a text shorter than 2^64.
- Persistence.RecordStringField: a field reads back only when it and the fields before it hold no `"`, and none of the fields before it equals its key name. Otherwise `getString` finds an earlier quote or an earlier `"key"` and returns other text, so the source itself does not read it back.
- Persistence.RecordStringsReadBack: the same conditions, for all six fields at once.
- Scheduling.IntervalMovesPastDispatch: is stated for intervals from 1 to 2^31 - 1 minutes only. From 2^31 on the step wraps to a negative `int`, and `Scheduling.IntervalWrapRedispatches` states what happens then.
- NextRun.DailyIsNextClockTime: requires a valid clock time (hour below 24, minute and second below 60). Nothing in the core enforces that range: `Load` stores any `uint8_t` hour, minute and second (Persistence.cpp:149-158), and `mktime` then normalises them into a later day; `NextRun` computes that normalised time, but this lemma says nothing about it.
- NextRun.DailyAdvancesByOneDay: requires a valid clock time, for the same reason.
- NextRun.WeeklyWithinAWeek: requires a valid weekly clock time, for the same reason.
- The character conversion that `wofstream` and `wifstream` apply through their locale is assumed to be lossless: the file holds exactly the wide characters `Save` wrote, and `Load` reads them back unchanged.
- Persistence.GetBoolMeansTrue: needs the text to be shorter than 2^64, so that `colon + 1` cannot wrap.
- Numeric.StoLLOfDecimal: the integer-field round trip is proved only at the level of `std::stoll`. It is not proved through `getInt`'s key and colon search.
- Persistence.GetInts: `getInt` throwing on a key with no digits, or on an out-of-range number, is modelled as `None`. What the caller does with the exception is not modelled.
- NextRun.WeeklySchedule: follows the code, which scans only offsets 0..6 and leaves `nextRunTime` stale when nothing qualifies. The model does not search into a second week and does not clear `nextRunTime`, because the code does neither.
