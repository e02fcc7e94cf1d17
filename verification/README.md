# gonit: a verified model

gonit is a small process supervisor. It reads a monit-like configuration, keeps a
registry of checks with a `monitored` flag each, stores those flags in a state
file, starts processes that are down, and gives up on a check after too many
failed starts. Commands arrive over a socket while a periodic loop performs the
checks, so most of its state is touched by several goroutines at once.

This project models that core and proves what it promises. `dafny verify
dfyconfig.toml` checks everything.

## What is proved

**The exclusion lock with expiry** (`DoOnce`, `TimedDoOnce`). `doOnce` lets the
deferred cleanup of a request and an expiry timer release the same flag, so a stale
holder can free the flag of a later one. Over every interleaving of any number of
requests: live requests plus one for a free flag is at most one plus the timer
cleanups so far, exactly one before the first of them, and the bound is attained
for every number of expiries. A set flag always belongs to a request that is still
at work, every request can finish, and then every flag is free, so nothing stays
locked. With a clock, a request finishes when its work is over, and exclusion holds
if and only if every callback is shorter than the expiry timeout; for the four
operations of a check that becomes a condition on its program timeouts, and the
longest duration used in it is exact.

**Concurrent updates of the state database** (`Updates`, `Serialised`,
`LostUpdates`, `Deadlocks`, `Reordering`, `Restoring`). `UpdateDatabase` locks the
entry of every check in list order, keeps all locks until it returns, and releases
them last to first. Over a fixed, non-empty list of unique ids with entries, for any
number of runs in any interleaving: one run at a time holds locks, no set of runs
ever waits for itself, every run of the system is finite with an explicit bound and
ends with all updates returned, and then the database holds exactly the flags of the
checks, as does the state file if the last write succeeded; these flags are the ones
that the commands set last. Flags set without an
update, as Perform and the start and stop goroutines do, reach the database with the
next update that begins. Next to a `Reload`, which clears the list, registers the
new checks one by one and thereby lets updates see any first part of the new list, a
deadlock is reachable if and only if two ids stand in opposite orders in the old and
in the new list, and the flags of the surviving checks are restored in every
interleaving if and only if there is no update or all of them are monitored.

**Retries and waiting** (`Waiting`, `Retry`, `Checks`). `WaitUntil` succeeds exactly
when one of the polls it can make is true, and is bounded in time and polls. Over
whole runs of Performs, commands and stray goroutines, the try counter stays below
maxTries between Performs, and failed starts are bounded by flag flips and
successful starts; the bound is attained for all parameters.

**Configuration** (`Text`, `Cleaner`, `Splitter`, `Loader`, `Meaning`). Comment
removal, the directive splitter with the leftmost-first meaning of its regular
expressions, and the recursive parser with its two walkers, which stay in lockstep
on every input. What a written file declares is stated without the scanners that
read it.

**Registry and life cycle** (`Registries`, `Databases`, `Monitors`, `Lifecycle`).
The objects of the program with their fields updated in place, each method tied to
a function on values; on those functions: ids stay unique, a Reload is all or
nothing, flags survive restarts, and reloads next to which no update runs, what a
command sets lasts through later commands on other checks, and the server's by-id loop
does what the direct loop does.

**Pid files and unique ids** (`Pids`).

## Where the code is weaker than one might expect

- Mutual exclusion of operations is not unconditional: an operation that takes as
  long as the check timeout plus five seconds loses the lock
  (`TimedDoOnce.ExclusiveIff`). The check timeout is fixed at 120 seconds, program
  timeouts are configurable.
- Exclusion is per check object, not per service name: operations on two objects of
  one name overlap exactly when the objects differ
  (`TimedDoOnce.SameServiceOverlapIff`), and a Reload creates new objects.
- Only a duplicate id makes `Reload` refuse a configuration
  (`Lifecycle.ReloadAllOrNothing`). A control file that cannot be read, or that has a
  bad include pattern or a malformed check, is accepted with the checks met so far
  (`Lifecycle.AcceptedDespiteError`); an unreadable control file therefore empties
  the registry. Faults of included files are an error neither at start-up nor at a
  Reload.
- A Reload that swaps two ids can deadlock running updates for good
  (`Reordering.DeadlockIffOpposed`).
- An update that runs during a Reload can make an unmonitored check monitored
  (`Restoring.UnmonitoredComesBack`), because it deletes the entries that the Reload
  has still to read.
- A keyword followed by nothing but blanks takes the next directive as its body,
  because the blanks after a first keyword may contain newlines
  (`Splitter.BareKeywordTakesNext`); `Splitter.SplitRoundTrip` says exactly which
  bodies come back.
- `ReadPid` cannot read back a negative pid that `WritePid` wrote
  (`Pids.PidReadBackIff`).

## Model

| member | source | states |
|---|---|---|
| `DoOnce.ExclusionBound` | monitor/checks.go:137-170 | in every reachable state and for every id, accepted requests not yet cleaned up plus one for a free flag is at most one plus the timer cleanups executed, and equals one before the first timer cleanup |
| `DoOnce.BoundReached` | monitor/checks.go:154-167 | for every n a run exists in which n expiries let n + 1 requests of one id run at once, so mutual exclusion fails from the first expiry on and the bound is tight |
| `DoOnce.NoStuckLock` | monitor/checks.go:150-168 | after any run, a set flag means that the request which last took it has not done its deferred cleanup |
| `DoOnce.NextRequestAccepted` | monitor/checks.go:142-153 | when all requests of an id have finished, the next request takes the flag |
| `DoOnce.EveryRequestCanFinish` | monitor/checks.go:158-168 | from every reachable state all requests can finish within four steps for each; then every flag is free |
| `DoOnce.CheckState.Take` | monitor/checks.go:104-112 | succeeds exactly when the flag was free, and leaves it set |
| `DoOnce.CheckStates.Request` | monitor/checks.go:142-153 | the table lookup and Take change all flags as the two machine steps do, and a request is blocked exactly when the flag of its id was set |
| `DoOnce.CheckStates.CleanUp` | monitor/checks.go:154-156 | frees the flag of its own id and no other |
| `TimedDoOnce.PunctualLocksExactly` | monitor/checks.go:158-168 | while every callback is shorter than the expiry timeout, live requests are one when the flag is set and none when it is free |
| `TimedDoOnce.NeverOverdue` | monitor/checks.go:158-168 | in no reachable state is a request unfinished after the instant at which its work is over |
| `TimedDoOnce.FinishesWhenDue` | monitor/checks.go:158-168 | from every reachable state a running request can finish at that very instant, and a new request of its id is accepted then |
| `TimedDoOnce.ExclusiveIff` | monitor/checks.go:137-170 | no two requests of an id are ever at work together if and only if every callback is shorter than the expiry timeout |
| `TimedDoOnce.OperationsExclusive` | monitor/checks.go:174-183 | for the Perform, Start, Stop and Restart of one check object: no overlap if and only if the longest duration of each is below check timeout plus five seconds |
| `TimedDoOnce.ShortTimeoutsExclude` | monitor/server.go:137-150 | stop and start timeouts that together stay below check timeout plus five seconds exclude every overlap of periodic performs and client commands |
| `TimedDoOnce.OverlapIff` | monitor/checks.go:137-153 | with punctual callbacks, requests of two unique ids can be at work together, with no timer fired, if and only if the ids differ |
| `TimedDoOnce.SameServiceOverlapIff` | monitor/checks.go:230-235 | two check objects of one service name can have operations at work together if and only if their addresses differ |
| `Waiting.WaitUntil` | utils/utils.go:7-38 | the loop ends at the first true poll, or at the timeout after every poll was false, for any choice at simultaneous timers |
| `Waiting.SuccessIff` | utils/utils.go:26-37 | a wait succeeds if and only if some poll it can make is true |
| `Waiting.WaitIsBounded` | utils/utils.go:19-37 | it ends by the timeout and polls at most timeout / interval + 1 times |
| `Waiting.StableIsSeen` | utils/utils.go:26-37 | a predicate true from one interval before the timeout on is seen within one interval |
| `Retry.TriesBelowMax` | monitor/checks.go:448-454 | after any run, the try counter is below maxTries between Performs |
| `Retry.BoundedRetries` | monitor/checks.go:409-456 | over any run, failed starts are at most maxTries * (1 + flips) + (maxTries - 1) * successes, hence at most maxTries * (1 + flips + successes) |
| `Retry.FlagIsLastSet` | monitor/checks.go:448-454 | after any run the flag is what the last step that sets it gave it: set by a start, cleared by a stop and after maxTries failures, the given value by a command |
| `Retry.TotalsCountSteps` | monitor/checks.go:409-456 | after any run the totals are the numbers of failed and successful starts, unmonitorings and flips in its steps, and goroutines run once for each time they are spawned |
| `Retry.BoundedFailures` | monitor/checks.go:409-456 | the same bound on the steps of a run alone |
| `Retry.RetryBudgetSpent` | monitor/checks.go:409-456 | for every maxTries, flips and successes a run meets the first bound with equality |
| `Retry.PerformRun` | monitor/checks.go:413-455 | the undisturbed steps of a Perform add up to its effect on counter, flag and goroutines |
| `Checks.NoLongerThanLongest` | monitor/checks.go:460-515 | every operation ends within its longest duration, computed from the program timeouts |
| `Checks.LongestIsReached` | monitor/checks.go:460-515 | and some process makes it last that long |
| `Checks.Check.Initialize` | monitor/checks.go:380-404 | defines the flag as monitored and replaces unset program timeouts by the check timeout |
| `Checks.Check.Perform` | monitor/checks.go:409-456 | acts exactly on a monitored process seen not running; then it spawns one start, waits as WaitUntil does, and takes counter, flag and start time where the retry machine takes them |
| `Checks.Check.RunStart` | monitor/checks.go:471-485 | leaves the check monitored whatever the process does, and runs the program exactly when it is down |
| `Checks.Check.RunStop` | monitor/checks.go:497-505 | leaves the check unmonitored whatever the process does, and runs the program exactly when it is up |
| `Checks.Check.Start` | monitor/checks.go:489-495 | spawns one start and reports whether the process was seen running in time |
| `Checks.Check.Stop` | monitor/checks.go:509-515 | spawns one stop and reports whether the process was seen down in time |
| `Checks.Check.Restart` | monitor/checks.go:460-469 | starts only after a stop that worked, waits for each in turn with independent choices at simultaneous timers, and on success saw the process down and later up |
| `Updates.StepStructured` | monitor/monitor.go:168-188 | every step of updates and of a Reload keeps: a run has locked the entries of a first part of its list, each once, and a locked entry is known to its owner |
| `Serialised.RunsAreSerial` | monitor/monitor.go:170-178 | over a fixed list, at most one run holds locks in any reachable state, and what it holds are entries in list order without repetition |
| `Serialised.NeverDeadlocked` | monitor/monitor.go:170-187 | in no reachable state does a set of runs wait for itself |
| `Serialised.RunsAreBounded` | monitor/monitor.go:168-188 | no run of the system has more than (5 * checks + 2 * entries + 8) * threads steps |
| `Serialised.EveryUpdateReturns` | monitor/monitor.go:168-188 | a run of the system that cannot go on has finished every update |
| `LostUpdates.NoLostUpdates` | monitor/monitor.go:391-403 | when all runs have finished, the entries are exactly the ids of the list, each with the final flag of its check, and the state file equals them if the last Serialize succeeded |
| `LostUpdates.CommandsDecide` | monitor/monitor.go:391-420 | the final flag of a check is the initial one without a command for it, the value of the command with one, and that of the command that came last to set it with several |
| `LostUpdates.CommandReachesEntry` | monitor/monitor.go:391-420 | one command for a check ends up in its entry, and in the file if the last Serialize succeeded, whatever the other runs do |
| `LostUpdates.FlagIsLastSetting` | monitor/checks.go:277-283 | after any steps and plain settings the flag of a check is the one that was set last |
| `LostUpdates.WithoutFailureSynced` | database/database.go:149-175 | when no open and no write fails, the file holds all entries in the end |
| `LostUpdates.SerializeMayFail` | database/database.go:166-175 | a failed open leaves the file alone, a failed write leaves anything, and the run goes on to unlock |
| `LostUpdates.NoLostFlags` | monitor/checks.go:448-454 | the same when flags are also set without an update at any time, as long as one update has not begun at the last such time |
| `LostUpdates.NoLostFlagOf` | monitor/checks.go:448-454 | for one check it is enough that some run has still to read its flag at that time |
| `LostUpdates.StepNotLost` | monitor/monitor.go:170-178 | every step keeps: for each check, a run is still to read its flag, or the flag is about to be written, or it is in the entry and nothing else is about to be written |
| `LostUpdates.StepFileInv` | database/database.go:149-175 | every step keeps: a run has still to end its Serialize, or the file equals the entries unless the last Serialize failed |
| `Deadlocks.NoDeadlock` | monitor/monitor.go:170-178 | runs along two lists that never order two ids oppositely cannot wait for each other, whatever entries have been deleted and created again |
| `Deadlocks.SomeRunSteps` | monitor/monitor.go:168-188 | without such a set, some run or the Reload can step as long as a run is unfinished |
| `Reordering.DeadlockIffOpposed` | monitor/monitor.go:255-273 | any number of updates next to one Reload can reach a deadlock if and only if two ids stand in opposite orders in the old and the new list |
| `Cleaner.CleanLines` | monitor/parsing.go:16-32 | the loop returns what `Cleaner.CleanIs` describes |
| `Cleaner.CleanIs` | monitor/parsing.go:16-32 | cleaning a text leaves exactly what remains of its lines, in order: nothing of a comment line, the body without its leading blanks and its comment, and any other line as it is |
| `Cleaner.DroppedIff` | monitor/parsing.go:21-23 | a line is dropped if and only if its first visible character is a comment sign |
| `Cleaner.CleanHasNoHash` | monitor/parsing.go:16-32 | no comment sign survives |
| `Cleaner.CleanKeepsCommentFree` | monitor/parsing.go:26-28 | text without comment signs is returned unchanged |
| `Cleaner.CleanTwice` | monitor/parsing.go:16-32 | cleaning is idempotent |
| `Cleaner.KeptLinesStayApart` | monitor/parsing.go:20-31 | the lines of the output are exactly the kept lines, none merged or split |
| `Splitter.FirstStartIsLeftmost` | monitor/parsing.go:97-104 | the scanner finds the leftmost directive start, and one whenever there is one |
| `Splitter.OpensIff` | monitor/parsing.go:97-100 | a directive opens with a keyword and any blank |
| `Splitter.NextHereIff` | monitor/parsing.go:97-100 | the next one is recognised at a newline, by blanks, a keyword and a literal space |
| `Splitter.SplitCovers` | monitor/parsing.go:107-113 | from the first start on the text is the directives in order with only blank space between them |
| `Splitter.SplitIsComplete` | monitor/parsing.go:97-104 | no directive contains a further directive start after its keyword and leading blanks |
| `Splitter.SplitRoundTrip` | monitor/parsing.go:94-113 | rendering a list of directives, cleaning and splitting gives the list back if and only if every body ends with a visible character, has no comment sign, and has no recognisable directive start after its leading blanks |
| `Splitter.BareKeywordTakesNext` | monitor/parsing.go:97-104 | a keyword that only blanks separate from the next keyword takes it into its own directive, whatever text follows |
| `Splitter.EmptyBodyTakesNext` | monitor/parsing.go:97-104 | the empty body, for which the round trip fails: of the well-formed directives after it the first, when no directive start stands in its body, becomes its body, and the others come out as written |
| `Meaning.ParseHeaderIs` | monitor/checks.go:297-308 | a check that starts with a header has its first word as kind and its second one as id |
| `Meaning.ParseHeaderFinds` | monitor/checks.go:297-308 | the header of a check is that of its first line that has one |
| `Meaning.MalformedIff` | monitor/checks.go:297-308 | a check is malformed if and only if none of its lines has the form of a header |
| `Meaning.IncludeSays` | monitor/parsing.go:64-72 | the pattern of an include is the rest of its first line |
| `Meaning.FileDeclares` | monitor/parsing.go:90-145 | a written file declares exactly what its statements say: the ids of its checks and those of the files its includes match, in order |
| `Meaning.ChecksDeclareIds` | monitor/parsing.go:90-145 | a file without includes declares the ids of its checks, in order |
| `Loader.FileInLockstep` | monitor/parsing.go:76-145 | for all acyclic files the live loader and the validator register the same ids in the same order and end with the same outcome, at every level of inclusion |
| `Loader.FileValidated` | monitor/validation.go:48-59 | the validator succeeds exactly when the declared ids do not repeat, and has then collected exactly the declared ids |
| `Loader.FileKeepsLive` | monitor/config.go:33-37 | loading keeps ids unique, gives every check an entry, and restores every flag from the saved ones |
| `Lifecycle.BootMatchesValidation` | monitor/monitor.go:126-142 | start-up and validation of the same files agree on the ids and, unless no control file is configured, on the outcome |
| `Lifecycle.ReloadAllOrNothing` | monitor/monitor.go:255-273 | a Reload is accepted if and only if the declared ids do not repeat; a refused one changes nothing, an accepted one registers exactly the declared ids and drops no entry |
| `Lifecycle.AcceptedDespiteError` | monitor/monitor.go:134-142 | start-up reports an error but a Reload of the same files is accepted if and only if the declared ids do not repeat and the control file itself cannot be read or has a bad include pattern or a malformed check; an unreadable one leaves no check |
| `Lifecycle.ReloadIsStable` | monitor/monitor.go:255-273 | reloading unchanged files never changes the list of ids |
| `Lifecycle.RestartRestores` | monitor/monitor.go:226-251 | after a successful update, a restart with any configuration gives each surviving id its flag and every other id monitored |
| `Lifecycle.ReloadRestores` | monitor/monitor.go:226-251 | an accepted Reload right after an update does the same when no update runs during it |
| `Restoring.ReloadRestoresIff` | monitor/monitor.go:255-273 | next to any number of plain updates, a Reload gives every surviving id its flag in every interleaving if and only if there is no update or every surviving id is monitored |
| `Restoring.UnmonitoredComesBack` | monitor/monitor.go:170-187 | the failing run: an update over the cleared list deletes the entry of an unmonitored check, which the Reload then makes monitored |
| `Lifecycle.UnusableFileMonitorsAll` | database/database.go:107-122 | with a missing, unreadable, empty or malformed state file every check starts monitored |
| `Lifecycle.InvariantAlways` | monitor/monitor.go:226-251 | after start-up and any commands, ids are unique and every registered check has an entry |
| `Lifecycle.CommandsMean` | monitor/monitor.go:405-456 | any sequence of commands on the registry leaves the ids, flags and entries that independent effects on a list of ids and two maps leave |
| `Lifecycle.CommandLasts` | monitor/monitor.go:391-420 | what Monitor or Unmonitor sets stays set in the check and in its entry through any other commands and accepted Reloads that declare the id, and after a written update over a restart |
| `Registries.UpdateSynchronises` | monitor/monitor.go:168-188 | right after an update the entries are exactly the registered ids with their flags, and so is the file if the write succeeded; without a name or when the open fails the file is left alone |
| `Registries.SetMonitoredSpec` | monitor/monitor.go:405-420 | a command for an unknown id changes nothing and is an error; one for a known id gives its check the flag and leaves the other flags alone |
| `Registries.AddAllUnique` | monitor/monitor.go:263-267 | adding fresh ids to a registry never fails and registers them in order |
| `Registries.SetMonitoredAllSpec` | monitor/monitor.go:438-455 | after MonitorAll or UnmonitorAll every check and every entry has the flag, and the errors are those of the checks whose write failed, in order |
| `Databases.Database.constructor` | database/database.go:19-29 | the entries are those of a valid file, and none otherwise |
| `Databases.Database.Keys` | database/database.go:63-70 | the stored keys, each once, in ascending order |
| `Databases.LessIff` | database/database.go:68-68 | the order of the keys: a proper prefix first, otherwise by the first character that differs |
| `Databases.Database.Delete` | database/database.go:97-105 | removes the record of one key and reports whether there was one |
| `Databases.Database.Serialize` | database/database.go:149-175 | writes exactly the entries, or fails without a file name, at opening, or half way |
| `Monitors.Monitor.FindCheck` | monitor/monitor.go:211-221 | returns the first check with the id, or none |
| `Monitors.Monitor.AddCheck` | monitor/monitor.go:226-251 | refuses a registered id and otherwise registers the check with the flag of its entry, creating a monitored entry if there is none |
| `Monitors.Monitor.UpdateDatabase` | monitor/monitor.go:168-188 | the two loops and the write leave exactly the registered flags in the entries |
| `Monitors.Monitor.SetMonitoredById` | monitor/monitor.go:405-420 | Monitor and Unmonitor set the flag of the check with that id and update, or report an unknown id |
| `Monitors.Monitor.SetMonitoredAll` | monitor/monitor.go:438-455 | one update per check; the result lists the checks whose update failed |
| `Monitors.Monitor.ServeSetMonitoredAll` | monitor/server.go:93-111 | the server's `_all` loop, which looks every check up again by id, leaves the same registry and reports the same failures as the direct loop |
| `Monitors.Monitor.Reload` | monitor/monitor.go:255-273 | the validator, the cleared list and the loop of AddCheck do what Reload on values says |
| `Monitors.Validator.AddCheck` | monitor/validation.go:48-59 | a repeated id clears the success flag and leaves the list, any other id is appended |
| `Monitors.ParseConfig` | monitor/parsing.go:90-145 | the splitting loop drives either walker through exactly the directives of the cleaned text and stops at the first error |
| `Monitors.ParseConfigFile` | monitor/parsing.go:76-88 | an unreadable file is an error, any other is parsed, included files first to last with their errors dropped |
| `Monitors.NewCheck` | monitor/checks.go:285-295 | only the kind `process` makes a process check; the check timeout is 120 seconds |
| `Monitors.NewMonitor` | monitor/monitor.go:92-145 | a new monitor holds the registry loaded from the state file and, if one is configured, the control file |
| `Pids.PidRoundTrip` | utils/process.go:15-31 | a pid below 2^63 is read back from its numeral, with any surrounding space and any lines after the first |
| `Pids.ReadPidIs` | utils/process.go:24-30 | any file is read by its first line, which must be a numeral below 2^64 |
| `Pids.NoPid` | utils/process.go:16-23 | a missing or blank file is an error |
| `Pids.PidReadBackIff` | utils/process.go:61-70 | what WritePid writes is read back without error exactly for pids that are not negative |
| `Pids.UniqueIDIsInjective` | monitor/checks.go:233-235 | two check objects with the same unique id have the same id and the same address |

## How the model relates to the code

- Goroutines are modelled as machines whose steps are the accesses to shared state;
  a theorem about every reachable state covers every interleaving. Each map and
  field access is atomic.
- Time is a number of milliseconds. Timers fire no earlier than due; evaluating a
  poll takes no time. Whether a process runs is an arbitrary function of time.
- The state file is missing, unreadable, empty, malformed or a map of flags; the
  outcome of every write is an input.
- Include patterns are looked up in a given map from pattern to file list, and files
  carry a rank that falls along includes.
- `Updates` takes the AddCheck of an accepted Reload as never refused, which
  `Registries.AddAllUnique` and `Lifecycle.ReloadAllOrNothing` justify.
- In `Monitors`, some loop bodies and branches of the code are methods of their own
  (`AttachEntry`, `SetMonitoredNext`, `ServeNext` and others).

## Left out

- Lifecycle.ReloadRestores: does not speak of updates that run during the Reload, which can undo it; `Restoring.ReloadRestoresIff` does.
- Restoring.ReloadRestoresIff: the updates next to the Reload set no flags themselves; commands that do so change what there is to restore.
- Gob encoding: decoding is taken to undo encoding; DataCollectedAt and Uptime of an entry are not stored by the modelled code and are not modelled.
- ProcessCheck.Parse, parseWithTimeout: the bodies of checks are not parsed; a check is created with unset program timeouts, and results about timeouts hold for arbitrary ones.
- parseObjSet, parseVarSet, SetNamespacedConfig, SetAttribute: `set` directives change no check; the socket file they can set is not modelled.
- Cyclic includes: the code does not terminate on them.
- Glob expansion, absolute paths and file permissions: environment.
- Invalid UTF-8 in configurations: texts are sequences of characters.
- Data races: simultaneous access to a Go map or slice can crash the program; accesses are atomic here.
- Two Reloads at once: one Reload runs next to any number of updates.
- Read locks: AddCheck of a known entry takes a read lock; with a single Reload there is one reader, so it is modelled like a write lock.
- Overlapping Performs in `Retry`: Performs of one check are taken not to overlap, which `TimedDoOnce` gives a condition for.
- Durations beyond 64 bits: times are unbounded numbers.
- Default arguments of WaitUntil: timeout and interval are always given, the interval is positive.
- sort.Strings: modelled as insertion of the keys one by one; the sorting algorithm is not the source's.
- Start, Stop and Restart of all services, HTTP, JSON, routing, the client: dispatch over the modelled operations.
- Status and summary texts, logging, uptime, signals, daemonising, command line: formatting and process plumbing.
