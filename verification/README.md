# psutil: a verified model of its stateful core

This project models the part of psutil that has to stay right while the system
changes underneath it: the Python layer that remembers processes, counters, CPU
samples and cached file contents between calls, the traversals and waits built
on it, the parsers it reads /proc with, and three C string routines. Code that
updates objects, dictionaries or buffers in place is modelled by classes, maps in
fields, loops and arrays; each method is proved against a function of its inputs
and the old state, and what psutil promises is proved about those functions, over
whole runs where the promise is about runs.

## Main results

- **Identity and signals** (`Identity.dfy`). In every run of a system that reaps
  PIDs and hands them out again, `is_running()` once false stays false. In the
  runs where a reused PID comes with another, positive and readable creation time
  (`TimesTell`), it is true exactly when the original process still holds its PID,
  two handles are equal exactly when they were made for one process, and a signal
  sent with `_gone` false reaches the original process or raises. Without that
  assumption the exact set of wrong answers is given. With `_gone` latched and
  `_pid_reused` not, `_send_signal` does reach a successor: the exact condition is
  proved for all runs, and a run that shows it.
- **Counter unwrapping** (`WrapNumbers.dfy`). Three linked dictionaries updated
  in place equal a fold over the whole input history, also when the caller
  rewraps the aliased first result. Adjusted counters and all-device totals never
  decrease; for a counter modulo M the shortfall per wrap is between 1 and M - 1.
- **Process tree** (`ProcessTree.dfy`). `children(recursive=True)` terminates on
  every parent map, reads each creation time at most once and returns exactly the
  reachable processes, siblings together and in map order; it comes out
  depth-first, as the docstring's example shows it, exactly when no descendant
  with children of its own comes before a sibling in the parent map, which in
  that example is not so. Whoever is in `p.parents()` has `p` among its
  descendants, and conversely exactly along paths that keep the order of age and
  avoid the lowest PID; `parents()` fails to stop exactly when it runs into a
  cycle, which consists of processes with one creation time and avoids the lowest
  PID.
- **process_iter** (`ProcessIter.dfy`). In every run each cached instance is under
  its own PID. Passes that do not overlap yield an existing instance again exactly
  when it is cached and its PID is not due for removal, so never once it is
  flagged; unflagged survivors keep their instance, whatever their `_gone` says.
  Overlapping generators can yield again whatever is cached or known to one of
  them, flagged or not.
- **Both together** (`Reuse.dfy`). One world of handles and passes, each run of
  which is a run of either: once `is_running` has detected reuse between passes,
  no later non-overlapping pass yields that handle, nothing is yielded for its PID
  in the next pass, and the pass after that has a new entry for it, from which an
  instance of the PID's present holder is made.
- **Waiting** (`Waiting.dfy`). The back-off sequence, `wait_pid_posix` and
  `wait_procs` with their timing: every call ends before its timeout plus 0.04 s,
  gone and alive partition the input, the callback runs once per gone process, and
  each survivor has been seen alive at the moment of return; and there are survivors
  only once the timeout has passed.
- **oneshot** (`Oneshot.dfy`). In one outermost block every file is read
  successfully at most once and all results from it show that one reading; while
  the files do not change, blocks make no difference to any result.
- **Parsers** (`Text.dfy`, `ProcStat.dfy`, `Environ.dfy`, `CpuList.dfy`,
  `Smaps.dfy`). Character-level round trips, and conservation of every field in
  grouped memory maps. `get_blocks` never clears its dictionary: a region repeats
  an earlier region's number for a key its own block does not print, and exactly
  then (unless that number is 0) it is wrong.
- **CPU percentages** (`CpuTimes.dfy`). `cpu_percent` is within 0 and 100 on all
  samples; a thread's calls tile its timeline under every interleaving. The shares
  behind `cpu_times_percent`, guest times apart, add up to 100 exactly when the
  total delta is at least one second, and the rounded numbers it returns add up to
  the same within 0.4: three equal shares come out as 99.9. A comment in the source says deltas cannot be fractions because CPU
  times are integers; on Linux they are ticks divided by CLOCK_TICKS, so the model
  follows the code.
- **C strings** (`CStrings.dfy`). Any sequence of appends leaves the longest
  prefix that fits; spaces are removed in place and nothing else.

## Conventions

Text is ASCII. Creation times are clock ticks. Keys and names that are only ever
compared (device names, the name of a counter function) are numbers. One call of
a method sees one state of the system, given as an argument or as an oracle that
may answer every query differently. Calls that read the system are oracles.
Parameters marked `ghost` only serve the statement or the proof.

## Model

| member | source | states |
|---|---|---|
| `Identity.Process.IsRunning` | psutil/__init__.py:763-794 | the fields after the call and the answer, the PID added to `_pids_reused` exactly when reuse is newly detected |
| `Identity.Process.SendSignal` | psutil/__init__.py:1525-1548 | the fields after the call and whether the signal was delivered, to whom, or what was raised |
| `Identity.OpenExactly` | psutil/__init__.py:402-457 | which PIDs raise what, and when a handle is made for a PID nobody holds |
| `IdentityRuns.IsRunningExact` | psutil/__init__.py:763-794 | in every run, with no assumption on times, True means the original lives or creation times cannot tell the present holder of the PID from it |
| `IdentityRuns.IsRunningCorrect` | psutil/__init__.py:474-483 | when PID reuse comes with another, positive, readable creation time, True exactly when the original process holds the PID |
| `IdentityRuns.FalseIsFinal` | psutil/__init__.py:770-771 | after one False, no run makes `is_running` say True |
| `IdentityRuns.EqualityIsIdentity` | psutil/__init__.py:559-564 | handles compare equal exactly when they were made for the same process |
| `IdentityRuns.EqualityTransitiveExactly` | psutil/__init__.py:543-557 | `__eq__` fails to be transitive exactly through a handle without a usable time |
| `IdentityRuns.EqualityNotTransitive` | psutil/__init__.py:543-557 | a run in which it fails, through a handle made while the process was defunct |
| `IdentityRuns.StrangerExactly` | psutil/__init__.py:576-586 | in every run, with no assumption on times, the exact condition under which a signal reaches a process other than the handle's: `_gone` latched without `_pid_reused`, or an impostor that creation times cannot tell |
| `IdentityRuns.StrangerWhenTimesTell` | psutil/__init__.py:576-586 | where creation times tell processes apart, only the latch is left |
| `IdentityRuns.SignalExactly` | psutil/__init__.py:1525-1548 | in every run and for latched handles too, when a signal raises NoSuchProcess, ValueError or AccessDenied, and when it is delivered to whom |
| `IdentityRuns.FlagsExactly` | psutil/__init__.py:763-794 | what asking or signalling does to a handle's flags, and that nothing else changes |
| `IdentityRuns.ConstructExactly` | psutil/__init__.py:402-457 | a new handle is its PID's present holder's, unflagged, with the creation time exactly when that can be read |
| `IdentityRuns.SignalSafe` | psutil/__init__.py:1527-1548 | entered with `_gone` false, a signal reaches a live original that may be signalled, and which exception is raised in every other case |
| `IdentityRuns.LatchedHandleReachesSuccessor` | psutil/__init__.py:770-771 | a run in which a latched handle signals the successor |
| `IdentityRuns.StepKeepsInv` | psutil/__init__.py:441-457 | what every event keeps about handles, owners and the process table |
| `IdentityRuns.ReachableInv` | psutil/__init__.py:441-457 | that invariant in every reachable world |
| `IdentityRuns.LatchHolds` | psutil/__init__.py:770-794 | latched flags stay latched over every run |
| `WrapSpec.Output` | psutil/_common.py:502-523 | the answer has the keys and widths of the last input, and each number is raw plus carried |
| `WrapSpec.OutputExactly` | psutil/_common.py:502-518 | each number is the raw one plus the pre-drop values of every drop since its key last appeared |
| `WrapSpec.SinceWhen` | psutil/_common.py:502-507 | a key that was not in the call before comes out as its raw tuple |
| `WrapSpec.OutputNeverDecreases` | psutil/_common.py:509-518 | an adjusted counter never decreases between calls that both have its key |
| `WrapSpec.TotalNeverDecreases` | psutil/__init__.py:2412-2415 | the all-device total never decreases while no device disappears |
| `WrapSpec.ShortfallStep` | psutil/_common.py:509-518 | one call detects a wrap exactly when there is one, and falls short by M minus the value before it |
| `WrapSpec.ShortfallPerWrap` | psutil/_common.py:509-518 | against a true counter modulo M the adjusted growth falls short by 1 to M - 1 per wrap and by nothing else |
| `WrapSpec.AddToSums` | psutil/__init__.py:2435 | adding one device to column sums |
| `WrapNumbers.WrapNumbers.constructor` | psutil/_common.py:461-465 | an empty object follows an empty history |
| `WrapNumbers.WrapNumbers.AddDict` | psutil/_common.py:467-473 | a first input is cached by reference, with empty reminders |
| `WrapNumbers.WrapNumbers.RemoveDeadReminders` | psutil/_common.py:475-484 | exactly the listed reminders of vanished keys and their lists are gone |
| `WrapNumbers.WrapNumbers.DeleteReminders` | psutil/_common.py:480-484 | the two deleting loops; no `del` meets a missing key |
| `WrapNumbers.WrapNumbers.SumTuple` | psutil/_common.py:509-519 | what comparing one tuple with the previous one does to bits, reminders and their lists |
| `WrapNumbers.WrapNumbers.OneKey` | psutil/_common.py:498-521 | one key's entry of the answer, new keys included |
| `WrapNumbers.WrapNumbers.SumDict` | psutil/_common.py:494-521 | the whole answer, and tables in step with the extended history |
| `WrapNumbers.WrapNumbers.Run` | psutil/_common.py:486-523 | the answer is the fold over all inputs since the cache was last empty; the first result is the input object itself; other names are untouched |
| `WrapNumbers.WrapNumbers.RunAgain` | psutil/_common.py:494-523 | the same after the first call, with a new result object |
| `WrapNumbers.WrapNumbers.CacheClear` | psutil/_common.py:525-535 | one name or all of them forgotten, everything else as it was |
| `WrapNumbers.TablesAgree` | psutil/_common.py:461-535 | same names everywhere, a reminder positive exactly when listed, everything listed exists and is cached |
| `WrapNumbers.SumColumns` | psutil/__init__.py:2435 | one sum for every column that all devices have |
| `WrapNumbers.Rewrap` | psutil/__init__.py:2430-2433 | rewrapping in place leaves the numbers as they are |
| `WrapNumbers.WrapNumbers.PresentFrom` | psutil/__init__.py:2429-2435 | presenting or rewrapping a dictionary leaves the cached numbers as they are |
| `WrapNumbers.IoCounters` | psutil/__init__.py:2424-2435 | what the callers answer, and that rewrapping the aliased first result does not disturb the cache |
| `ProcessTable.KidsExactly` | psutil/__init__.py:1171-1174 | a PID's list holds exactly its children, each once |
| `Children.ReverseMap` | psutil/__init__.py:1170-1174 | the reversed map holds every PID's children in map order |
| `Children.LookAt` | psutil/__init__.py:1187-1195 | one child looked at keeps the search invariant |
| `Children.TurnTo` | psutil/__init__.py:1180-1186 | turning to an unseen PID keeps it |
| `Children.Complete` | psutil/__init__.py:1177-1198 | with the stack empty nothing reachable is missing |
| `Children.Search` | psutil/__init__.py:1170-1198 | exactly the descendants that live and are no older than the root, each once, after its parent, siblings together in map order; depth-first exactly under a condition on the parent map; each creation time read at most once; AccessDenied exactly when one of them is denied, right after reading it |
| `Children.DirectChildren` | psutil/__init__.py:1158-1169 | exactly the in-time children of the root, in map order |
| `Children.ChildrenOf` | psutil/__init__.py:1152-1198 | both variants with their order, after the reuse check and the root's own creation time, and which error is raised when |
| `ProcessTable.KidsInOrder` | psutil/__init__.py:1171-1174 | a PID's children are listed in map order |
| `Children.EarlierKids` | psutil/__init__.py:1187-1195 | listed children come before the next one in the map |
| `Children.DepthFirstExactly` | psutil/__init__.py:1175-1198 | a result is depth-first exactly when no descendant with children comes before a sibling in the parent map |
| `Children.NextOrSibling` | psutil/__init__.py:1180-1195 | then whatever comes next is a child of the one before or its sibling |
| `Children.SubtreeFollows` | psutil/__init__.py:1143-1146 | in a depth-first result a process's whole subtree comes right after it |
| `Children.BranchBeforeSibling` | psutil/__init__.py:1175-1198 | never depth-first where a child of the root with a child comes before another child |
| `Children.ExampleOrderNotProduced` | psutil/__init__.py:1143-1146 | the docstring's order is depth-first, and no result for its table is |
| `Parents.ParentsOf` | psutil/__init__.py:750-761 | after the reuse check, exactly the processes from which this one descends in order of age, each one step up the table from the one before; in terms of the table and the creation times, what ends the chain and which error fails it |
| `Parents.ParentExactly` | psutil/__init__.py:727-748 | when `parent()` is a process, when None, and when it raises what |
| `Parents.UpClimbs` | psutil/__init__.py:750-761 | a chain of parents goes one step up the table each time |
| `Parents.AgesGoUp` | psutil/__init__.py:737-745 | nobody further up the chain was created later |
| `Parents.ParentsHaveDescendant` | psutil/__init__.py:727-761 | whoever is in `p.parents()` has `p` among its recursive children |
| `Parents.DescendantWithoutParents` | psutil/__init__.py:743-745 | the converse fails, on a table whose processes all exist and whose lowest PID is 1 |
| `Parents.ParentsExactly` | psutil/__init__.py:727-761 | the exact condition: following parents comes to q exactly when there is a path down from q along which nobody is older than its parent and nobody below q is the lowest PID |
| `Parents.WholeChain` | psutil/__init__.py:750-761 | a chain that has come to an end holds exactly those |
| `Parents.CycleShape` | psutil/__init__.py:732-745 | a cycle has one creation time and avoids the lowest PID |
| `Parents.LongChainCycles` | psutil/__init__.py:757-761 | a chain longer than the table goes round a cycle |
| `Parents.StopsExactly` | psutil/__init__.py:750-761 | `parents()` does not stop exactly when the chain reaches a cycle |
| `PassSpec.PassYields` | psutil/__init__.py:1836-1864 | yields come in PID order from the snapshot, the same instance for a cached unflagged PID, none for a flagged one |
| `PassSpec.SurvivorYielded` | psutil/__init__.py:1836-1868 | a surviving unflagged PID yields its instance and stays cached with it |
| `PassSpec.FreshOnePassLater` | psutil/__init__.py:1838-1850 | a flagged cached PID is left out of the pass and gets a new instance in the next |
| `PassSpec.PlayIncreasing` | psutil/__init__.py:1849-1850 | any turns yield in increasing PID order |
| `PassSpec.EntryYielded` | psutil/__init__.py:1850-1868 | an entry whose process is not lost is yielded and left cached |
| `PassSpec.LostForgotten` | psutil/__init__.py:1865-1866 | an entry whose process is lost is not yielded and its PID is forgotten, whether cached or just made |
| `PassSpec.LostMadeAnew` | psutil/__init__.py:1838-1866 | if the PID runs when the next pass begins, that pass has a new entry for it |
| `ProcessIter.Iteration.constructor` | psutil/__init__.py:1836-1849 | the private copy, the drained flags and the sorted list |
| `ProcessIter.Iteration.Step` | psutil/__init__.py:1850-1866 | one turn of the loop; a new instance is what opening the PID gives, and the process is lost exactly when that fails or prefetching does |
| `ProcessIter.Iteration.Finish` | psutil/__init__.py:1867-1868 | the private copy becomes the cache |
| `ProcessIter.Sorted` | psutil/__init__.py:1849 | the PIDs in increasing order |
| `PassRuns.CacheAlwaysOk` | psutil/__init__.py:1782-1868 | in every run, overlapping or not, the cache and every generator's own cache hold each instance under its own PID |
| `PassRuns.SequentialExactly` | psutil/__init__.py:1836-1868 | between non-overlapping passes an existing instance can be yielded again exactly when it is cached and its PID is not due for removal |
| `PassRuns.OverlappingExactly` | psutil/__init__.py:1836-1868 | with overlapping generators exactly when it is cached or known to one that has started, flagged or not |
| `PassRuns.OutOfReach` | psutil/__init__.py:1836-1868 | no run yields an instance that is out of reach |
| `PassRuns.YieldDue` | psutil/__init__.py:1836-1847 | a second pass, begun while another has drained the flags, yields an instance due for removal; a cached one that is not due needs one pass |
| `PassRuns.FlaggedNeverYieldedAgain` | psutil/__init__.py:1844-1847 | an instance flagged between passes is never yielded again |
| `PassRuns.LostNeverYieldedAgain` | psutil/__init__.py:1865-1866 | a cached instance whose process a pass has lost is not yielded again by non-overlapping passes |
| `PassRuns.OverlapBringsItBack` | psutil/__init__.py:1836-1868 | a run from the start after which a flagged instance can come back by overlapping generators, and by no others |
| `PassRuns.StepKeeps` | psutil/__init__.py:1782-1868 | what every event keeps about caches and generators |
| `PassRuns.DueAlways` | psutil/__init__.py:1844-1847 | without overlap every cached instance that is flagged is due for removal |
| `ReuseRuns.Projects` | psutil/__init__.py:1782-1868 | every run of handles and passes together is a run of each, and both agree on which instances are flagged |
| `ReuseRuns.Possible` | psutil/__init__.py:1782-1868 | whatever is enabled can happen in both |
| `ReuseRuns.DetectsExactly` | psutil/__init__.py:777-783 | `is_running` sets `_pid_reused` exactly when another process holds the PID and creation times can tell |
| `ReuseRuns.DetectedNeverYielded` | psutil/__init__.py:777-783 | once detected between passes, no later non-overlapping pass yields that handle |
| `ReuseRuns.OutAlong` | psutil/__init__.py:1836-1868 | a PID left out of a pass stays so until the next one begins |
| `ReuseRuns.FreshOnePassLater` | psutil/__init__.py:1838-1850 | a PID due for removal is yielded by no turn of the next pass and has a new entry in the pass after it, whatever happens meanwhile |
| `ReuseRuns.EntryMakesHolder` | psutil/__init__.py:1812-1815 | that entry's turn yields an unflagged instance of the PID's present holder |
| `BackOff.IntervalClosed` | psutil/_psposix.py:124-139 | the k-th sleep is min(0.0001 times 2 to the k, 0.04) |
| `BackOff.SleepsBounded` | psutil/_psposix.py:134-139 | at most 9 + 25 T sleeps, ended before T + 0.04 |
| `BackOff.SleptInTime` | psutil/_psposix.py:134-139 | what a sleep that only starts before the timeout makes of the whole wait |
| `BackOff.SleptFromNine` | psutil/_psposix.py:124-139 | the time slept from the ninth sleep on |
| `Waiting.ExitCodeRoundTrip` | psutil/_psposix.py:64-92 | exit codes and signals come back from status words; a stopped status is an error |
| `Waiting.System.SleepOrTimeout` | psutil/_psposix.py:134-139 | raises exactly when the time slept reaches the timeout, else sleeps the next interval |
| `Waiting.System.WaitPidPosix` | psutil/_psposix.py:124-160 | every query made and its answer, one sleep per answer that leaves the process there, and the outcome they give; without a timeout the one waitpid() blocks and only a process that is no child is slept for; no sleep with timeout 0; with T > 0 back before T + 0.04 after at most 9 + 25 T sleeps and never raising before T |
| `Waiting.System.PollUntilGone` | psutil/_psposix.py:146-154 | the inner loop goes on with the interval the outer one left |
| `Waiting.System.Wait` | psutil/__init__.py:1633-1652 | cached exit codes, PID 0, the time a call may take, and that a new exit code is what the system reported in this call |
| `Waiting.System.CheckGone` | psutil/__init__.py:1917-1928 | gone on a known exit code or an `is_running` answer of this call, with one callback; alive only if seen alive in this call |
| `Waiting.System.Pass` | psutil/__init__.py:1943-1960 | one pass asks for at most 1.0 s in all, calls back once per process found gone, and makes progress |
| `Waiting.System.LastAttempt` | psutil/__init__.py:1962-1967 | the last attempt takes no time, and whoever is left has been seen alive by it |
| `Waiting.System.Rounds` | psutil/__init__.py:1943-1960 | the loop over passes ends, in time, and with survivors not before the deadline |
| `Waiting.System.WaitProcs` | psutil/__init__.py:1917-1969 | gone and alive partition the input, one callback per gone process and none for others, a known exit code or an `is_running` answer of this call for each gone process, every survivor seen alive at the moment of return, survivors only once the timeout has passed, back before timeout + 0.04 s |
| `Waiting.System.PassProgress` | psutil/__init__.py:1943-1960 | a pass that finds nobody gone uses up time, a poll or an `is_running` answer |
| `Oneshot.Process.Enter` | psutil/__init__.py:633-661 | an outermost block creates both caches, a nested one does nothing |
| `Oneshot.Process.Exit` | psutil/__init__.py:662-670 | leaving the outermost block removes both |
| `Oneshot.Process.ReadFile` | psutil/_common.py:253-280 | a platform reader, cached inside a block only when it succeeds |
| `Oneshot.Process.Get` | psutil/_common.py:253-280 | a getter through both caches |
| `Oneshot.CachesExistWhileInside` | psutil/__init__.py:633-670 | over every nesting both caches exist exactly while inside a block |
| `Oneshot.OneReading` | psutil/_pslinux.py:1696-1761 | in one outermost block each file is read successfully at most once by the cached readers and all results show that reading |
| `Oneshot.FailuresNotCached` | psutil/_common.py:262-275 | a failing call has just tried to read, and leaves the caches alone |
| `Oneshot.FreshOutside` | psutil/_common.py:262-275 | outside any block every call reads its file anew and answers that |
| `Oneshot.Transparent` | psutil/__init__.py:612-670 | while files do not change, any run gives the results it would give without caching |
| `Oneshot.GetInBlock` | psutil/_common.py:253-280 | a call keeps the block's one view of each file |
| `Oneshot.BlockRun` | psutil/__init__.py:633-670 | every run inside a block keeps it |
| `ProcStat.StatRoundTrip` | psutil/_pslinux.py:1707-1735 | any name and all used fields come back; too few fields fail |
| `ProcStat.PpidAgrees` | psutil/_pslinux.py:1601-1604 | on any data `ppid_map` has the integer value of the parsed ppid |
| `ProcStat.ZombieAgreesExactly` | psutil/_pslinux.py:1654-1668 | exactly when `_is_zombie` and the parsed status agree, on any data |
| `ProcStat.ZombieOnPrint` | psutil/_pslinux.py:1654-1668 | they agree on what the kernel writes |
| `Environ.ParseEnvironBlock` | psutil/_common.py:339-364 | the scan folds all entries before the first empty one |
| `Environ.EnvironRoundTrip` | psutil/_common.py:339-364 | it inverts serialisation, the last duplicate wins, whatever follows is ignored |
| `Environ.LastWins` | psutil/_common.py:355-361 | what a sequence of assignments leaves |
| `Environ.PutExactly` | psutil/_common.py:355-361 | the value begins after the first equals sign; entries without one or with no name have no effect |
| `Environ.EntriesOfSerialize` | psutil/_common.py:347-354 | the entries of a serialised block are its lines |
| `CpuList.ParseCpulist` | psutil/_pslinux.py:496-516 | the value of a list text, or ValueError |
| `CpuList.ParseChunk` | psutil/_pslinux.py:502-515 | the value of one chunk, reversed ranges rejected |
| `CpuList.PaddedChunk` | psutil/_pslinux.py:502-515 | blank chunks and white space around ranges are ignored |
| `CpuList.ChunkRejected` | psutil/_pslinux.py:502-515 | a chunk with a character that belongs in no number is an error |
| `CpuList.FailurePersists` | psutil/_pslinux.py:502-515 | one bad chunk fails the list |
| `CpuList.RangesRoundTrip` | psutil/_pslinux.py:496-516 | printed ranges parse to their CPUs in order, unless one is reversed |
| `CpuList.CpulistRoundTrip` | psutil/_pslinux.py:496-516 | parsing inverts the kernel's range printer |
| `CpuList.ExpandLength` | psutil/_pslinux.py:513 | as many CPUs as the ranges hold |
| `CpuList.GetEligibleCpus` | psutil/_pslinux.py:2160-2175 | the parsed list, or all CPUs when there is none |
| `Smaps.MemoryMaps` | psutil/_pslinux.py:2018-2078 | the regions of a file's text, or the exception raised |
| `Smaps.SmapsRoundTrip` | psutil/_pslinux.py:2018-2078 | printed blocks come back one region each; numbers with or without a unit, flags with or without a space at the end |
| `Smaps.EmptyFile` | psutil/_pslinux.py:2036-2045 | an empty file is a zombie's or that of a process without mappings |
| `Smaps.BadLine` | psutil/_pslinux.py:2022-2034 | which lines raise ValueError or IndexError |
| `Smaps.PathsReported` | psutil/_pslinux.py:2048-2061 | deleted files, existing ones whose name ends the same, and `[anon]` |
| `Smaps.HeaderParses` | psutil/_pslinux.py:2048-2061 | address, permissions and path of a header, `[anon]` and deleted files included |
| `Smaps.NumberLine` | psutil/_pslinux.py:2027-2028 | a printed number, with a unit or without, is read as 1024 times itself |
| `Smaps.FlagsSkipped` | psutil/_pslinux.py:2029-2032 | flag lines are skipped |
| `Smaps.ReportedAt` | psutil/_pslinux.py:2019-2035 | region i reports the numbers of all blocks up to i |
| `Smaps.OwnNumbersExactly` | psutil/_pslinux.py:2019-2035 | exactly when a region reports what its own block prints, 1024 times the last number under the key |
| `Smaps.CommonKeysOwnNumbers` | psutil/_pslinux.py:2019-2035 | always so for a key all blocks print, or none: 1024 times the printed number |
| `Smaps.CarryExactly` | psutil/_pslinux.py:2022-2028 | after a block's lines the dictionary has the block's own numbers, and the earlier ones for what it does not print |
| `Smaps.LastPrintedIs` | psutil/_pslinux.py:2027-2028 | a block's own number is 1024 times its last pair under the key |
| `Smaps.CarriedOver` | psutil/_pslinux.py:2018-2035 | of two printed blocks the second reports the first one's number for whatever it does not print |
| `Smaps.CarriedOverExample` | psutil/_pslinux.py:2018-2035 | a printed file for which that is wrong |
| `Grouping.Group` | psutil/__init__.py:1445-1456 | each path once, in first-seen order, every field's sum kept per path and overall |
| `Grouping.FirstSeenInOrder` | psutil/__init__.py:1447-1454 | the paths are those of the regions, in the order of their first regions |
| `Grouping.NothingLost` | psutil/__init__.py:1447-1454 | the sums over first-seen paths are the sums over regions |
| `Rounding.Round1Error` | psutil/__init__.py:2149 | rounding moves by at most 0.05 |
| `Rounding.Round1Exactly` | psutil/__init__.py:2149 | the nearest tenth, of two equally near ones the even one |
| `Rounding.Round1Monotone` | psutil/__init__.py:2149 | rounding is monotone |
| `Rounding.Round1Between` | psutil/__init__.py:2149 | rounding stays within whole bounds |
| `CpuTimes.CpuTimesDeltas` | psutil/__init__.py:2076-2094 | field deltas, negative ones trimmed to zero |
| `CpuTimes.TotalWithoutGuest` | psutil/__init__.py:2044-2073 | guest times cancel out of total and busy time |
| `CpuTimes.BusyWithinTotal` | psutil/__init__.py:2044-2073 | busy time is between zero and the total |
| `CpuTimes.CpuPercent` | psutil/__init__.py:2139-2149 | the rounded busy percentage, within 0 and 100 on all samples |
| `CpuTimes.CpuTimesPercent` | psutil/__init__.py:2203-2219 | each field's own share, guest times included, cut off at 100 and within 0.05 |
| `CpuTimes.ReturnedNearShare` | psutil/__init__.py:2203-2219 | the same of the number returned for one field |
| `CpuTimes.SharesAddUp` | psutil/__init__.py:2203-2219 | before rounding the shares add up to 100 exactly when the total delta is at least one second, and to what otherwise |
| `CpuTimes.ShareNotClamped` | psutil/__init__.py:2214-2217 | clamping never changes a share that is not a guest time's |
| `CpuTimes.ReturnedAddUp` | psutil/__init__.py:2203-2219 | the returned numbers that are not guest times add up to the same within 0.4 |
| `CpuTimes.ThirdsAddUpToLess` | psutil/__init__.py:2214-2217 | deltas of one second each in three fields, returned as 33.3 three times |
| `CpuSampling.Sampler.constructor` | psutil/__init__.py:2025-2041 | the importing thread has a sample |
| `CpuSampling.Sampler.Take` | psutil/__init__.py:2151-2172 | which two samples a call works with, how many it takes, and what it stores |
| `CpuSampling.CallsTile` | psutil/__init__.py:2151-2172 | in every interleaving a non-blocking call starts where its thread's previous call ended |
| `CpuSampling.TakeKeepsTiled` | psutil/__init__.py:2151-2172 | what one call keeps of that |
| `CpuSampling.DeltasAddUp` | psutil/__init__.py:2076-2079 | the deltas of tiling calls add up to the whole |
| `CStrings.StrCopy` | psutil/arch/all/str.c:71-86 | the whole buffer after copying, and the return value |
| `CStrings.FitIsLongest` | psutil/arch/all/str.c:71-86 | what is kept is the longest prefix with room for the terminator |
| `CStrings.StrAppend` | psutil/arch/all/str.c:92-112 | the whole buffer after appending, its string, and the return value |
| `CStrings.AppendsKeepLongestPrefix` | psutil/arch/all/str.c:89-112 | any sequence of appends leaves the longest prefix that fits |
| `CStrings.AppendEach` | psutil/arch/all/str.c:89-112 | the same of the buffer after a series of calls, all of which succeed exactly when everything fits |
| `CStrings.RemoveSpaces` | psutil/arch/freebsd/proc.c:16-25 | the string in place with its spaces filtered out, the rest of the buffer as it was |
| `CStrings.OnlySpacesGone` | psutil/arch/freebsd/proc.c:16-25 | only spaces are gone, and a second time changes nothing |
| `CStrings.NoSpacesPiecewise` | psutil/arch/freebsd/proc.c:16-25 | the order of what is kept |

## Left out

- Concurrency between the identity check and `os.kill`: both see one process table, as the source calls the race inherent.
- Platforms whose identity has no creation time, the Windows branches, and the OpenBSD zombie branch of `_send_signal`.
- `Popen`: only its way of opening a missing PID is modelled, not its runs.
- `Waiting.System.WaitProcs`: assumes that an ended wait finds `is_running` True only finitely often, and without a timeout that every process ends. Without the second assumption the source may loop for ever; without the first one it may, when there is no timeout, and make any number of passes before a deadline when there is one.
- `Waiting.System.WaitPidPosix`: sleeps take exactly their time, a blocking waitpid() is an oracle for how long it takes, and polls take none.
- `Waiting.System.WaitProcs`: processes are PIDs, where the source has sets of Process objects; two handles of one PID with different creation times, which are not equal, count as one.
- `wait_pid_pidfd_open` and `wait_pid_kqueue`: kernel waits around the polling path.
- `WrapNumbers.WrapNumbers.Run`: a tuple wider than the previous one under its key, which raises IndexError in the source, is excluded by its precondition.
- `Parents.ParentsOf`: defined where following parents stops, which `Parents.StopsExactly` characterises; the source loops for ever elsewhere.
- `ProcessIter.Iteration.Step`: prefetching attributes is reduced to whether it loses the process.
- `Oneshot.Process.Get`: the identity probe inside `ppid()` and the creation time kept across blocks belong to other caches and are not counted as reads of the block.
- `Oneshot.OneReading`: a reader that fails because the process is gone makes `wrap_exceptions` call `_is_zombie`, which reads the stat file once more outside the cache; that read is not modelled.
- `Oneshot.Process.Get`: `memory_info_ex`, which the front cache also holds, combines several files and is not among the getters.
- Races between threads inside one `oneshot` block.
- White space and digits outside ASCII, and the characters \x1c to \x1f, which `str.strip()` removes as well; the Windows upper-casing of environment names.
- `threads()`, which looks for the first closing parenthesis of a stat line.
- Binary floating point: times and percentages are reals.
- Sensors, disks, network tables, users, command lines and other getters that only pass fields along.
