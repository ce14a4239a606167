# A verified model of the SplineCC tree

SplineCC is a TCP congestion control for the ns-3 network simulator, kept in a fork of the
whole simulator. This project models the algorithms of that fork that carry real obligations
and proves what they guarantee, for all inputs and all runs:

- **The parallel test runner** (`test.py`): a dispatcher, workers on two queues, break jobs
  that stop them, an interrupt, and a collector. Every interleaving is a sequence of atomic
  actions (`TestRunner.dfy`). With one worker or more, no interleaving can get stuck, every run
  is short, and each test is delivered exactly once, wherever an interrupt falls
  (`TestRunnerRuns.dfy`). The summary does not depend on the interleaving, and a zero exit code
  is sound even for interrupted runs (`TestTally.dfy`, with `Counting.dfy`).
- **The configuration-path gatherer** (`utils/print-introspected-doxygen.cc`): a depth-first
  traversal of a cyclic graph of types. It records exactly one path for every walk that repeats
  no type, and some path for exactly the reachable types (`SimpleWalks.dfy`, `TypeGather.dfy`).
- **The library load order** (`bindings/python/ns__init__.py`): rounds of a topological sort.
  It ends if and only if no dependency is missing or circular, and round k holds exactly the
  libraries whose longest dependency chain has k links (`LoadOrder.dfy`).
- **The style fixers** (`utils/check-style-clang-format.py`): tab expansion with a state
  machine of guard comments, and trailing whitespace. Fixing is idempotent on file contents,
  although expanding a tab can create a guard (`StyleText.dfy`, `StyleFix.dfy`).
- **The congestion control itself** (`src/internet/model/spline-cc.cc`): the mode machine over
  whole runs (`SplineEpochs.dfy`), its estimates, limits and windows (`SplineWindows.dfy`, with
  `SplineNumbers.dfy`), the algorithm (`SplineCc.dfy`), and how the socket drives it
  (`SplineSocket.dfy`).
- **Timelines** (`utils/grid.py`): binary searches and windows (`Timeline.dfy`).
- **The scheduler benchmark** (`utils/bench-scheduler.cc`): one-pass statistics that refine the
  textbook mean and variance, and the event loop that is measured (`BenchStats.dfy`,
  `BenchEvents.dfy`).
- **The fairness index** (`examples/tcp/dctcp-example.cc`) with its 64-bit wrap-around
  (`Fairness.dfy`), and **the resumable writer** (`examples/tcp/tcp-large-transfer.cc`)
  (`LargeTransfer.dfy`).

Code that updates things in place is a class or a method with loops, proved against functions;
the laws are lemmas about those functions. The threads of the test runner are a transition
system instead, since their interleaving is the point.

## Where the code does not do what is expected of it

Each of these is a lemma or an if-and-only-if below.

- The test runner finishes if and only if it has no test, or a processor was found and the
  process limit is not negative (`TestRunnerRuns.FinishesIffWorkers`).
- With a circular or missing dependency the load order recurses until the stack is full
  (`LoadOrder.EndsIffLoadable`).
- A comment such as ` //<tab>clang-format off` becomes a guard when its tab is expanded. Two
  runs of the tab fixer see the same guards in a file if and only if it has no such line
  (`StyleFix.RunsAgreeIff`).
- A window of ranges with an uncovered end may show too much, with both ends uncovered too
  little; ranges that touch and events at the same time break the windows too
  (`Timeline.ExactIffWindowFits`, `Timeline.ExactIffSeparated`, `Timeline.CompleteIffStrict`).
- The fairness index is a number if and only if n times the sum of squares is no multiple of
  2^64 (`Fairness.NumberIff`), which fails for ten equal counts of 2^32. When it is the exact
  quotient although something wraps, and when it stays in the range of Jain's index, is
  `Fairness.ExactIff` and `Fairness.InRangeIff`; counts for which it does not are in
  `Fairness.IndexLeavesRange`.
- The writer loops for ever if and only if the socket stalls while it reports room
  (`LargeTransfer.EndlessIffStalls`).
- In `spline-cc.cc` the previous bandwidth is never stored, so that the filter that
  `README.md` describes (75% to 150% of the previous value) never applies, and mode PROBE_BW
  is never run. DRAIN_PROBE runs on the ninth increase of an epoch if and only if no increase
  of the epoch read a new minimal round-trip time (`SplineEpochs.ModeOfEveryIncrease`). As
  every path of the socket but one reports that time first, this is every ninth increase but
  for acknowledgements in disorder (`SplineSocket.Connection`,
  `SplineSocket.UnreportedIsSeen`). Congestion leads to START_PROBE, not to DRAIN_PROBE, which
  multiplies by 10/16 where `README.md` has 0.75. The window adjustments of PROBE_RTT are
  overwritten before they have an effect, and its pacing reduction is never taken. The field
  `min_cwnd` is used by `spline-cc.cc` but not declared in `spline-cc.h`; the model follows
  the code and declares it.
- The limits of `spline-cc.cc` are computed in bytes and used in segments, so that an increase
  in PROBE_RTT multiplies the window (`SplineWindows.RttLimitIsEighth`,
  `SplineWindows.GainWindowIsWhole`). The window of the socket becomes zero if and only if the
  window in segments is a multiple of 2^32 divided by the largest power of two in the segment
  size (`SplineCc.SplineCc.SocketWindowIsZero`). That happens when no segment is left, only
  under a shrinking loss (`SplineCc.SplineCc.ModeWindowIsZero`), and without any loss when it
  wraps (`SplineSocket.WindowVanishes`).

## Model

| member | source | states |
|---|---|---|
| TestRunner.InitEstablishesInv | test.py:1430-1469 | with fresh queues and idle workers the protocol invariant holds |
| TestRunner.StepPreservesInv | test.py:987-1055 | every atomic action of the dispatcher, a worker, the collector or the signal handler keeps the invariant: the input queue is a window of the message order, every message taken is in exactly one place, every result is that of its own test |
| TestRunner.RunPreservesInv | test.py:987-1055 | the invariant holds after every interleaving of any length |
| TestRunner.PlacesStep | test.py:987-1055 | exactly-once placement: after any action a message is in one worker, the output queue or the collected list exactly if it was taken, and never twice |
| TestRunnerRuns.NoWorkerStopsEarly | test.py:1740-1747 | when a worker has stopped, only break jobs are left on the input queue, so no dispatched test is stranded |
| TestRunnerRuns.InputQueueIsAWindow | test.py:997-1004 | break jobs form a suffix of the queue in dispatch order, and a job marked as broken by an interrupt never comes back to it |
| TestRunnerRuns.TestsInOrder | test.py:1740-1747 | in every run the jobs that the workers get are the tests in their order, untouched, and then break jobs |
| TestRunnerRuns.ResultsInOrder | test.py:1767-1768 | in every run the main thread gets the results in the order in which the workers put them, and the rest is queued in that order |
| TestRunnerRuns.DeliveredDescribesTest | test.py:987-1055 | in every run each job delivered has the marks of its test, is broken only after an interrupt, and has the return code of the command exactly if that ran |
| TestRunnerRuns.ThreadsWaitFor | test.py:1430-1431 | what each thread can wait for: puts never block, gets only on an empty queue, a join only for its worker |
| TestRunnerRuns.MainThreadInOrder | test.py:1740-1918 | in every run all puts come before the first get of a result, and all these gets before the first join |
| TestRunnerRuns.StoppedAreFew | test.py:992-995 | each break job stops a different worker: stopped workers never outnumber the break jobs taken |
| TestRunnerRuns.NeverStuck | test.py:1744-1768 | no deadlock: every reachable unfinished state has an enabled step that is not an interrupt, given a worker or no test |
| TestRunnerRuns.StepDecreasesMeasure | test.py:987-1055 | every action, the interrupt included, decreases a measure, so no interleaving goes on for ever |
| TestRunnerRuns.FinishedIsDelivered | test.py:1767-1768 | when the main thread has joined all workers both queues are empty, all workers have stopped and each test was collected exactly once |
| TestRunnerRuns.EveryRunDelivers | test.py:1744-1918 | every run has at most 6 actions a test and 7 a worker, and once only an interrupt could still happen all gets and joins have returned and each test was delivered exactly once |
| TestRunnerRuns.WorkersAre | test.py:1438-1469 | as many workers as processors, but no more than the limit if there is one, and none for a negative limit |
| TestRunnerRuns.FinishesIffWorkers | test.py:1438-1469 | a run that finishes exists if and only if there is no test, or a processor was found and the process limit is not negative |
| TestRunnerRuns.InterruptStartsNothing | test.py:1001-1004 | after the exit flag is up no execution starts: the executions that end are exactly those in flight |
| TestRunnerRuns.InterruptBreaksTheRest | test.py:997-1004 | in every finished run, each test that no worker had fetched when the exit flag went up is delivered marked as broken |
| TestTally.CollectResults | test.py:1759-1800 | the collecting loop counts each status exactly and builds the list of failed jobs through its appends and pops |
| TestTally.UpdateFailed | test.py:1783-1788 | the pops take off only the job just appended |
| TestTally.CountsAddUp | test.py:1767-1800 | passed, skipped, failed, crashed, valgrind errors and interrupted jobs add up to the delivered jobs |
| TestTally.CountsAre | test.py:1767-1800 | each count is the number of delivered jobs with the marks and the return codes that stand for it |
| TestTally.ListedTimes | test.py:1783-1788 | how often a job is listed as failed: once for its return code and once more for a suite that crashed or whose file does not pass |
| TestTally.FailedListingInOrder | test.py:1783-1788 | the list keeps the order of delivery |
| TestTally.FailedListingMeaning | test.py:1892-1905 | a job is listed as failed exactly if it ran and its return code, or for a suite its result file, says so |
| TestTally.ZeroIffAllGood | test.py:2011-2014 | the exit code is 0 exactly if every delivered job is unbroken and was skipped or returned 0 |
| TestTally.ExitCodeIsSound | test.py:2011-2014 | for every interleaving and interrupt a zero exit code means that every test was skipped or succeeded; without an interrupt the converse holds too |
| TestTally.SummaryIsDeterministic | test.py:1924-1925 | without an interrupt every interleaving prints the same counts: the numbers of tests with each status |
| TestTally.TestCountsAre | test.py:1924-1925 | these counts are numbers of tests |
| SimpleWalks.WalksAreSimpleWalks | utils/print-introspected-doxygen.cc:451-454 | the depth-first enumeration makes a walk if and only if it repeats no type and avoids the types on the stack at entry |
| SimpleWalks.WalksDiffer | utils/print-introspected-doxygen.cc:456-530 | it makes no walk twice, parallel edges being told apart |
| SimpleWalks.WalksInOrder | utils/print-introspected-doxygen.cc:456-530 | it makes them depth first: each before those that go on from it and those that leave it by a later edge |
| SimpleWalks.StepsAre | utils/print-introspected-doxygen.cc:476-481 | the path elements of a walk are those of the edges it takes, in order |
| SimpleWalks.PathTextIs | utils/print-introspected-doxygen.cc:360-370 | the text of a path: an element behind a slash, one after the other |
| SimpleWalks.EntryText | utils/print-introspected-doxygen.cc:372-377 | the text of each entry is that of the entry path followed by that of the steps of its walk |
| SimpleWalks.FewerToVisit | utils/print-introspected-doxygen.cc:477-480 | each descent leaves one type fewer to visit, which ends the recursion on any finite cyclic graph |
| SimpleWalks.GatheredIsExact | utils/print-introspected-doxygen.cc:447-531 | the entries recorded are those of a list holding each simple walk exactly once, in depth-first order, each with its end type and the entry path extended by the labels of the walk |
| SimpleWalks.LoopErasure | utils/print-introspected-doxygen.cc:447-531 | any walk can be cut down to one that repeats no type and ends alike |
| SimpleWalks.GatheredIffReachable | utils/print-introspected-doxygen.cc:447-531 | a traversal with an empty stack records a type if and only if its root reaches it |
| TypeGather.EdgesMeaning | utils/print-introspected-doxygen.cc:456-530 | the edges followed are the pointer attributes except those to the base object type, the containers, the descendants, and the aggregations in either direction, and nothing else |
| TypeGather.EdgesInOrder | utils/print-introspected-doxygen.cc:456-530 | attributes are followed first, then descendants, then aggregations |
| TypeGather.AttributeEdgesInOrder | utils/print-introspected-doxygen.cc:456-484 | the attributes in their order |
| TypeGather.ChildEdgesInOrder | utils/print-introspected-doxygen.cc:486-502 | the descendants in the order of registration |
| TypeGather.AggregateEdgesInOrder | utils/print-introspected-doxygen.cc:504-530 | the aggregations in the order in which they were recorded |
| TypeGather.EdgesAreFew | utils/print-introspected-doxygen.cc:456-530 | each of them is followed once at most |
| TypeGather.StaticInformation.GetCurrentPath | utils/print-introspected-doxygen.cc:360-370 | the text of the current path, each element behind a slash |
| TypeGather.StaticInformation.HasAlreadyBeenProcessed | utils/print-introspected-doxygen.cc:379-391 | whether the type is on the stack |
| TypeGather.StaticInformation.Follow | utils/print-introspected-doxygen.cc:476-481 | the push, recurse and pop around one edge adds what the traversal of its target records and restores both stacks |
| TypeGather.StaticInformation.DoGather | utils/print-introspected-doxygen.cc:447-531 | the output is extended by exactly the entries of the simple walks and both stacks come back as they were |
| TypeGather.StaticInformation.Gather | utils/print-introspected-doxygen.cc:439-445 | from an empty stack the new entries are for exactly the types reachable from the root |
| TypeGather.StaticInformation.Get | utils/print-introspected-doxygen.cc:393-406 | the recorded paths of a type in order, none exactly if it was never recorded |
| TypeGather.PathsOfInOrder | utils/print-introspected-doxygen.cc:393-406 | these paths are those of its entries, in the order in which they were recorded |
| LoadOrder.WaitingIffChain | bindings/python/ns__init__.py:394-405 | a library still waits after k rounds exactly if a dependency chain of k links starts at it |
| LoadOrder.LayerIsLongestChain | bindings/python/ns__init__.py:407-416 | round k holds exactly the libraries whose longest chain has k links |
| LoadOrder.NoQuickerRounds | bindings/python/ns__init__.py:407-416 | no assignment of rounds that respects the dependencies loads any library earlier |
| LoadOrder.EverythingLoads | bindings/python/ns__init__.py:407-416 | without missing or circular dependencies all is loaded within as many rounds as there are libraries |
| LoadOrder.EveryRoundLoads | bindings/python/ns__init__.py:407-416 | without missing or circular dependencies a round is empty if and only if everything is loaded already |
| LoadOrder.LoadableIff | bindings/python/ns__init__.py:407-416 | some number of rounds loads everything if and only if every dependency is known and none is circular |
| LoadOrder.Sorter.ModulesThatCanBeLoaded | bindings/python/ns__init__.py:394-405 | the nested loops select, in order, exactly the pending modules whose dependencies are all current |
| LoadOrder.SelectInOrder | bindings/python/ns__init__.py:394-405 | selecting modules, and leaving them out, keeps their order |
| LoadOrder.RemoveFirstIs | bindings/python/ns__init__.py:413 | removing a module takes out its first occurrence and nothing else |
| LoadOrder.Sorter.MoveModules | bindings/python/ns__init__.py:412-415 | removing, appending and recording a round one module at a time moves exactly these modules |
| LoadOrder.Sorter.LoadRound | bindings/python/ns__init__.py:410-415 | one round leads from the state after k rounds to that after k + 1 |
| LoadOrder.Sorter.DependencyOrder | bindings/python/ns__init__.py:407-416 | the recursion returns exactly if everything is loaded while the stack has room, and after the least number of rounds |
| LoadOrder.EndsIffLoadable | bindings/python/ns__init__.py:407-416 | with more stack frames than libraries the recursion ends if and only if no dependency is missing or circular |
| LoadOrder.RoundsSort | bindings/python/ns__init__.py:418-421 | the rounds one after the other are a permutation of the libraries with each after all its dependencies |
| LoadOrder.PartsNext | bindings/python/ns__init__.py:418-421 | the sorted list goes on with one round after the other |
| LoadOrder.SortToDependencies | bindings/python/ns__init__.py:385-421 | the sorted list is such a permutation, the rounds one after the other, and exists in the cases stated |
| StyleText.StripSurvivesExpansion | utils/check-style-clang-format.py:636-641 | expanding the tabs of a line leaves its stripped text alone if that has no tab, so a guard stays a guard |
| StyleText.ExpandKeepsCharacters | utils/check-style-clang-format.py:654 | every character but a tab is kept, in order and at its display column |
| StyleText.ExpandBlanksTabs | utils/check-style-clang-format.py:654 | a tab becomes the one to four blanks up to the next multiple of four |
| StyleText.WriteThenRead | utils/check-style-clang-format.py:629-630 | writing lines and reading the file again gives the same lines |
| StyleText.ReadGivesLines | utils/check-style-clang-format.py:629-630 | reading any content gives lines with a line feed only at their end, all but the last with one, which together are the content with its line ends translated |
| StyleText.UniversalIs | utils/check-style-clang-format.py:629-630 | a carriage return is read as a line feed, together with a line feed after it |
| StyleText.SpacesAre | utils/check-style-clang-format.py:636 | the characters that stripping removes |
| StyleFix.EnabledShrinks | utils/check-style-clang-format.py:635-646 | where two runs agree on the guards of the first and differ only where it looked, what is enabled in the second was enabled in the first |
| StyleFix.FixRevises | utils/check-style-clang-format.py:635-654 | a fixing run is related to the next in that way |
| StyleFix.TabsFixedAreOk | utils/check-style-clang-format.py:632-672 | after a fixing run the check finds nothing, for every file |
| StyleFix.TabsFixedIffOk | utils/check-style-clang-format.py:632-672 | the fixer changes the lines exactly if the check objects to them |
| StyleFix.TabsFixedWhere | utils/check-style-clang-format.py:632-654 | tabs are expanded in every line, guards included, but those for which the last guard switched formatting off; these stay as they are |
| StyleFix.TabReportsAre | utils/check-style-clang-format.py:650-661 | there is one complaint for each line that is looked at and has a tab, in order, at its first tab |
| StyleFix.FixedIsTrimmed | utils/check-style-clang-format.py:581 | a line is fixed by cutting off the spaces at its end and adding a line feed, and by nothing else |
| StyleFix.SpaceReportsAre | utils/check-style-clang-format.py:583-595 | there is one complaint for each line that the whitespace fixer changes, in order |
| StyleFix.EndColumnIs | utils/check-style-clang-format.py:590-593 | it is at the display column behind what is kept of the line |
| StyleFix.RunsAgreeIff | utils/check-style-clang-format.py:635-654 | for every file, the next run agrees on what is enabled after each line if and only if no enabled line that is not the opening guard expands to the closing one |
| StyleFix.RunsCanDisagree | utils/check-style-clang-format.py:635-654 | such a line: a latent guard comment, enabled before its tab is expanded, switches formatting off afterwards |
| StyleFix.ClangFormatCanDisagree | utils/check-style-clang-format.py:57-58 | the latent comment for the guards the program uses |
| StyleFix.TabFixKeepsSpaceOk | utils/check-style-clang-format.py:329-349 | expanding tabs never brings trailing whitespace back |
| StyleFix.BothFixersMakeBothOk | utils/check-style-clang-format.py:329-349 | after whitespace and then tab fixing both checks pass |
| StyleFix.CheckTabLines | utils/check-style-clang-format.py:632-665 | the loop finds compliance, fixed lines and complaints as specified; stopping at the first complaint in check mode does not change the verdict |
| StyleFix.CheckTabsFile | utils/check-style-clang-format.py:610-672 | the file is rewritten only in fix mode and only if it is not compliant, and then with tabs expanded where formatting is not switched off |
| StyleFix.CheckSpaceLines | utils/check-style-clang-format.py:579-600 | the same for the loop of the whitespace check |
| StyleFix.CheckTrailingWhitespaceFile | utils/check-style-clang-format.py:558-607 | the same for the file, and each line of a fixed file is the old line without the spaces at its end, and a line feed |
| StyleFix.TabFixIsIdempotent | utils/check-style-clang-format.py:610-672 | a second fixing run changes no file content and finds it compliant |
| StyleFix.StyleFixIsComplete | utils/check-style-clang-format.py:329-349 | on what both fixers leave neither check finds anything, and fixing it again changes nothing |
| StyleFix.ClangFormatFixes | utils/check-style-clang-format.py:57-58 | the same for the guards the program uses |
| StyleFix.CheckStyle | utils/check-style-clang-format.py:329-356 | in check mode success means that both checks pass and the file is untouched; in fix mode both pass afterwards |
| SplineEpochs.RememberedIsLeast | src/internet/model/spline-cc.cc:450-464 | in every run the round-trip time remembered is the least of those that count, which a report of less than a second forgets |
| SplineEpochs.ReportsAre | src/internet/model/spline-cc.cc:450-464 | what a report does to the time remembered: without a time nothing, below a second it is forgotten, and the next is remembered |
| SplineEpochs.EpochMeaning | src/internet/model/spline-cc.cc:76-84 | in every run the epoch counter is the number of increases modulo 9, and the epoch has counted a new minimum exactly if one of its increases read less than all that counts |
| SplineEpochs.ModeOfEveryIncrease | src/internet/model/spline-cc.cc:355-441 | in every run, whatever is reported and read: the ninth increase of an epoch executes DRAIN_PROBE exactly if none of the epoch read a new minimum, else PROBE_RTT; any other START_PROBE under congestion and PROBE_RTT without; PROBE_BW is never executed |
| SplineEpochs.EpochsAreBlind | src/internet/model/spline-cc.cc:450-464 | if every increase follows the report of what it reads, no increase reads a new minimum |
| SplineSocket.UnreportedIsSeen | src/internet/model/tcp-socket-base.cc:1987-2213 | a run of the socket in which an unreported increase does: two duplicates, new data of one segment with a shorter round-trip time, and seven more; the ninth increase executes PROBE_RTT |
| SplineSocket.UnreportedIff | src/internet/model/tcp-socket-base.cc:2110-2213 | the one kind of acknowledgement that increases the window without a report: new data in disorder with fewer segments than duplicates before it |
| SplineSocket.KindIs | src/internet/model/tcp-socket-base.cc:1987-2213 | the window is increased by new data that leaves the socket open or comes before the recovery point of a loss, and how many segments are reported |
| SplineSocket.Arrive | src/internet/model/tcp-socket-base.cc:1987-2213 | on one acknowledgement the algorithm knows the segments of the report and those before, and the mode follows from them and from the window of the socket |
| SplineSocket.LastReports | src/internet/model/spline-cc.cc:465-466 | in every run the segments remembered are those of the last two reports |
| SplineSocket.HistoryIsReported | src/internet/model/tcp-socket-base.cc:1990-2213 | without such an acknowledgement every increase of a connection follows the report of what it reads |
| SplineWindows.NoZeroDenominator | src/internet/model/spline-cc.cc:108-112 | the wrapped 64-bit denominator of the fairness ratio is never zero |
| SplineWindows.FairnessIs | src/internet/model/spline-cc.cc:103-113 | two with nothing in flight, else one more than the whole part of the wrapped square of the window over that of the flight |
| SplineWindows.FairnessIsTwo | src/internet/model/spline-cc.cc:103-113 | without a wrap it is one at least, and two at least exactly if the square of the window in segments, times the segment size, is twice that of the flight |
| SplineWindows.BandwidthIs | src/internet/model/spline-cc.cc:93-101 | the bandwidth is the whole part of the bytes acknowledged over the round-trip time, or the initial window if that is more |
| SplineWindows.EstimateIsWindow | src/internet/model/spline-cc.cc:336-339 | over the reals the gain cancels: the estimate is the window in bytes divided by the segment size and cut off |
| SplineWindows.GainCapIs | src/internet/model/spline-cc.cc:336-344 | where nothing is undefined the limit of PROBE_RTT is in integers: the bandwidth and the round-trip time cancel |
| SplineWindows.RttLimitIsEighth | src/internet/model/spline-cc.cc:341-344 | without a wrap that limit, in segments, is an eighth of the window in bytes times the fairness, exactly for a bandwidth that is a multiple of eight and never less |
| SplineWindows.GainWindowIsWhole | src/internet/model/spline-cc.cc:330-353 | in PROBE_RTT the window is the whole number of segments against that limit; without a shrinking loss it never shrinks, and comes to an eighth of its bytes or more, times the fairness, in segments |
| SplineWindows.StartCapIsAcked | src/internet/model/spline-cc.cc:293-296 | where the bandwidth is the raw estimate, the limit of START_PROBE in segments is three sixteenths of the bytes acknowledged times the fairness, up to what is cut off |
| SplineNumbers.WrapsToZeroIff | src/internet/model/spline-cc.cc:63 | a window in segments comes out as zero bytes if and only if it is a multiple of 2^32 divided by the largest power of two in the segment size |
| SplineCc.SplineCc.PktsAcked | src/internet/model/spline-cc.cc:450-467 | how a report changes the minimal round-trip time and the acknowledgement counts |
| SplineCc.SplineCc.Measure | src/internet/model/spline-cc.cc:55-62 | in every reachable state the filter passes the raw estimate, raised to the initial window |
| SplineCc.SplineCc.FilterBw | src/internet/model/spline-cc.cc:118-139 | with no bandwidth remembered the filter only raises the estimate, to the initial window |
| SplineWindows.FilterWouldClamp | src/internet/model/spline-cc.cc:118-134 | were a bandwidth remembered, the result would lie between three quarters and three halves of it, be the estimate if that does, and be what is remembered on a long round trip |
| SplineWindows.DrainShrinks | src/internet/model/spline-cc.cc:269-282 | draining takes any window above the minimum down, to at most five eighths of itself and of the bandwidth, never below the minimum |
| SplineWindows.DrainWindowIs | src/internet/model/spline-cc.cc:276-281 | without a wrap it is the whole part of five eighths of the lesser of window and bandwidth, or the minimal window if that is more |
| SplineWindows.MinimalWindowIs | src/internet/model/spline-cc.cc:56-57 | the minimal window is the whole part of an eighth of the initial one, or ten |
| SplineWindows.StartWindowBounds | src/internet/model/spline-cc.cc:284-304 | where nothing shrinks and no more than the flight is used, START_PROBE takes the window to its limit at least, elsewhere to its limit at most; it is zero exactly if the grown window is zero under a shrinking loss |
| SplineWindows.GainWindowZero | src/internet/model/spline-cc.cc:330-353 | PROBE_RTT leaves no window exactly under a shrinking loss with less than one segment, or with an undefined estimate of zero |
| SplineCc.SplineCc.ModeWindowIsZero | src/internet/model/spline-cc.cc:417-440 | when the mode that is run leaves no segment, for each mode; DRAIN_PROBE always leaves one |
| SplineCc.SplineCc.SocketWindowIsZero | src/internet/model/spline-cc.cc:61-64 | when the window of the socket becomes zero bytes, for each mode, from the window in segments: written out in integers in PROBE_RTT, where it is at least an eighth of the bytes times the fairness without a shrinking loss |
| SplineSocket.WindowVanishes | src/internet/model/spline-cc.cc:330-353 | three acknowledgements with nothing in flight and no loss take a window of ten segments of 1024 bytes to zero |
| SplineCc.SplineCc.PacingGainRate | src/internet/model/spline-cc.cc:306-328 | pacing is on outside START_PROBE, at one segment or more; the rate is the full one outside PROBE_RTT, and in it at most three quarters of that or one segment |
| SplineWindows.PacingIs | src/internet/model/spline-cc.cc:316-326 | the full rate is the whole part of bandwidth, fairness and round-trip time multiplied, or one segment if that is more |
| SplineCc.SplineCc.CwndNextGain | src/internet/model/spline-cc.cc:330-353 | the window depends on the window in bytes and not on the field that PROBE_RTT has adjusted |
| SplineCc.SplineCc.Probs | src/internet/model/spline-cc.cc:355-441 | the mode machine and the window of each mode; in PROBE_RTT pacing is on, at the full rate, since the reduction is never taken |
| SplineCc.SplineCc.IncreaseWindow | src/internet/model/spline-cc.cc:486-497 | one increase is a step of the mode machine; what its window depends on, the fairness, the bandwidth and the minimal window, by what they are; the window that the mode is entered with, and that of each mode: in integers and multiplied in PROBE_RTT, grown and within the limit in START_PROBE, above the minimum in DRAIN_PROBE; the pacing rate; and exactly when the window of the socket becomes zero |
| SplineSocket.Connection | src/internet/model/tcp-socket-base.cc:1990-2213 | over any acknowledgements, taken as the socket takes them: a ninth increase executes DRAIN_PROBE exactly if its epoch read no new minimum, and so exactly on each ninth if all were reported; any other executes START_PROBE exactly if, with the segments last reported, more is in flight than their bytes and than the window it is entered with, or less than a segment was acknowledged, else PROBE_RTT; PROBE_BW never |
| Timeline.SearchRange | utils/grid.py:99-116 | the loop computes the specified search, in no more turns than the number of ranges can be halved |
| Timeline.HalvingsAre | utils/grid.py:99-116 | how often a number can be halved |
| Timeline.SearchMeaning | utils/grid.py:99-116 | the search fails exactly if no range contains the key, and finds the only one if ranges are separated |
| Timeline.SliceIs | utils/grid.py:130-146 | what a slice shows: the elements from the one bound up to the other, as far as there are any |
| Timeline.GetRanges | utils/grid.py:130-146 | the ranges shown are the slice that the bounds name |
| Timeline.GetRangesBounds | utils/grid.py:147-163 | the bounds, by the cases of which ends are covered, whose slice is what `Timeline.GetRanges` shows |
| Timeline.WindowShowsAll | utils/grid.py:130-146 | with both ends covered the window shows exactly the ranges that meet it, with one end at least those |
| Timeline.ExactIffWindowFits | utils/grid.py:130-163 | when a window is exact, by what a caller can look up: for an uncovered end the first or last range, for two the place where the window would be inserted |
| Timeline.ExactIffSeparated | utils/grid.py:130-163 | all covered windows are exact if and only if the ranges do not touch |
| Timeline.SearchEvent | utils/grid.py:194-211 | the loop computes the specified search, in no more turns than the number of events can be halved |
| Timeline.SearchTimeMeaning | utils/grid.py:194-211 | on increasing times it returns the first index not before the key |
| Timeline.GetEvents | utils/grid.py:219-228 | the events shown are the slice that the bounds name |
| Timeline.GetEventsBounds | utils/grid.py:229-238 | the bounds from the two searches |
| Timeline.EventWindow | utils/grid.py:219-228 | the window shows the events inside it and, if none lies on its end, the first one after it |
| Timeline.CompleteIffStrict | utils/grid.py:219-238 | all windows show all their events if and only if no two events are at the same time |
| BenchStats.NextStep | utils/bench-scheduler.cc:358-362 | one accumulation step turns the mean and the squared deviations of n samples into those of n + 1 |
| BenchStats.SumsAre | utils/bench-scheduler.cc:341-343 | the sum and the squared deviations, sample by sample |
| BenchStats.Accumulate | utils/bench-scheduler.cc:358-362 | the four statements in their order keep average and moment what the samples call for |
| BenchStats.MeanIsCentre | utils/bench-scheduler.cc:341-343 | the squared deviations are not negative and least around the mean |
| BenchStats.Log | utils/bench-scheduler.cc:331-388 | no summary for fewer than two results; otherwise every field is the mean, and under the root the non-negative variance, of that field over all runs: times the number they are the sum and the squared deviations |
| BenchEvents.Simulator.RemoveNext | utils/bench-scheduler.cc:150-154 | events are taken in time order and the clock never goes back |
| BenchEvents.InsertPutsIn | utils/bench-scheduler.cc:174 | a new event is put in behind all that are not later, and before the others |
| BenchEvents.Simulator.Schedule | utils/bench-scheduler.cc:174 | scheduling puts in an event at the time of the clock plus the delay |
| BenchEvents.Bench.Cb | utils/bench-scheduler.cc:163-176 | a callback either stops the simulation at the total or draws one delay, schedules its successor after it, and counts itself |
| BenchEvents.Bench.Run | utils/bench-scheduler.cc:133-161 | whatever the delays are, a run ends after total + 1 callbacks, having drawn one delay for each event, and reports the total; with population 0 after none and reports 0 |
| Fairness.Lagrange | examples/tcp/dctcp-example.cc:193-199 | n times the sum of squares exceeds the squared sum by the squared differences of all pairs |
| Fairness.NothingWrapsIff | examples/tcp/dctcp-example.cc:193-199 | none of the 64-bit values wraps if and only if n times the sum of squares fits |
| Fairness.SmallCountsDoNotWrap | examples/tcp/dctcp-example.cc:193-199 | nothing wraps while n times the largest count is below 2^32 |
| Fairness.IndexIsJain | examples/tcp/dctcp-example.cc:199 | where nothing wraps and some count is not zero the index is the exact quotient, between 1/n and 1, and 1 if and only if all counts are equal |
| Fairness.IndexWraps | examples/tcp/dctcp-example.cc:193-199 | wrapping on the way changes nothing: the index is the squared sum over n times the sum of squares, each wrapped once |
| Fairness.NumberIff | examples/tcp/dctcp-example.cc:193-199 | for all counts the index is a number if and only if n times the sum of squares is no multiple of 2^64, and is not even infinite exactly if the squared sum is such a multiple as well |
| Fairness.NoNumber | examples/tcp/dctcp-example.cc:193-199 | ten zero counts, and ten counts of 2^32, give no number |
| Fairness.ExactIff | examples/tcp/dctcp-example.cc:193-199 | for all counts not all zero the index is the exact quotient if and only if wrapping leaves a divisor and takes from both products in proportion |
| Fairness.InRangeIff | examples/tcp/dctcp-example.cc:193-199 | for all counts the index lies between 1/n and 1 if and only if the wrapped products are in that order |
| Fairness.EqualCounts | examples/tcp/dctcp-example.cc:193-199 | equal counts have index 1 even where they wrap, unless it is no number |
| Fairness.IndexLeavesRange | examples/tcp/dctcp-example.cc:193-199 | counts of ten flows out of that range, with index 3.3 and zero |
| Fairness.AverageIsClose | examples/tcp/dctcp-example.cc:196 | the average is a multiple of eight bits, and short of the true one by less than eight bits a flow |
| Fairness.GroupFairness | examples/tcp/dctcp-example.cc:191-199 | the loop over a group computes the wrapped sum and the index |
| Fairness.PrintFairness | examples/tcp/dctcp-example.cc:184-251 | the averages and indices of the three groups and the two aggregates of the report |
| LargeTransfer.BufferFitsStream | examples/tcp/tcp-large-transfer.cc:51-56 | the buffer of letters goes on with the stream wherever it stands, since 26 divides 1040 |
| LargeTransfer.OfferedIsMost | examples/tcp/tcp-large-transfer.cc:226-230 | a turn offers the most that buffer, stream and room allow |
| LargeTransfer.Writer.constructor | examples/tcp/tcp-large-transfer.cc:105-110 | the filling loop puts letter k mod 26 at place k |
| LargeTransfer.Writer.WriteOnce | examples/tcp/tcp-large-transfer.cc:225-238 | one turn offers as much as buffer, stream and room allow, inside the buffer, and counts what was taken |
| LargeTransfer.Writer.WriteUntilBufferFull | examples/tcp/tcp-large-transfer.cc:221-243 | for every behaviour of the socket the bytes taken are the first currentTxBytes bytes of the stream, and the socket is closed exactly if that is all of it |
| LargeTransfer.CompleteIsNotRefused | examples/tcp/tcp-large-transfer.cc:229-242 | a call that completes the stream was not refused on the way, so that it gets to closing the socket |
| LargeTransfer.ProgressEnds | examples/tcp/tcp-large-transfer.cc:224-238 | a socket that takes something every turn gets at least one byte a turn until the end, and no refusal |
| LargeTransfer.EndlessIffStalls | examples/tcp/tcp-large-transfer.cc:224-238 | over endless turns of the socket the loop goes on for ever if and only if there is always room, never a refusal, and from some turn on nothing is taken of what is left |
| LargeTransfer.CallFollowsTurns | examples/tcp/tcp-large-transfer.cc:224-238 | until a turn ends the loop, a call does what the turns say |
| LargeTransfer.CallEndsAt | examples/tcp/tcp-large-transfer.cc:224-238 | where one ends it the call has sent what they say, whatever turns would follow |
| LargeTransfer.FlowCompletes | examples/tcp/tcp-large-transfer.cc:210-243 | callbacks whose turns all take something complete the stream after as many turns as bytes |
| LargeTransfer.Transfer | examples/tcp/tcp-large-transfer.cc:210-243 | over any number of callbacks what was received is what the turns say of the letters in turn, and the socket is closed exactly if that is all two million |

## Left out

- TestRunner.Apply: the commands, their output and the result files are not modelled; executing a
  test gives an arbitrary but fixed return code, and whether a result file reads PASS is a
  parameter of `TestTally.CollectResults`.
- TestRunner.Enabled: an interrupt while the flag is already up is no action, since it changes nothing.
- TypeGather.StaticInformation.DoGather: its three loops and the steps they share are methods of
  their own; registry, attributes, descent and aggregations are parameters, with all targets
  registered.
- TypeGather.StaticInformation.Gather: the sort-and-unique pass works on a copy, so nothing is
  claimed about order or duplicates of the output.
- LoadOrder.SortToDependencies: one call that starts from an empty table of steps; the default
  argument that later calls would share is not modelled. The room on the stack is a parameter.
- StyleFix.CheckStyle: one file that both checks apply to; clang-format, the include check, the
  choice of files and the process pool are not modelled. The line separator is a line feed.
- StyleFix.CheckTabsFile: a complaint is a line and a column; the text it shows is left out.
- SplineCc.SplineCc.AdjustForRtt: has no contract of its own, since `SplineCc.SplineCc.Probs` shows
  that what it does to the window is overwritten.
- SplineSocket.Connection: doubles are real numbers, and conversions that the language leaves undefined
  give arbitrary values. Of the socket it has what an acknowledgement reports and whether it
  increases the window; the window it has then, and what the algorithm reads, are parameters. The
  body of mode PROBE_BW, which is never run, `CwndEvent` and `GetSsThresh` are left out.
- Timeline.SearchRange: times are integers; adding, sorting and drawing are left out.
- BenchStats.Log: real arithmetic without rounding, and the value under the root instead of the
  root.
- BenchEvents.Bench.Run: the wall-clock times are left out, and delays are whole and not negative.
- Fairness.PrintFairness: the scaling of bits to rates and the files are left out; the quotient
  is exact.
- LargeTransfer.Writer.WriteUntilBufferFull: the socket follows a finite script of turns; what the
  loop does on endless ones is stated about the specification, by `LargeTransfer.EndlessIffStalls`.
- The rest of ns-3: models, examples, build files and documentation.
