# Verified models of the nr scenario and utility code

This project models the algorithms and small protocols that live in the scripts of an ns-3 tree with NR (5G)
handover scenarios, and proves what they are there for. Each module stands for one component.

* **ConfigPaths** is the gatherer of configuration paths: a recursive traversal of the cyclic graph of object types
  which keeps the types above the present one on a stack and their labels on another. The walks of the graph are
  defined on their own, by positions of edges; the traversal turns out to enumerate the simple ones, each once.
* **WorkerPool** and **TestReport** are the parallel test runner: a step relation for the main thread, the worker
  threads, the two queues, the break jobs and the interrupt flag, followed by the loop that counts the results.
* **LoadOrder** is the layered sort of libraries by their dependencies.
* **HexGrid** generates the beam centres. A position is kept exactly, as x / sqrt(3) and y, and compared with
  integer lattice coordinates; **Beamwidth** and **ServingCell** are the bisection for the half-power beamwidth and
  the choice of a serving cell with its signal, interference and signal quality.
* **PeriodicUpdates** are the three self-rescheduling processes that move the beams, refresh the caches derived from
  the positions and refresh the link delays. Events run by time and, at equal times, in the order of insertion,
  which is what is assumed of the simulator; events of other kinds may come in between and schedule more of theirs.
* **StyleFixer** is the line-by-line style fixer with its on and off guards, on texts, lines and tab stops.
* **MessageCounters**, **DecimalText**, **AttributeText** and **CompactAnimation** are the animation support of the
  conditional-handover scenario: message counters, numbers and attributes in text, and the compact copy of a file.
* **RunStatistics** and **BenchPopulation** are the scheduler benchmark: its one-pass statistics and its event loop.
* **Sequences** and **Reals** hold what several modules use.

Objects with fields are classes, in-place rewriting works on an array, and loops are methods with invariants; each
is proved against functions and predicates about which the lemmas speak. Numbers that the source keeps in floating
point are reals here; 32-bit counters wrap around as they do in the source. Trigonometry at the six directions of
the hexagon is exact; the antenna gain, the conversion from dBm to watts, distances and orbits are given functions.

Some results differ from what the comments in the source, or a first reading of it, suggest:

* The gatherer does not remove duplicate records, since `Uniquefy` works on a copy of its argument. The output has
  none exactly when different simple walks have different records (`ConfigPaths.DuplicateFreeIffWalksAreTold`);
  the pair of types that the source records twice breaks this (`ConfigPaths.GatherAfterRecordingTwice`).
* A crashed test suite is listed twice among the failed jobs, and a suite that returns 0 or a failure code is judged
  a second time by the result in its output file (`TestReport.FailedJobsOfRun`).
* The sort of libraries meets its purpose exactly when the dependencies are closed and acyclic; otherwise something
  is pending after any number of rounds (`LoadOrder.RoundsEndIffClosedAndAcyclic`).
* Fixing tabs can turn an ordinary line into a guard (`StyleFixer.FixCanMakeGuard`), and leaves formatting on and off
  where it was exactly when it does not (`StyleFixer.GuardsAgreeIffNoneIsMade`); the fixed file passes in any case.
* A node's message total is the sum of its counts by type exactly while the total has wrapped around as often as the
  counters of the types together (`MessageCounters.Counters.TotalIsSumOfTypes`); `MessageCounters.WrapTotal` is a
  run after which it has not.
* Writing one coordinate of a line may change what is read for the other one (`AttributeText.OtherMayChange`). The
  other one loses its place exactly when its value begins at the closing quotation mark of the first, whose text then
  ends in the name of the other (`AttributeText.OtherStaysInPlace`), and reads differently exactly when what is found
  from that mark on does (`AttributeText.OtherReadsTheSameIff`).
* So a position that is written may not be read again (`CompactAnimation.WrittenPointMayBeLost`);
  `CompactAnimation.WrittenPointReads` says when it is. A compacted line may also stop being one of its kind, when
  what marks the kind was only in the texts that are written over (`CompactAnimation.CompactedLineKeepsKind`).
* Compacting is idempotent for large enough spans only; `CompactAnimation.IdempotentWhenSettled` says which.

## Model

| member | source | states |
|---|---|---|
| ConfigPaths.OneRecordPerSimpleWalk | utils/print-introspected-doxygen.cc:505-596 | a pass from a root appends one record for each simple walk that starts there, no walk is missing, none counts twice, and each record is its walk's end type with its labels |
| ConfigPaths.RecordsMatchWalks | utils/print-introspected-doxygen.cc:513-596 | from any stack and path, the records appended are, in order, those of the walks that the traversal meets |
| ConfigPaths.WalksAreSimple | utils/print-introspected-doxygen.cc:445-457 | the walks met below a stack of ancestors are exactly those that repeat no type, ancestors included |
| ConfigPaths.WalksAreDistinct | utils/print-introspected-doxygen.cc:513-596 | no walk is met twice, even along parallel edges |
| ConfigPaths.ParallelEdgesRepeatRecords | utils/print-introspected-doxygen.cc:489-511 | wherever a simple walk leads, two equal edges from there to a type that is not on it make two equal records, which remain in the output |
| ConfigPaths.DuplicateFreeIffWalksAreTold | utils/print-introspected-doxygen.cc:505-511 | the output of a pass is free of duplicates if and only if no two simple walks from the root end at one type with the same labels |
| ConfigPaths.DuplicateFreeByLabels | utils/print-introspected-doxygen.cc:505-596 | if the labels out of each type differ and names have no slash of their own, the output of a pass is free of duplicates |
| ConfigPaths.LabelsGiveWalk | utils/print-introspected-doxygen.cc:513-596 | with such labels a walk can be told from its labels |
| ConfigPaths.PathGivesLabels | utils/print-introspected-doxygen.cc:426-436 | the labels can be told from the text of a path, the mark of a container included |
| ConfigPaths.RepeatedPairRepeatsRecords | utils/print-introspected-doxygen.cc:575-595 | an aggregation pair that is recorded twice repeats a record of every pass from either of its types |
| ConfigPaths.GatherAfterRecordingTwice | utils/print-introspected-doxygen.cc:630-632 | the pair that the source records twice leaves a duplicate in the output of a pass |
| ConfigPaths.PathsAreSimpleWalksTo | utils/print-introspected-doxygen.cc:459-472 | after a pass a query for a type returns a path if and only if it labels a simple walk from the root to that type |
| ConfigPaths.PathsOfMembers | utils/print-introspected-doxygen.cc:459-472 | a path is returned for a type if and only if some record pairs them |
| ConfigPaths.StepRecord | utils/print-introspected-doxygen.cc:438-443 | a walk's record is that of its tail with one more label on the path |
| ConfigPaths.TypeGraph | utils/print-introspected-doxygen.cc:522-595 | every step out of a registered type leads to a registered type; which steps there are is stated by StepsOutOfType |
| ConfigPaths.StepsOutOfType | utils/print-introspected-doxygen.cc:522-595 | a step leads out of a type if and only if it is that of a pointer attribute to another type than Object, of a container attribute with the mark behind its name, of a registered child, or of an aggregation pair with the type at either end, with the name of the other end; and it is there once for each of these reasons |
| ConfigPaths.AttributeEdgesWithin | utils/print-introspected-doxygen.cc:522-561 | pointer and container attributes lead to types of the registry |
| ConfigPaths.ChildEdgesWithin | utils/print-introspected-doxygen.cc:562-574 | child steps lead to registered types |
| ConfigPaths.AggregateEdgesWithin | utils/print-introspected-doxygen.cc:575-595 | aggregation steps lead, in either direction, to types of the registry |
| ConfigPaths.StaticInformation.GetCurrentPath | utils/print-introspected-doxygen.cc:426-436 | the labels of the stack, each behind a slash |
| ConfigPaths.StaticInformation.HasAlreadyBeenProcessed | utils/print-introspected-doxygen.cc:445-457 | true if and only if the type is among the ancestors |
| ConfigPaths.StaticInformation.Get | utils/print-introspected-doxygen.cc:459-472 | the recorded paths of a type, in order |
| ConfigPaths.StaticInformation.Gather | utils/print-introspected-doxygen.cc:505-511 | the output grows by the records of the simple walks from the root; the stacks are empty again |
| ConfigPaths.StaticInformation.DoGather | utils/print-introspected-doxygen.cc:513-596 | terminates on cyclic graphs, restores both stacks, and appends exactly the records of its subtree of walks |
| ConfigPaths.StaticInformation.GatherAttributes | utils/print-introspected-doxygen.cc:522-561 | the first loop adds the records behind the attribute steps |
| ConfigPaths.StaticInformation.GatherChildren | utils/print-introspected-doxygen.cc:562-574 | the second loop adds those behind the child steps |
| ConfigPaths.StaticInformation.GatherAggregates | utils/print-introspected-doxygen.cc:575-595 | the third loop adds those behind the aggregation steps |
| ConfigPaths.StaticInformation.Follow | utils/print-introspected-doxygen.cc:541-545 | one push, visit and pop: records of one more step, stacks as before |
| ConfigPaths.GatherAllKinds | utils/print-introspected-doxygen.cc:505-596 | the records, in order and in full, of one pass over a registry with a pointer, a container, a pointer to an Object, a child and an aggregated type |
| WorkerPool.StepInv | test.py:1087-1171 | every step of any thread keeps the invariant: jobs conserved, break jobs last, reports truthful, phases in order |
| WorkerPool.StepConserved | test.py:1087-1171 | a step leaves every dispatched job in exactly one place: queued, held by one worker, or reported |
| WorkerPool.StepQueue | test.py:1936-1943 | break jobs stay behind the real jobs, and once a worker has left only break jobs are queued |
| WorkerPool.StepDecreases | test.py:1087-1171 | each step other than an interrupt lowers a bounded measure |
| WorkerPool.NoDeadlock | test.py:1963-1964 | with a worker at hand every unfinished state has a next step other than an interrupt |
| WorkerPool.ExitsOnlyWhenDrained | test.py:1094-1095 | a worker leaves only when no real job is left in the input queue |
| WorkerPool.RunInv | test.py:1585-1626 | the invariant holds in every state of every run, whatever the interleaving and the interrupt |
| WorkerPool.RunsAreBounded | test.py:1585-1964 | a run makes no more than six steps for each job and three for each worker, interrupts aside |
| WorkerPool.StuckRunsAreDone | test.py:2128-2129 | a run that cannot go on has collected all results and joined all workers |
| WorkerPool.EachJobReportedOnce | test.py:1963-1964 | at the end the collector has got each job exactly once, skipped ones as skipped and interrupted ones only after an interrupt |
| WorkerPool.CodesAreThoseOfTheChildren | test.py:1128-1171 | in a finished run a code is reported for a job if and only if the child process of that job ended with that code |
| WorkerPool.InterruptedReports | test.py:1102-1105 | a job is reported as interrupted if and only if a worker that had it read the flag after an interrupt |
| WorkerPool.SkippedReports | test.py:1111-1115 | a job is reported as skipped if and only if it is marked and a worker that had it read the flag before any interrupt |
| WorkerPool.CollectedInOrder | test.py:1963-1964 | in every state of every run what is collected and what waits to be are together the reports in the order in which the workers put them |
| WorkerPool.TakenInOrder | test.py:1094 | in every state of every run the real jobs that are still queued are the last ones that were dispatched, in the order of their numbers |
| WorkerPool.WorkersWaitForInput | test.py:1092-1171 | in every state of every run a worker can take its next step, whatever code its child ends with, unless it waits for an entry of an empty input queue or has left |
| WorkerPool.MainThreadWaits | test.py:1936-1964 | the main thread never waits while it dispatches, then only for a missing result, and then only for the next worker to leave |
| WorkerPool.RunCanFinish | test.py:1087-1964 | whatever has happened in a run, it can go on to its end without another interrupt and with any codes of the children |
| WorkerPool.AnyCodes | test.py:1128-1171 | for any codes some run ends with the marked jobs skipped and every other job reported with its code |
| TestReport.CollectResults | test.py:1955-2121 | the counters are the numbers of results of each verdict, and the failed jobs are the entries each result leaves behind |
| TestReport.CountResult | test.py:1973-1999 | the verdict on a result, and its job's first entry unless it passed |
| TestReport.JudgeFile | test.py:2088-2121 | another entry for a suite whose file does not say that it passed |
| TestReport.CountersAddUp | test.py:1963-1999 | the five counters and the interrupted results make up all results |
| TestReport.AllGoodWhenCountersFull | test.py:2238-2241 | passed and skipped results fill the total if and only if every result is skipped or returned 0 |
| TestReport.EntriesOfOneJob | test.py:1979-1984 | each removal takes back the entry just made: a job is listed as often as its own result says |
| TestReport.ExitStatusIsTheConjunction | test.py:2238-2241 | the exit status of a complete run is 0 if and only if no job was interrupted and every job that was not skipped returned 0 |
| TestReport.ExitStatusOfActions | test.py:2238-2241 | the exit status of a finished run is 0 if every child process ended with code 0 and no worker with a job read the flag after an interrupt, and 1 otherwise |
| TestReport.VerdictsByCode | test.py:1980-1999 | how many results have each verdict is how many have the code it stands for: 0 passed, 1 failed, 2 valgrind, any other crashed |
| TestReport.FailedJobsOfRun | test.py:1979-2121 | for every job of a complete run, how often it is listed as failed, by its result: failures stay, passing examples and jobs that were skipped or interrupted are not there, a crashed suite is there twice |
| LoadOrder.LayersAreDepths | bindings/python/ns__init__.py:457-472 | the number of a library's layer is the length of its longest chain of dependencies |
| LoadOrder.LayeredIsAcyclic | bindings/python/ns__init__.py:457-472 | if all libraries have found a layer the dependencies have no cycle |
| LoadOrder.StuckMeansCycle | bindings/python/ns__init__.py:444-455 | for any dependencies, if none of the pending libraries can be loaded, one of them depends on a missing library or there is a cycle among them |
| LoadOrder.RoundsEndIffClosedAndAcyclic | bindings/python/ns__init__.py:457-472 | with closed and acyclic dependencies everything is loaded after as many rounds as there are libraries; with any others something is pending after any number of rounds |
| LoadOrder.LayeredIsLoadOrder | bindings/python/ns__init__.py:474-479 | the flattened layers hold every library once, every dependency in a strictly earlier layer |
| LoadOrder.LoadOrderIsClosedAndAcyclic | bindings/python/ns__init__.py:444-479 | such an order exists only for closed and acyclic dependencies |
| LoadOrder.RoundKeepsInvariant | bindings/python/ns__init__.py:464-469 | a round that loads what is ready keeps layers, loaded and pending libraries in accord |
| LoadOrder.StuckRound | bindings/python/ns__init__.py:464-472 | a round that loads nothing leaves a stuck set of libraries, what is loaded is the same after every later round, and after no number of rounds is it everything |
| LoadOrder.LoadPlan.constructor | bindings/python/ns__init__.py:475-476 | all libraries pending, nothing loaded |
| LoadOrder.LoadPlan.ModulesThatCanBeLoaded | bindings/python/ns__init__.py:444-455 | the pending libraries all of whose dependencies are loaded, each once and in the order of the pending ones |
| LoadOrder.LoadPlan.DependencyOrder | bindings/python/ns__init__.py:457-472 | recursion over the rounds: it finishes with everything in layers, or something is pending after any number of rounds |
| LoadOrder.SortToDependencies | bindings/python/ns__init__.py:433-479 | succeeds if and only if the dependencies are closed and acyclic, with layers by longest chain that each list their libraries in the order of the keys; otherwise no number of rounds loads everything, and what is left depends on a missing library or holds a cycle |
| HexGrid.PointsAreTheHexagon | scratch/nr-x2-conditional-handover-test.cc:1547-1563 | with t tiers the generated lattice points are exactly those at most t rings from the centre |
| HexGrid.PointsDistinct | scratch/nr-x2-conditional-handover-test.cc:1547-1563 | no lattice point is generated twice |
| HexGrid.PointsCount | scratch/nr-x2-conditional-handover-test.cc:1543 | there are 1 + 3t(t+1) points, as many as are reserved |
| HexGrid.PointsPrefix | scratch/nr-x2-conditional-handover-test.cc:1755-1759 | the list for fewer tiers is a prefix of the list for more |
| HexGrid.TierIsRing | scratch/nr-x2-conditional-handover-test.cc:1547 | an entry belongs to tier k by its index if and only if it is k rings out |
| HexGrid.LatticeDistance | scratch/nr-x2-conditional-handover-test.cc:1553-1560 | squared distances are isd^2 (q^2 + qr + r^2) for the lattice difference (q, r) |
| HexGrid.Separated | scratch/nr-x2-conditional-handover-test.cc:1553-1560 | different lattice points are at least one inter-site distance apart |
| HexGrid.OffsetIsLatticePoint | scratch/nr-x2-conditional-handover-test.cc:1553-1560 | the trigonometric offset of a tier, side and step is an exact lattice point |
| HexGrid.CreateHexPositions | scratch/nr-x2-conditional-handover-test.cc:1539-1566 | the positions are those of the lattice points, in order, the centre first and all at the given altitude |
| HexGrid.PositionsSeparated | scratch/nr-x2-conditional-handover-test.cc:1539-1566 | any two generated positions are at least one inter-site distance apart |
| HexGrid.TierGoesAround | scratch/nr-x2-conditional-handover-test.cc:1547-1563 | each tier starts at 30 degrees, as many inter-site distances out as its number, and goes around anticlockwise and back to its start in steps of one inter-site distance, each of which sweeps the same area |
| HexGrid.CreateSnapshotUes | scratch/nr-x2-conditional-handover-test.cc:524-572 | record i has index i, nominal cell i / uesPerCell and that cell's centre, and its place is that of draw i, within the cell radius of the centre |
| HexGrid.OffsetWithinCell | scratch/nr-x2-conditional-handover-test.cc:554-557 | a terminal is no farther from the centre of its cell than the cell radius |
| HexGrid.OffsetIsPolar | scratch/nr-x2-conditional-handover-test.cc:554-557 | the offset of a terminal has the drawn root times the cell radius as its length, and the drawn direction |
| HexGrid.AnchorsAreBeams | scratch/nr-x2-conditional-handover-test.cc:1755-1759 | with no more anchor tiers than beam tiers the anchors are the first beam centres |
| HexGrid.NominalBeamIsTheAnchor | scratch/nr-x2-conditional-handover-test.cc:547-570 | then every nominal index is in range and names the same centre in both lists |
| PeriodicUpdates.KindsByPhase | scratch/nr-x2-conditional-handover-test.cc:2217-2226 | within a tick the updates come in the order move, geometry, link delays, and the end of the simulation does not come between them |
| PeriodicUpdates.StepMove | scratch/nr-x2-conditional-handover-test.cc:178-214 | after the position update the beams are where they are at the present tick, refreshes of caches and delays are due in the same tick, and the next update a period later if that is in time |
| PeriodicUpdates.StepGeometry | scratch/nr-x2-conditional-handover-test.cc:216-323 | after the geometry update the caches follow from the unchanged positions, a refresh of the delays is due in the same tick if there are links, and the next update a period later |
| PeriodicUpdates.StepX2 | scratch/nr-x2-conditional-handover-test.cc:140-165 | after the delay update every link delay times the speed of light is the present distance of its two ends, the caches still hold, and the tick is complete |
| PeriodicUpdates.StepStop | scratch/nr-x2-conditional-handover-test.cc:2226-2227 | the end leaves positions, caches and delays as they are |
| PeriodicUpdates.StepOther | scratch/nr-x2-conditional-handover-test.cc:2227 | other events, and those they schedule, do not disturb the processes |
| PeriodicUpdates.Step | scratch/nr-x2-conditional-handover-test.cc:140-323 | every event keeps the invariant of the three processes |
| PeriodicUpdates.SetupData | scratch/nr-x2-conditional-handover-test.cc:1803-2092 | after the setup positions and caches agree, and every link delay times the speed of light is the distance of its two ends |
| PeriodicUpdates.SetupQueue | scratch/nr-x2-conditional-handover-test.cc:1803-2226 | after the setup the processes are queued in the order move, geometry, link delays, end |
| PeriodicUpdates.SetupInv | scratch/nr-x2-conditional-handover-test.cc:1803-2226 | the setup establishes the invariant |
| PeriodicUpdates.RunInv | scratch/nr-x2-conditional-handover-test.cc:2226-2228 | every state of every run satisfies the invariant |
| PeriodicUpdates.CoherentBetweenTicks | scratch/nr-x2-conditional-handover-test.cc:140-323 | in every run, between ticks and at the end, the cell positions are the live ones, the caches follow from them, and every link delay times the speed of light is the present distance of its two ends; the positions are those of the last tick, at the end possibly those of the tick before it |
| PeriodicUpdates.WithinTick | scratch/nr-x2-conditional-handover-test.cc:2217-2226 | while the updates of a tick are not complete one of them is still queued for the present time, and the run has not ended |
| PeriodicUpdates.Simulation.UpdateLeoGnbPositions | scratch/nr-x2-conditional-handover-test.cc:178-214 | moves every beam to its place at the present time and schedules itself again exactly if that is in time |
| PeriodicUpdates.Simulation.UpdateLiveCellGeometry | scratch/nr-x2-conditional-handover-test.cc:216-323 | fills the caches beam by beam so that all of them follow from the positions, and schedules itself again exactly if that is in time |
| PeriodicUpdates.Simulation.UpdateDynamicX2Delays | scratch/nr-x2-conditional-handover-test.cc:140-165 | sets the delays so that each times the speed of light is the distance of its link's two ends, and schedules itself again exactly if that is in time |
| PeriodicUpdates.X2Links | scratch/nr-x2-conditional-handover-test.cc:2060-2092 | the pair loop joins every two beams by one link, the lower number first, and no beam to itself |
| StyleFixer.CheckManuallyFile | utils/check-style-clang-format.py:619-680 | the verdict is that of a full scan even when the check stops early; fixing rewrites exactly the non-compliant lines that are not skipped, where a line is skipped if guards are respected, it is no guard, and the last guard in front of it switches formatting off |
| StyleFixer.EnabledUnlessSwitchedOff | utils/check-style-clang-format.py:641-659 | formatting is on in front of a line unless a guard that switches it off comes before with no guard in between; before the first guard it is on |
| StyleFixer.SwitchedOffLinesUntouched | utils/check-style-clang-format.py:656-659 | a line that is no guard, behind a guard that switches off with no guard in between, comes out as it went in |
| StyleFixer.WithoutGuards | utils/check-style-clang-format.py:641-659 | a file without a guard that switches off gets the same verdict and the same lines whether or not guards are respected |
| StyleFixer.AroundGuard | utils/check-style-clang-format.py:649-654 | a line is a guard exactly by what is left of it between its spaces: one of three texts each |
| StyleFixer.LeadingTab | utils/check-style-clang-format.py:646-680 | a literal line with a leading tab: it does not pass, and is rewritten with four spaces |
| StyleFixer.LeadingTabIsFixed | utils/check-style-clang-format.py:641-680 | that line alone in a file is fixed, whether or not guards are respected |
| StyleFixer.TabsVerdict | utils/check-style-clang-format.py:977-983 | a line passes the tab check if and only if it has no tab, and is then the line that is given back |
| StyleFixer.ExpandAfterLineEnd | utils/check-style-clang-format.py:981-983 | what stands behind a line end is expanded as if it stood alone |
| StyleFixer.ExpandLeavesNoTab | utils/check-style-clang-format.py:981-983 | an expanded line has no tab |
| StyleFixer.ExpandKeepsColumns | utils/check-style-clang-format.py:981-983 | every other character stays in its display column |
| StyleFixer.ExpandFillsWithSpaces | utils/check-style-clang-format.py:981-983 | all other columns of the expanded line are spaces |
| StyleFixer.ReadLinesAreLines | utils/check-style-clang-format.py:643-644 | what is read from a file is a list of lines that make up its text |
| StyleFixer.ReadBack | utils/check-style-clang-format.py:676-678 | written lines are read back as they were |
| StyleFixer.GuardOffStaysOff | utils/check-style-clang-format.py:651-654 | a guard that switches formatting off still does when its tabs are expanded |
| StyleFixer.GuardOnStaysOn | utils/check-style-clang-format.py:651-654 | a guard that switches formatting on still does when its tabs are expanded |
| StyleFixer.EnabledOnlyWhereBefore | utils/check-style-clang-format.py:646-659 | where formatting is enabled in the fixed file it was enabled in the original |
| StyleFixer.GuardsAgreeIffNoneIsMade | utils/check-style-clang-format.py:646-659 | fixing tabs leaves formatting on and off where it was if and only if it turns no line that is looked at into a guard that switches it off |
| StyleFixer.TabsFixedIsCompliant | utils/check-style-clang-format.py:646-680 | the lines with fixed tabs pass the tab check under their own guards |
| StyleFixer.FixingTabsIsFinal | utils/check-style-clang-format.py:619-680 | a file whose tabs were fixed passes when read again, and another fix leaves it as it is |
| StyleFixer.DisabledLinesUntouched | utils/check-style-clang-format.py:656-659 | lines in an off region that are no guards come out as they went in |
| StyleFixer.FixCanMakeGuard | utils/check-style-clang-format.py:651-654 | a line that is no guard can become one when its tabs are expanded |
| StyleFixer.ExpandKeepsWhitespaceOk | utils/check-style-clang-format.py:943-946 | expanding tabs brings no trailing whitespace back |
| StyleFixer.WhitespaceVerdict | utils/check-style-clang-format.py:943-946 | a line passes the whitespace check if and only if it ends in one line feed with no space in front of it |
| StyleFixer.WhitespaceFix | utils/check-style-clang-format.py:943-946 | the fixed line is the line without the spaces at its end, and a line feed |
| StyleFixer.WhitespaceFixedIsCompliant | utils/check-style-clang-format.py:926-956 | a file with fixed whitespace passes the whitespace check |
| StyleFixer.WhitespaceThenTabs | utils/check-style-clang-format.py:926-991 | after the whitespace pass and then the tab pass a file satisfies both checks |
| MessageCounters.GetEnabledControlMessageTypes | scratch/nr-x2-handover-measures-cho.cc:65-94 | the registered names are distinct, each of the six is there if and only if its option is set, and a message's name is among them if and only if the filter lets the message pass |
| MessageCounters.FiltersAgree | scratch/nr-x2-handover-measures-cho.cc:552-613 | the relevance filter, the type names and the registration list agree on every message, unknown and null ones included |
| MessageCounters.NamesTell | scratch/nr-x2-handover-measures-cho.cc:552-590 | each listed type is known by its name: no other type, and no missing message, has the same |
| MessageCounters.EnabledTypesAreDistinct | scratch/nr-x2-handover-measures-cho.cc:65-94 | no type is registered twice |
| MessageCounters.TypesPartitionTheTotal | scratch/nr-x2-handover-measures-cho.cc:657-697 | over any history of messages, those in a node's total are those of the registered types, each of one type |
| MessageCounters.RegisterTypes | scratch/nr-x2-handover-measures-cho.cc:1688-1694 | every type gets two counters of its own |
| MessageCounters.Counters.constructor | scratch/nr-x2-handover-measures-cho.cc:1663-1703 | after the setup the counters that exist are the enabled ones, with different numbers, all at 0 |
| MessageCounters.Counters.BumpTotal | scratch/nr-x2-handover-measures-cho.cc:663-673 | one count more in the total, shown, and nothing else changed |
| MessageCounters.Counters.BumpType | scratch/nr-x2-handover-measures-cho.cc:677-694 | one count more for a registered type, shown, and nothing else changed |
| MessageCounters.Counters.CountAccepted | scratch/nr-x2-handover-measures-cho.cc:657-697 | an accepted message adds to its node's total and to its type |
| MessageCounters.Counters.EmitMacPhyCtrlMessage | scratch/nr-x2-handover-measures-cho.cc:615-698 | after any callback every counter is the number of messages it should have counted so far, modulo 2^32, and the animation shows it; a counter goes up by one exactly for a relevant message of its direction, node and type inside the trace window |
| MessageCounters.Counters.TotalIsSumOfTypes | scratch/nr-x2-handover-measures-cho.cc:657-697 | in every reachable state a node's total is the sum of its counts by type modulo 2^32; it is the sum itself if and only if the total has wrapped around as often as the counters of the types together, as for any history with fewer than 2^32 counted messages |
| MessageCounters.Counters.EmitRepeatedly | scratch/nr-x2-handover-measures-cho.cc:615-698 | a burst of equal messages keeps the counters what they should be |
| MessageCounters.WrapTotal | scratch/nr-x2-handover-measures-cho.cc:663-673 | after 2^31 messages of each of two types the total is 0 and the sum of the types 2^32 |
| DecimalText.ParseUndoesPrint | scratch/nr-x2-handover-measures-cho.cc:112-134 | a number that is written is read as the number rounded to three decimals |
| DecimalText.ParsePrinted | scratch/nr-x2-handover-measures-cho.cc:112-134 | a number that is written reads as the rounded number, scaled by what follows it |
| DecimalText.ParseWithExponent | scratch/nr-x2-handover-measures-cho.cc:112-114 | with an exponent of either letter and any sign behind it, a written number reads as the rounded number times the power of ten, or, for a minus sign, as the number which times the power is the rounded one |
| DecimalText.ScaleByExponent | scratch/nr-x2-handover-measures-cho.cc:112-114 | the same for any number in front of the exponent |
| DecimalText.ExponentWithoutDigits | scratch/nr-x2-handover-measures-cho.cc:112-114 | a number with an exponent that has no digits cannot be read |
| DecimalText.ParseDecimal | scratch/nr-x2-handover-measures-cho.cc:112-114 | a number with a point reads as its digits on both sides say, with its sign |
| DecimalText.ParseWhole | scratch/nr-x2-handover-measures-cho.cc:112-114 | a number without a point reads as the number of its digits, with its sign |
| DecimalText.SizeTimesPower | scratch/nr-x2-handover-measures-cho.cc:112-114 | a size times the power of ten of the digits behind the point is the number of all the digits |
| DecimalText.PowersAdd | scratch/nr-x2-handover-measures-cho.cc:112-114 | the powers of ten multiply as their exponents add |
| DecimalText.ParseAfter | scratch/nr-x2-handover-measures-cho.cc:112-114 | spaces in front of a number are passed over; no other character but a sign, a digit or the point can be there |
| DecimalText.SignIsWritten | scratch/nr-x2-handover-measures-cho.cc:133-134 | a minus sign is written for every negative value, also for one that is rounded to 0, and for no other |
| DecimalText.TieIsEven | scratch/nr-x2-handover-measures-cho.cc:133-134 | half a thousandth is rounded to the even thousandth |
| DecimalText.Rounded | scratch/nr-x2-handover-measures-cho.cc:133-134 | rounding moves a number by half a thousandth at most |
| DecimalText.NumberOfDigits | scratch/nr-x2-handover-measures-cho.cc:133-134 | the digits of a number denote it |
| AttributeText.Find | scratch/nr-x2-handover-measures-cho.cc:99-106 | the first occurrence at or after a place, if there is one |
| AttributeText.Located | scratch/nr-x2-handover-measures-cho.cc:99-112 | an attribute is found if and only if its name occurs before a quotation mark, and then at its first occurrence, with the value up to the next mark |
| AttributeText.ReadAfterReplace | scratch/nr-x2-handover-measures-cho.cc:118-139 | after an attribute is written it reads as the rounded value, and the text in front of and behind the value is unchanged |
| AttributeText.OtherStaysInPlace | scratch/nr-x2-handover-measures-cho.cc:220-229 | writing one attribute leaves the other one's place, moved with the text, if and only if that did not begin at the first one's closing quotation mark |
| AttributeText.OtherReadsTheSame | scratch/nr-x2-handover-measures-cho.cc:220-229 | an attribute that was not found at the closing quotation mark of the one that is written reads as before |
| AttributeText.OtherReadsTheSameIff | scratch/nr-x2-handover-measures-cho.cc:220-229 | after one attribute is written the other reads as before if and only if it was not found at the first one's closing quotation mark, or what is found from that mark on reads the same |
| AttributeText.SwallowedIsFoundBehind | scratch/nr-x2-handover-measures-cho.cc:220-229 | an attribute that was found there is from then on found, and read, from that mark on, whatever is written |
| AttributeText.OtherIsFound | scratch/nr-x2-handover-measures-cho.cc:220-229 | in every case, where the other attribute is found after one is written |
| AttributeText.BothReadAfterBoth | scratch/nr-x2-handover-measures-cho.cc:220-229 | two attributes that are written one after the other both read as written if and only if both are found |
| AttributeText.WrittenTexts | scratch/nr-x2-handover-measures-cho.cc:220-229 | unless the second one's value took the first one's name away, the line holds both written texts, and neither takes a name away |
| AttributeText.NotSwallowedBack | scratch/nr-x2-handover-measures-cho.cc:220-229 | writing the first attribute does not bring the second one into that position |
| AttributeText.OtherMayChange | scratch/nr-x2-handover-measures-cho.cc:220-229 | a line whose second coordinate reads 5 before the first one is written, and 7 after |
| AttributeText.MarkerAfterReplace | scratch/nr-x2-handover-measures-cho.cc:118-139 | after an attribute is written, what marks the kind of a line is in it if and only if it was there outside the old value |
| AttributeText.MarkerAfterBoth | scratch/nr-x2-handover-measures-cho.cc:220-229 | the same for two attributes that are written one after the other, when the second is still found |
| CompactAnimation.WithinSquare | scratch/nr-x2-handover-measures-cho.cc:210-219 | every normalised point is in the square of the given half span |
| CompactAnimation.OneScale | scratch/nr-x2-handover-measures-cho.cc:210-219 | all distances along both axes change by one and the same factor, which reverses none |
| CompactAnimation.FillsSquare | scratch/nr-x2-handover-measures-cho.cc:210-219 | the new box is centred at 0, and its wider axis reaches both sides of the square if and only if the extent was at least 1 |
| CompactAnimation.IdempotentWhenSettled | scratch/nr-x2-handover-measures-cho.cc:210-219 | a second pass changes nothing if and only if all points coincide, the half span is 0, or it is at least a half with an extent of at least 1 (any extent at exactly a half) |
| CompactAnimation.NormalisedExtent | scratch/nr-x2-handover-measures-cho.cc:210-219 | the extent of the normalised points is twice the half span, or that times the extent where it was below 1 |
| CompactAnimation.RefsInOrder | scratch/nr-x2-handover-measures-cho.cc:175-203 | the recorded references are in line order and say what their lines say |
| CompactAnimation.RefsAreComplete | scratch/nr-x2-handover-measures-cho.cc:175-203 | no line with a position is missed |
| CompactAnimation.CollectCoordinates | scratch/nr-x2-handover-measures-cho.cc:167-203 | the references of all lines with a position, and the least box around their points |
| CompactAnimation.WriteCoordinates | scratch/nr-x2-handover-measures-cho.cc:216-230 | in place, lines with a position get the normalised one and all others stay |
| CompactAnimation.GenerateCompactNetAnimXml | scratch/nr-x2-handover-measures-cho.cc:141-230 | nothing is written if no line has a position; otherwise every line is what it should be with respect to the least box of all positions |
| CompactAnimation.NodeIsRead | scratch/nr-x2-handover-measures-cho.cc:182-191 | a literal node line reads as the position of a node by the names of its own coordinates |
| CompactAnimation.WrittenPointReads | scratch/nr-x2-handover-measures-cho.cc:216-230 | a line whose coordinates are both written reads as that position to three decimals if and only if both are found: the second one behind the first one's value where that took its name away, and the first one with the written value where the second one's took its name away |
| CompactAnimation.WrittenPointMayBeLost | scratch/nr-x2-handover-measures-cho.cc:216-230 | two lines that say a position and never read as what is written |
| CompactAnimation.CompactedLineReads | scratch/nr-x2-handover-measures-cho.cc:141-230 | the normalised position to three decimals is within the square to half a thousandth, and the compacted line reads as it if and only if the line keeps what is written |
| CompactAnimation.CompactedLineKeepsKind | scratch/nr-x2-handover-measures-cho.cc:182-191 | a compacted line says its new position with the same kind if and only if it keeps what is written and what marks the kind was not only in the texts that are written over |
| CompactAnimation.RoundedPointsSettle | scratch/nr-x2-handover-measures-cho.cc:210-219 | with the rounding to three decimals in between, a second pass changes no position, for a half span in whole thousandths where exact positions would settle |
| CompactAnimation.FirmStaysFirm | scratch/nr-x2-handover-measures-cho.cc:141-230 | a line that says what is written whatever that is goes on to do so after it is compacted |
| CompactAnimation.CompactingTwice | scratch/nr-x2-handover-measures-cho.cc:141-230 | the compact file of a compact file says the same positions, when these settle and every line with a position is firm |
| ServingCell.FindServingCell | scratch/nr-x2-conditional-handover-test.cc:641-675 | the serving cell is the first of the strongest |
| ServingCell.SumAroundServingCell | scratch/nr-x2-conditional-handover-test.cc:677-714 | signal is the serving cell's power, interference that of all others, and the best interferer the first of the strongest others |
| ServingCell.SumAroundNominalCell | scratch/nr-x2-conditional-handover-test.cc:749-761 | the same sums if the nominal cell served |
| ServingCell.Evaluate | scratch/nr-x2-conditional-handover-test.cc:641-765 | serving and nominal figures belong to the strongest and the nominal cell, and each signal quality times the larger of the floor and interference with noise is the signal |
| ServingCell.RatioIsRatio | scratch/nr-x2-conditional-handover-test.cc:716-765 | a signal quality times the larger of the floor and interference with noise is the signal |
| ServingCell.PowerIsConserved | scratch/nr-x2-conditional-handover-test.cc:677-761 | whichever cell serves, signal and interference together are all the received power |
| ServingCell.ServingCellIsBest | scratch/nr-x2-conditional-handover-test.cc:716-765 | no other choice of serving cell has a better signal quality, the nominal one included |
| ServingCell.InterfererIsBounded | scratch/nr-x2-conditional-handover-test.cc:694-714 | the best interferer is no stronger than the serving cell and no stronger than the interference |
| Beamwidth.BeamwidthDeg | scratch/nr-x2-conditional-handover-test.cc:920-947 | the result is the sum of two angles that are 30 / 2^200 apart, with a gain above -3 dB at the lower one and not above at the upper, unless that is still 30 |
| Beamwidth.BeamwidthIsTwiceTheEdge | scratch/nr-x2-conditional-handover-test.cc:920-947 | for a gain that falls through -3 dB once before 30 degrees the result is twice that angle to within 30 / 2^200 |
| Beamwidth.HalvedWidthIsPower | scratch/nr-x2-conditional-handover-test.cc:925-945 | the width left after n steps times 2^n is 30 |
| RunStatistics.Log | utils/bench-scheduler.cc:318-359 | nothing for fewer than two results; else the average of every figure is its mean and the second moment its sum of squared deviations, wherever the average starts |
| RunStatistics.Accumulate | utils/bench-scheduler.cc:345-349 | one step turns the statistics of the values so far into those of one more |
| RunStatistics.WelfordStep | utils/bench-scheduler.cc:345-349 | the running update of mean and moment is exact |
| RunStatistics.DeviationsNotNegative | utils/bench-scheduler.cc:361-368 | the moments have square roots |
| BenchPopulation.Insert | utils/bench-scheduler.cc:162 | an inserted event is added to those that are scheduled |
| BenchPopulation.InsertKeepsOrder | utils/bench-scheduler.cc:162 | and the events stay in the order of their times |
| BenchPopulation.Bench.Cb | utils/bench-scheduler.cc:151-164 | every event but the last puts another one into its place, at the next drawn delay from now, and counts itself; the last one stops the simulator |
| BenchPopulation.Bench.RunOneEvent | utils/bench-scheduler.cc:142 | the first event is taken, the population stays complete with one event at the next drawn delay, and time does not go back |
| BenchPopulation.Bench.Populate | utils/bench-scheduler.cc:132-136 | as many events as the population are scheduled in order of time, at the first delays of the stream |
| BenchPopulation.Bench.Run | utils/bench-scheduler.cc:121-149 | every run ends; with a population it reports the requested number of events after executing one more, and has drawn one delay for each event scheduled; without one it reports 0 |

## Left out

- The simulator, the radio protocol stack, mobility, routing and handover algorithms: the models take an event list
  by time and insertion, and positions, distances and gains as given functions.
- Floating point: rounding, infinities and not-a-number. Received powers are finite, so a list of cells has a
  strongest one; overflow of a number that is read as text is not modelled.
- `Sinr` and the beamwidth's gain in decibels: logarithms, Bessel functions and the antenna pattern of section 6.4.1
  of 3GPP TR 38.811 are not modelled. The conversion from dBm to watts is assumed positive and monotone.
- UpdateLiveCellGeometry: the closest and the strongest cell, which are chosen for a log line, and devices or
  mobility models that are missing.
- CreateHexPositions: 32-bit and 16-bit conversions of counts, which large numbers of tiers would overflow.
- CreateSnapshotUes: the geographic position of a terminal. The draws of the random streams are given.
- SortToDependencies: Python's recursion limit, which ends the endless recursion on stuck dependencies with an
  error; the model reports that outcome instead. How dependencies are read from the libraries is left out, too.
- DependencyOrder: the default argument that several calls would share; the function is called once.
- RunsAreBounded: worker threads that die of an exception and a pool without workers. Running a job returns.
- CollectResults: timing, printing and the writing of result files. Whether a suite's file says it passed is given.
- CheckManuallyFile: the messages for the user, decoding and the translation of line ends on reading. The licence,
  include, emacs and other line checks, and clang-format itself, are not modelled.
- GetNoTypeIds: its comment says sorted and unique, but like `Gather` it returns the list as it was collected.
- EmitMacPhyCtrlMessage: the log line, and how the node number is read from the context; the number that stands for
  failure is part of the model. Counter numbers are assumed to be handed out consecutively by the animation.
- GenerateCompactNetAnimXml: files that cannot be opened.
- Parse: reals have no negative zero. The source reads `-0.000` as one and writes it as `-0.000` again, where the
  model writes `0.000`; both read as 0.
- Blank: the source fills the caches with local positions before the first refresh, for a log
  (scratch/nr-x2-conditional-handover-test.cc, lines 1987 to 2011). The refresh overwrites them before the simulation
  starts; in the model the caches are empty until then.
- Log: the square root of the moments, and the printing. The times that are measured are given.
- Bench: the delays are non-negative whole nanoseconds drawn from a given stream.
- The other scenario scripts, examples and packet benchmarks, which repeat what is modelled or call libraries.
