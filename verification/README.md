# RESCH, verified

RESCH is a loadable real-time scheduler core for Linux with plugins that assign tasks to CPUs, and a
GPU part that submits commands through rings. This project models its schedulers as Dafny programs and
proves what they keep over every run. `dafny verify dfyconfig.toml` checks all of it.

What is modelled, and the main results (the first rows of the table below name their members):

- **EDF-FF admission** (`EdfFf`, `Counting`, `EdfCounts`, `EdfFeasibility`, `EdfSchedule`, `EdfAdmission`).
  The loops of the demand-bound test are proved against specification functions, and these against a count
  of jobs, releases and ticks, one by one. A microsecond-level EDF schedule meets
  every deadline in every sporadic run exactly when no interval demands more than it supplies. Together
  they say, for any utilizations, what acceptance means for the runs of a CPU: an accepted set is
  schedulable exactly when one hyperperiod is not overloaded and the lengths the test left open fit. Two
  concrete sets that are accepted and miss deadlines show that this can fail.
- **Fixed-priority runs** (`FpSchedule`, `FpThreads`, `FpJobs`, `FpLevels`, `FpExact`). One thread per task
  takes its jobs one after another, while nominal releases move on by the period. With deadlines within the
  periods the analysis is sound. For any deadlines there is an exact condition: for every number of jobs a
  window in which they and all that arrives above them fit; finitely many windows decide it.
- **FP-FF admission** (`Interference`, `FpFf`, `FpCounts`, `FpAdmission`). The closed-form interference is
  characterised three ways, and the whole test by what it counts, for either build; own work plus interference stays within every deadline over any history of submissions and
  exits; every run of every CPU then meets every deadline where these are within the periods, and otherwise,
  for different priorities, exactly when the windows beyond the first exist. A task of 150 percent that is
  admitted shows that they need not.
- **FP-PM splitting** (`SplitCapacity`, `SplitShares`, `FpPm`, `FpPmSplit`, `FpPmGuarantee`, `FpPmRuns`,
  `FpPmExamples`). When the capacity formula is right, when the search for the least capacity is right,
  when the shares conserve the execution time and lie within the affinity mask, and when the tasks on a CPU
  keep their deadlines after a split, each as an equivalence; from a split over CPUs whose rooms are right to
  all runs of such a CPU; a job visits exactly the CPUs with a share. Concrete task lists show each way in
  which a split goes wrong.
- **EDF-WM selection** (`EdfWmSelection`, `EdfWm`, `EdfWmMeaning`). The in-place sort, the optimality of its
  selection, the split loop over it with the trim of the last share, and the windows of a job: a split
  succeeds exactly when some shares within their windows and CPUs are enough.
- **Global EDF** (`GlobalEdf`, `GlobalEdfPlaces`, `GlobalEdfPlugin`). A state machine and the plugin's in-place
  sections that refine it: over every run the lists hold exactly the started jobs, and the earliest of them
  run, on distinct CPUs; which CPU a job gets, and who gives way.
- **The active queue and the EDF class of a CPU** (`Bits`, `BitScan`, `PrioFifo`, `ActiveFifo`, `ActiveOrder`,
  `ActiveQueue`, `EdfHead`, `EdfRuns`, `LocalEdf`). Bitmap and lists read as one sequence, from the highest
  priority down and first in, first out among equals; the sleep and wake protocol leaves exactly the head of
  the queue awake, and the background list holds exactly the jobs whose reserve is used up.
- **Command rings** (`Fifo`, `FifoChannel`). Two rings in arrays with an asynchronous device: what it
  receives is always a prefix of what was written; every operation completes once the device drains a
  stated number of times, and a fire and enough device progress deliver everything.
- **GPU device turns and handles** (`GdevList`, `WaitOrder`, `Vsched`, `Handles`). Circular lists and chains
  on the heap, contexts waiting by priority and arrival, bounded bypass, least unused handle.

`Resch`, `Arith`, `Options`, `SortedList` and `Entries` hold what these share.

Reading notes:

- Each critical section, with the migration call that follows it, is one atomic step.
- Jiffies convert to microseconds by a positive factor `tick`; the way back rounds up, as the comment at
  plugin/partition/edf-ff/edf-ff.c:74 says. The build switches `RESCH_HARD_RT` and the measured costs are
  fields of `Platform`.
- `unsigned long` is unbounded, except where a subtraction or sum can leave the range in ordinary use:
  the slack of the EDF-FF test length, the capacity arithmetic and the running sum of FP-PM, and the trim
  of EDF-WM, which are modelled modulo 2^64.
- A submitted task already stands in the global list when the plugin runs (core/sched.c:1129), but its CPU
  is undefined (core/sched.c:1005), which is written as the number of CPUs.
- Shifting a word by its whole width is undefined in C. `wraps` stands for machines that reduce the count
  modulo the width; otherwise the result is zero. On 32-bit words that wrap, the index behind the EDF list
  is misread, and the EDF class then puts the first job of an idle CPU to sleep.

Where the code and its comments disagree, the model follows the code:

- plugin/partition/edf-ff/edf-ff.c:105-106 says that a total utilization above 100 percent is rejected by the
  test anyway. It is not: `EdfFeasibility.OverloadIsAccepted`.
- The comments above the `task_run` functions (plugin/partition/edf-ff/edf-ff.c:246,
  plugin/partition/fp-ff/fp-ff.c:132, plugin/hybrid/fp-pm/fp-pm.c:360) say that the task has not been
  inserted into the global list; core/sched.c:1129 inserts it first.
- core/sched.c:917-946 divides the interval by the period in microseconds, but
  plugin/partition/edf-ff/edf-ff.c:71-75 passes jiffies, which undercounts the releases:
  `EdfCounts.AllReleasesChargedIff`.
- plugin/partition/edf-ff/edf-ff.c:221 calls the worst-fit loop a first fit.
- plugin/hybrid/fp-pm/fp-pm.c:322 announces the minimum; a capacity of zero is forgotten when another
  task follows: `SplitShares.FoldIsMinIff`.
- plugin/hybrid/fp-pm/fp-pm.c:284-286 does not consult the affinity mask when it splits:
  `FpPmExamples.OutsideMask`, and `FpPmGuarantee.SharesInMaskIff` for when the shares lie within it.
- plugin/partition/fp-ff/fp-ff.c:40-58 looks at a single job of each task also where the deadline exceeds the
  period, and so admits more than the CPU can do: `FpAdmission.AdmittedOverloadMisses`.

## Model

| member | source | states |
|---|---|---|
| EdfSchedule.EdfMeetsDeadlinesIff | core/sched_edf.c:33-58 | every sporadic run meets every deadline exactly when no interval can be claimed for more work than it holds |
| EdfAdmission.AcceptedSchedulableIff | plugin/partition/edf-ff/edf-ff.c:149-191 | what acceptance means for all sporadic runs of the CPU, for any utilizations, exactly |
| EdfCounts.AcceptsIffCounted | plugin/partition/edf-ff/edf-ff.c:149-191 | accepted just when the task has no work or, at every deadline of every task up to the test length, the jobs due by then in jiffies begun and the cost of every release and tick fit in it |
| EdfAdmission.Plugin.Submit | core/sched.c:1124-1136 | sorted insertion, placement on the eligible CPU with the least utilization or removal: the new list exactly; all CPUs stay schedulable just when the chosen one can take the task |
| FpExact.FpMeetsDeadlinesIff | core/sched.c:1146-1160 | for any deadlines: tasks of different priorities meet every deadline in every run exactly when each has its windows |
| FpAdmission.PlacedTasksMeetDeadlines | plugin/partition/fp-ff/fp-ff.c:17-169 | after any history of submissions and exits every run of every CPU whose deadlines are within the periods meets every deadline: with jobs up to the worst-case time on a hard real-time build, up to the average on the other |
| FpAdmission.PlacedTasksMeetDeadlinesIff | plugin/partition/fp-ff/fp-ff.c:17-169 | for any deadlines, by build: tasks of different priorities placed on a CPU meet all deadlines in every run exactly when those whose deadline exceeds the period have room for any number of overlapping jobs |
| FpCounts.AdmitsIffCounted | plugin/partition/fp-ff/fp-ff.c:84-123 | admitted just when own work, the jobs of the tasks of at least the priority, and the cost of every release and tick stay within the deadline, and every task of at most the priority has room for the jobs of the new one beside its own |
| FpFf.Plugin.Submit | core/sched.c:1124-1136 | insertion, placement on the least allowed CPU that admits the task or, if there is none, removal: the new list exactly, with the invariant |
| SplitCapacity.CapacityExactIff | plugin/hybrid/fp-pm/fp-pm.c:307-320 | exactly when the computed capacity is not too large, and exactly when it is the largest amount the task tolerates, for all bounds, deadlines and periods within the word range |
| SplitCapacity.FitsIff | plugin/hybrid/fp-pm/fp-pm.c:296-320 | exactly which amounts a task tolerates, in closed form, for all bounds, deadlines and periods |
| SplitShares.FoldIsLeastAfterZero | plugin/hybrid/fp-pm/fp-pm.c:322-325 | what the search returns in every case: the least room behind the last zero, and zero if that is at the end |
| FpPmGuarantee.SplitConserves | plugin/hybrid/fp-pm/fp-pm.c:270-355 | a split that succeeds gives the CPUs before the last all they can take and those behind it nothing, uses available CPUs within their capacities, has least and greatest CPU right, and conserves the execution time just when no sum wrapped; one that fails leaves no share |
| FpPmGuarantee.SplitKeepsDeadlineIff | plugin/hybrid/fp-pm/fp-pm.c:381-410 | after the split a task is within its deadline just when it bears the share, counted against its demand before, or stands above the new priority and was within it before |
| FpPmRuns.SplitMeetsDeadlines | plugin/hybrid/fp-pm/fp-pm.c:270-410 | from the split itself to the runs: then every run of that CPU after the split meets every deadline |
| GlobalEdf.EarliestDeadlinesRun | plugin/global/edf/g-edf.c:138-246 | over every run from an idle system the lists hold exactly the jobs started and not completed, and the earliest of them are on the CPUs: one per CPU, or all if they are fewer |
| GlobalEdfPlaces.StartPlaces | plugin/global/edf/g-edf.c:138-183 | a started job stays on its CPU if that is idle, else takes the first idle one, else the CPU of a job with the latest deadline if that is later than its own, which then waits; otherwise it waits itself; nobody else moves |
| EdfHead.RunKeepsInv | core/sched_edf.c:80-205 | over every run of the four operations the queue holds exactly the tasks with a started job, the head alone is awake, and each priority field names the list that holds the task |
| EdfRuns.RunSplitsLists | core/sched_edf.c:80-205 | over every run the background list holds exactly the jobs whose reserve was used up since they started and not replenished since, the EDF list the others; every job keeps the deadline it started with, and the priority field is that of its list |
| PrioFifo.RunHolds | core/sched_fp.c:29-55 | over every run of enqueues and dequeues exactly the tasks queued and not taken out are there, from the highest priority down and first in, first out among equals |
| ActiveQueue.PrioArray.Next | core/sched.c:661-679 | the task behind the given one in the sequence, just when the scan is not misled; what it answers otherwise |
| ActiveQueue.PrioArray.Number | core/sched.c:730-757 | the num-th task of the sequence, just when no list before it ends a word that is read again |
| FifoChannel.Channel.Run | lib/nvrm/nvrm_fifo.h:11-46 | for every interleaving: written are the words of the completed writes, in order, the device has received a prefix of them, served operations complete, and a fire followed by device progress delivers everything |
| FifoChannel.Channel.OutRing | lib/nvrm/nvrm_fifo.h:33-46 | the word is written when a cell is free, and otherwise when one more poll drains the device than there are segments to publish: it fires before it polls and cannot deadlock |
| EdfWmSelection.SelectionIsOptimal | plugin/hybrid/edf-wm/edf-wm.c:533-549 | the capped sum over the first CPUs is the largest of all choices of at most so many |
| EdfWmMeaning.EnoughIffServed | plugin/hybrid/edf-wm/edf-wm.c:524-551 | an attempt succeeds exactly when some shares for at most that many CPUs, each within its window and what its CPU can take, are enough |
| EdfWm.SplitWellPlacedIff | plugin/hybrid/edf-wm/edf-wm.c:535-562 | after the trim a job has its way from first to last CPU, over no more stations than windows, just when the excess is less than the last share |
| Vsched.SelectedWithinDevices | core/gpu_vsched_fifo.c:58-85 | a device whose list is never empty is selected within as many selections as there are devices |
| WaitOrder.WaitListOrder | core/gpu.c:511-538 | over every run of enqueues and dequeues exactly the contexts enqueued and not dequeued wait, from the highest priority down and in order of arrival among equals |
| Handles.Context.Alloc | lib/nvrm/nvrm_submthd.c:33-48 | the linked chain with the least unused handle, or an abort above the limit with the chain unchanged |
| Handles.FreeUndoesAlloc | lib/nvrm/nvrm_submthd.c:33-62 | releasing the handle just allocated restores the chain |
| SortedList.FindInsertPos | core/sched.c:189-204 | the list walk stops before the first element with a strictly greater key, so equal keys keep their order |
| EdfFf.DbfLenWalk | plugin/partition/edf-ff/edf-ff.c:82-98 | the three accumulators are the weighted slack as an unsigned word, the utilization and the latest deadline of the tasks of the CPU |
| EdfFf.DbfTest | plugin/partition/edf-ff/edf-ff.c:149-191 | the test answers acceptance, which EdfCounts.AcceptsIffCounted states in jobs, releases and ticks |
| EdfCounts.TestLengthIff | plugin/partition/edf-ff/edf-ff.c:100-113 | a length is looked at just when it is at most some deadline or the line through the slack has not fallen below full utilization there |
| EdfCounts.UtilIff | plugin/partition/edf-ff/edf-ff.c:23-26 | the utilization is the greatest whole percent that the execution time fills |
| EdfCounts.AllReleasesChargedIff | plugin/partition/edf-ff/edf-ff.c:71-75 | the overhead, asked for in jiffies as if they were microseconds, charges all releases just when the interval is no longer than the period or a jiffy is a microsecond |
| Counting.OverheadCpuCounts | core/sched.c:917-932 | the overhead of a CPU is the cost of each release of its tasks and half a switch for each tick begun |
| EdfFf.CpuWorstFit | plugin/partition/edf-ff/edf-ff.c:216-239 | among allowed CPUs that accept and are below 100 percent the first with the least utilization, none only if there is none |
| EdfCounts.WorstFitIffTaken | plugin/partition/edf-ff/edf-ff.c:216-239 | a CPU is found just when some allowed one below 100 percent passes the counted test, and it is the first of these with the least utilization |
| EdfFeasibility.CheckpointsSuffice | plugin/partition/edf-ff/edf-ff.c:162-190 | looking only at the deadline points settles every length up to the test length, since demand is constant in between |
| EdfFeasibility.AcceptedSettledIff | plugin/partition/edf-ff/edf-ff.c:149-191 | an accepted set of any utilizations below 100 percent when rounded up is feasible just when the lengths between the two lengths fit |
| EdfFeasibility.FeasibleIff | plugin/partition/edf-ff/edf-ff.c:115-147 | over all lengths at once: a set is feasible just when one hyperperiod is not overloaded and no interval up to it overruns |
| EdfFeasibility.HyperperiodExists | plugin/partition/edf-ff/edf-ff.c:115-128 | every periodic set has a hyperperiod |
| EdfFeasibility.AcceptedFeasibleIff | plugin/partition/edf-ff/edf-ff.c:149-191 | what acceptance means for any utilizations: feasible just when one hyperperiod is not overloaded and no length from the test length to its end overruns |
| EdfFeasibility.OverloadIsAccepted | plugin/partition/edf-ff/edf-ff.c:105-109 | against the comment there, a concrete set of 110 percent is accepted |
| EdfFeasibility.RoundedOverloadIsAccepted | plugin/partition/edf-ff/edf-ff.c:23-26 | a concrete overloaded set is accepted because utilizations round down |
| EdfSchedule.StepSafe | core/sched_edf.c:33-58 | every release and every tick of the deadline-ordered queue keeps pending work plus possible arrivals within the time left, for every horizon |
| EdfAdmission.SchedulableIffFeasible | plugin/partition/edf-ff/edf-ff.c:118-191 | all runs of a CPU meet all deadlines just when no interval demands more than it supplies |
| EdfAdmission.OverloadMisses | plugin/partition/edf-ff/edf-ff.c:105-109 | the accepted set of 110 percent misses a deadline in some run |
| EdfAdmission.RoundedOverloadMisses | plugin/partition/edf-ff/edf-ff.c:23-26 | so does the accepted overload that counts as 99 percent |
| EdfAdmission.AdmissionKeepsSchedulableIff | plugin/partition/edf-ff/edf-ff.c:248-274 | placing an accepted candidate keeps every CPU schedulable just when the chosen one can take it |
| EdfAdmission.ExitKeepsSchedulable | core/sched.c:1082-1106 | a task that leaves harms no CPU |
| EdfAdmission.Plugin.TaskRun | plugin/partition/edf-ff/edf-ff.c:248-292 | the task goes to the eligible CPU with the least utilization, and to none just when there is none; all CPUs stay schedulable just when that one can take it |
| EdfAdmission.Plugin.TaskExit | core/sched.c:1082-1106 | an exit removes that task only and keeps all CPUs schedulable |
| Interference.CountsBusyInstants | plugin/partition/fp-ff/fp-ff.c:46-52 | the closed form is the number of instants at which a job released every period runs at once |
| Interference.ExecutedBounded | plugin/partition/fp-ff/fp-ff.c:46-52 | it bounds what any sporadic release sequence can execute before the end of the interval |
| FpFf.ResponseTimeAnalysis | plugin/partition/fp-ff/fp-ff.c:29-59 | the walk that stops at the first lower priority computes the response bound over the whole list |
| FpCounts.ResponseIsCounted | plugin/partition/fp-ff/fp-ff.c:29-59 | the bound is the worst-case or average time by build, the jobs of all other tasks of at least the priority on the CPU within the deadline, and the cost of every release and tick in it |
| FpFf.TestCpu | plugin/partition/fp-ff/fp-ff.c:84-123 | the test of one CPU passes exactly when the candidate and every task of at most its priority stay within their deadlines |
| FpFf.Partition | plugin/partition/fp-ff/fp-ff.c:64-127 | first fit: the least allowed CPU that passes, or none if none does |
| FpCounts.FirstFitIsLeast | plugin/partition/fp-ff/fp-ff.c:64-127 | a CPU is found just when some allowed one passes the counted test, and it is the least of these |
| FpFf.AdmissionKeepsInv | plugin/partition/fp-ff/fp-ff.c:94-124 | placing an admitted task leaves every task of every CPU with own work and interference within its deadline |
| FpFf.ExitKeepsInv | core/sched.c:1082-1106 | so does the exit of any task |
| FpFf.Plugin.TaskRun | plugin/partition/fp-ff/fp-ff.c:134-169 | the task goes to the least allowed CPU that admits it, and to none just when none does; only that assignment changes |
| FpFf.Plugin.Exit | core/sched.c:1082-1106 | the list without the task, with the invariant |
| FpSchedule.SlackKept | plugin/partition/fp-ff/fp-ff.c:40-58 | room for all higher work is never lost: higher work pays for its ticks, any other tick finds none pending |
| FpThreads.FpMeetsDeadlines | core/sched.c:1146-1160 | response-time soundness for deadlines within the periods: in every run, with nominal releases a period apart whether or not the job before is done, every job finishes by its deadline |
| FpJobs.TickRefines | core/sched_fp.c:29-86 | a tick serves the oldest job of a task of the highest priority that has any, whether a late thread stays in front of its priority or goes behind it |
| FpLevels.TickKeepsWindows | core/sched.c:1146-1160 | every number of jobs since the last time the level was idle keeps room before the end of its window; a tick that serves nobody of the level starts anew |
| FpLevels.ShortWindowSettles | plugin/partition/fp-ff/fp-ff.c:40-58 | a window that ends before the next job can be released settles all larger ones |
| FpLevels.LevelIff | plugin/partition/fp-ff/fp-ff.c:40-58 | for a deadline beyond the period: a task has all its windows just when one hyperperiod of its level is not overloaded and the windows up to it exist |
| FpLevels.FirstWindowDecides | plugin/partition/fp-ff/fp-ff.c:40-58 | for a deadline within the period the first window decides |
| FpExact.LevelsSuffice | core/sched.c:1146-1160 | for any deadlines and priorities: where every task has its windows, equals counted, every run meets every deadline |
| FpExact.LevelsNecessary | core/sched.c:1146-1160 | for any deadlines and priorities: a window missing against higher priorities makes some run miss |
| FpExact.FittingMeetDeadlinesIff | plugin/partition/fp-ff/fp-ff.c:40-58 | of tasks of different priorities that pass the analysis all runs meet all deadlines exactly when those whose deadline exceeds the period have the other windows too |
| FpAdmission.OverloadIsAdmitted | plugin/partition/fp-ff/fp-ff.c:64-127 | a concrete task of 150 percent with a deadline of two periods is admitted |
| FpAdmission.AdmittedOverloadMisses | core/sched.c:1146-1160 | and misses a deadline in some run |
| FpAdmission.ResponseTimeAfter | plugin/partition/fp-ff/fp-ff.c:57-58 | by how much an admission moves the full bound of a task already there |
| FpAdmission.FullBoundsKeptIff | plugin/partition/fp-ff/fp-ff.c:105-118 | with overhead included all tasks of the CPU stay within their deadlines after an admission just when each has room for the overhead of the new one as well |
| FpAdmission.FullBoundIsNotInvariant | plugin/partition/fp-ff/fp-ff.c:105-118 | with overhead included the bound is not invariant: a concrete admission pushes a task past its deadline |
| SplitCapacity.PastLastRelease | plugin/hybrid/fp-pm/fp-pm.c:314-319 | a response bound past the last release makes the subtraction wrap: what is then computed, and what would be right |
| SplitCapacity.OneTooLarge | plugin/hybrid/fp-pm/fp-pm.c:317-319 | where the last branch divides with a remainder the computed capacity is exactly one too large |
| SplitCapacity.CapacityWraps | plugin/hybrid/fp-pm/fp-pm.c:314-319 | a concrete task with no room gets the largest word as capacity |
| SplitShares.FoldIsMinIff | plugin/hybrid/fp-pm/fp-pm.c:322-325 | the search for the least capacity returns it just when no zero is followed by a positive value at the end |
| SplitShares.ConservedIff | plugin/hybrid/fp-pm/fp-pm.c:328-341 | the shares sum to the execution time just when the running sum never wrapped, and always modulo the word |
| SplitShares.WrappedSplit | plugin/hybrid/fp-pm/fp-pm.c:329-341 | a concrete split whose shares exceed the execution time by a whole word |
| SplitShares.EndsIff | plugin/hybrid/fp-pm/fp-pm.c:476-480 | a job is on the last CPU just when it has been on every CPU with a share, in ascending order and once each |
| FpPm.ResponseTimeAnalysis | plugin/hybrid/fp-pm/fp-pm.c:154-197 | the bound counts shares on the CPU and whole tasks of at least the priority, and the CPU is reported taken just when a counted task continues elsewhere |
| FpCounts.PmAdmitsIffCounted | plugin/hybrid/fp-pm/fp-pm.c:212-262 | a whole task is admitted just when own work, shares and whole tasks of at least the priority, and the cost of every release and tick stay within its deadline and every task present of at most its priority has room for its jobs |
| FpCounts.RoomsAreCapacities | plugin/hybrid/fp-pm/fp-pm.c:286-320 | the rooms the split looks at are the capacities of exactly the tasks present on the CPU, or the mark of an overload |
| FpPm.TestCpu | plugin/hybrid/fp-pm/fp-pm.c:212-262 | the test of one CPU passes exactly when the task and all present tasks of at most its priority stay within their deadlines |
| FpPm.Partition | plugin/hybrid/fp-pm/fp-pm.c:202-265 | first fit over whole tasks; a CPU that was looked at and stays available carries no counted task on to another CPU |
| FpPm.ComputeSpare | plugin/hybrid/fp-pm/fp-pm.c:286-326 | the inner loop of the split computes the search result over the rooms of all tasks present on the CPU, in list order |
| FpPmSplit.SplitTask.Split | plugin/hybrid/fp-pm/fp-pm.c:270-355 | the split stops at the first available CPU where the running sum suffices; shares, first and last CPU are determined; failure clears everything |
| FpPmSplit.SplitTask.JobStart | plugin/hybrid/fp-pm/fp-pm.c:427-435 | the job begins on the first CPU, with a timer just when there is another station |
| FpPmSplit.SplitTask.TimerFires | plugin/hybrid/fp-pm/fp-pm.c:115-128 | one migration: to the next CPU with a share, and a new timer just when it is not the last |
| FpPmSplit.SplitTask.JobComplete | plugin/hybrid/fp-pm/fp-pm.c:437-448 | the timer is off and the task is back on its first CPU |
| FpPmGuarantee.SharesInMaskIff | plugin/hybrid/fp-pm/fp-pm.c:284-286 | all shares lie within the affinity mask just when every available CPU with something to give does, up to the one where the split ends |
| FpPmGuarantee.OneCpuSplitUnfit | plugin/hybrid/fp-pm/fp-pm.c:381-402 | a split that ends on its first CPU, where the rooms are right and the test before did not admit the task, happens only to a task whose own response bound exceeds its deadline |
| FpPmGuarantee.ShareToleratedIff | plugin/hybrid/fp-pm/fp-pm.c:286-326 | a share leaves every task of the CPU within its deadline, by the test of the plugin, just when it is within all their rooms |
| FpPmGuarantee.DemandAfterSplit | plugin/hybrid/fp-pm/fp-pm.c:381-410 | after the split the demand of a task on a CPU has grown by exactly the interference of the share there if the task is not above the new priority, raised only if first and last CPU differ, and not at all otherwise |
| FpPmRuns.ResidentsMeetDeadlines | plugin/hybrid/fp-pm/fp-pm.c:154-197 | where the demands are within the deadlines and these within the periods every run of the CPU, residents beside migrating shares on top, meets every deadline |
| FpPmRuns.ResidentsMeetDeadlinesIff | plugin/hybrid/fp-pm/fp-pm.c:154-197 | for any deadlines: with different priorities just when whatever has longer than its period has room for any number of overlapping jobs |
| FpPmRuns.WholeTaskTiming | plugin/hybrid/fp-pm/fp-pm.c:46-50 | in these runs a task that was not split executes up to its worst-case time on a hard real-time build, up to its average on the other, in its own period and deadline |
| FpPmRuns.SplitKeepsAllWithinIff | plugin/hybrid/fp-pm/fp-pm.c:381-410 | after a split all tasks that stay on a CPU are within their deadlines just when those not above the new priority bear the share, the others were within before, and the new task is within its own deadline if it stays there |
| FpPmRuns.SoundSplitKeepsAllWithinIff | plugin/hybrid/fp-pm/fp-pm.c:270-355 | from the split itself: a CPU whose rooms are right and whose tasks were within their deadlines stays so, up to the new task where it ends up on that CPU alone |
| FpPmExamples.SixOfTen | plugin/hybrid/fp-pm/fp-pm.c:286-326 | a concrete CPU whose capacity is right: exactly the time that its task leaves over |
| FpPmExamples.ForgottenZeroOverruns | plugin/hybrid/fp-pm/fp-pm.c:322-325 | a concrete task list where no CPU admits the new task, a room of zero is forgotten in its split over two CPUs, and a resident overruns |
| FpPmExamples.RoundedUpOverruns | plugin/hybrid/fp-pm/fp-pm.c:317-319 | one where the capacity is rounded up in a split over two CPUs and a resident overruns by a microsecond |
| FpPmExamples.OutsideMask | plugin/hybrid/fp-pm/fp-pm.c:284-286 | a task bound to CPU 1, which does not admit it, gets all its time on CPU 0 |
| FpPmExamples.TwoCarried | plugin/hybrid/fp-pm/fp-pm.c:284-286 | a task bound to CPU 1, which does not admit it, is split so that two tasks continue from CPU 0, which was not looked at |
| FpPmGuarantee.SplitKeepsOneCarriedIff | plugin/hybrid/fp-pm/fp-pm.c:173-179 | at most one task continues from a CPU after a split just when the new one does not continue where another one does |
| GlobalEdf.JobStartKeepsInv | plugin/global/edf/g-edf.c:138-183 | a start keeps the invariant: sorted disjoint lists, distinct CPUs, flags exactly for running jobs, nothing waiting beside an idle CPU, no waiting deadline earlier than a running one |
| GlobalEdf.JobCompleteKeepsInvIff | plugin/global/edf/g-edf.c:213-246 | a completion keeps it just when the job that completes was running |
| GlobalEdf.WaitingCompletionBreaksInv | plugin/global/edf/g-edf.c:221-236 | completing a job that only waits always breaks it |
| GlobalEdf.RunKeepsInv | plugin/global/edf/g-edf.c:138-246 | so it holds after every run of starts and completions |
| GlobalEdfPlaces.CompletePlaces | plugin/global/edf/g-edf.c:213-246 | the earliest waiting job takes over exactly the CPU of the job that completes, which is idle if none waits; nobody else moves |
| GlobalEdfPlugin.Plugin.RunListInsert | plugin/global/edf/g-edf.c:49-70 | insertion by deadline unless the task is already there |
| GlobalEdfPlugin.Plugin.JobStart | plugin/global/edf/g-edf.c:138-183 | the locked section of a start, in place, is the start of the state machine and keeps the invariant |
| GlobalEdfPlugin.Plugin.JobComplete | plugin/global/edf/g-edf.c:213-246 | the same for a completion of a running job |
| Fifo.UnpackPack | lib/nvrm/nvrm_fifo.h:107-116 | the two halves of an entry hold its 40-bit base below its length, and give both back |
| Fifo.DecodeAddress | lib/nvrm/nvrm_fifo.h:124-134 | the two position registers, read one after the other while the device moves, decode in 32 bits to the offset of its position at the first read, whatever the other bits |
| Fifo.FirstReportIff | lib/nvrm/nvrm_fifo.h:124-134 | if the device reports no position at the first read but one at the second, the result is right just when the low register holds that of the base |
| Fifo.WriteOk | lib/nvrm/nvrm_fifo.h:35-35 | the waiting guard holds exactly when the ring is full |
| Fifo.PushOk | lib/nvrm/nvrm_fifo.h:108-108 | the waiting guard of the entry ring holds exactly when no entry is free |
| FifoChannel.Channel.constructor | lib/nvrm/nvrm_irqctx.c:120-141 | empty rings with all positions at zero satisfy the invariant |
| FifoChannel.Channel.DeviceFetch | lib/nvrm/nvrm_fifo.h:105-122 | one step of the device reads one word of the published stream, if there is one |
| FifoChannel.Channel.UpdateGet | lib/nvrm/nvrm_fifo.h:124-134 | with the device running before and between the two reads, the position the producer knows is exactly that of the device at the first read, everything published if it had time to drain |
| FifoChannel.Channel.Push | lib/nvrm/nvrm_fifo.h:105-122 | a push completes without waiting when an entry is free, else with the first poll that drains the device; it publishes exactly that segment, in the two cells of the entry as address and length, and nothing while it waits |
| FifoChannel.Channel.FireRing | lib/nvrm/nvrm_fifo.h:11-31 | a fire publishes exactly the unpublished words, as one segment or two at the wrap, and completes when that many entries are free or that many polls drain the device |
| FifoChannel.Channel.Flush | lib/nvrm/nvrm_fifo.h:11-31 | nothing is lost: with two draining polls the fire completes, and after a ring of device progress everything written was received |
| BitScan.FindFirst | core/bitops.h:20-29 | the first set bit of the bitmap, -1 just when there is none |
| BitScan.FindFirstZero | core/bitops.h:36-45 | the first zero bit of the bitmap, -1 just when there is none |
| BitScan.FindLast | core/bitops.h:52-61 | the last set bit of the bitmap |
| BitScan.FindNext | core/bitops.h:85-114 | the first set bit from the offset on, just when no word is misread; where one is, the scan has begun a whole word earlier |
| BitScan.FindPrevious | core/bitops.h:159-188 | the last set bit up to the offset |
| BitScan.SetBitSets | core/sched_fp.c:36-36 | setting a bit sets that bit only |
| BitScan.ClearBitClears | core/sched_fp.c:51-51 | clearing a bit clears that bit only |
| ActiveQueue.PrioArray.EnqueueFp | core/sched_fp.c:29-38 | append to the list of the priority: the task stands behind all queued with at least its priority and before all with less; bitmap, counter and uniqueness are kept |
| ActiveQueue.PrioArray.EnqueueEdf | core/sched_edf.c:33-59 | insert by deadline into the list of the priority: behind higher priorities, before lower ones, and by deadline among equal ones |
| ActiveQueue.PrioArray.Dequeue | core/sched_fp.c:44-55 | unlink; the bit is cleared just when the list is empty; the task is queued nowhere |
| ActiveQueue.Migrate | core/sched_fp.c:137-163 | the task moves from one CPU to the tail of its list on the other, with the total unchanged |
| ActiveQueue.PrioArray.Highest | core/sched.c:635-656 | a task such that no task of greater priority is queued, the first of the sequence; none just for an empty queue |
| ActiveQueue.PrioArray.Previous | core/sched.c:686-705 | the task before the given one in the sequence |
| EdfHead.JobStartKeepsInvIff | core/sched_edf.c:80-102 | a job start queues the task and keeps the head as the only queued task awake, except where the scan behind the EDF list is misled and the list was empty |
| EdfHead.JobCompleteKeepsInv | core/sched_edf.c:107-125 | a completion does, and exactly that task leaves the queue |
| EdfHead.ExpireKeepsInv | core/sched_edf.c:149-174 | after a reserve is used up the head alone is awake and nobody has left the queue; EdfRuns.RunSplitsLists says which list the task is in |
| EdfHead.ReplenishKeepsInvIff | core/sched_edf.c:179-205 | a replenishment does just where the scan is not misled, the list was not empty, or the task was the head |
| EdfRuns.StepLeavesOthers | core/sched_edf.c:80-205 | threads without a job are neither woken nor put to sleep, nor is the one that completes its job |
| EdfHead.AwakeIsEarliest | core/sched_edf.c:80-205 | the task awake has the earliest deadline, and a background task is awake only when the EDF list is empty |
| EdfHead.MisledFirstJobSleeps | core/sched_edf.c:88-95 | where the scan is misled the first job on an idle CPU puts itself to sleep |
| LocalEdf.Cpu.JobStart | core/sched_edf.c:80-102 | in place on the active queue, a job start is the step of the state machine |
| LocalEdf.Cpu.JobComplete | core/sched_edf.c:107-125 | the same for a completion |
| LocalEdf.Cpu.Expire | core/sched_edf.c:149-174 | in place on the active queue, a reserve that is used up is the step of the state machine, also for a task that is not queued |
| LocalEdf.Cpu.Replenish | core/sched_edf.c:179-205 | the same for a replenishment |
| GdevList.AddNext | include/gdev_list.h:50-58 | rewiring four pointers inserts the entry behind the position |
| GdevList.AddPrev | include/gdev_list.h:60-68 | the same before the position; before the head is the end |
| GdevList.Del | include/gdev_list.h:80-89 | unlinking removes that entry only and leaves it a ring of its own |
| GdevList.Empty | include/gdev_list.h:91-94 | true exactly for an entry that is alone in its ring |
| GdevList.List.First | include/gdev_list.h:96-105 | the container of the first entry, none just for an empty list |
| Vsched.EnqueueCompute | core/gpu.c:511-526 | everybody before the entity has at least its priority and the one right behind has less; the others keep their order |
| Vsched.DequeueCompute | core/gpu.c:532-538 | that entity leaves the list |
| Vsched.Phys.ScheduleCompute | core/gpu_vsched_fifo.c:29-56 | a caller goes on just when no other device is in possession, and then its device is |
| Vsched.Phys.SelectNextCompute | core/gpu_vsched_fifo.c:58-85 | the device that completes goes to the end, and the first one whose wait list is not empty gets possession |
| Vsched.Phys.FindBusy | core/gpu_vsched_fifo.c:71-80 | the loop over the ring reads the wait lists and finds the first such device, or none if there is none |
| Vsched.BypassedByAll | core/gpu_vsched_fifo.c:58-85 | the bound is exact |
| Handles.AllocUndoesFreeIff | lib/nvrm/nvrm_submthd.c:33-62 | allocating after a release restores the chain just when no smaller handle was free |
| Handles.Context.Free | lib/nvrm/nvrm_submthd.c:51-62 | the linked chain without the handle, or an abort exactly when it is not in use |
| EdfWmSelection.SortRuntime | plugin/hybrid/edf-wm/edf-wm.c:496-513 | every CPU once, larger runtimes first, lower CPUs first among equal ones |
| EdfWm.WindowTask.Try | plugin/hybrid/edf-wm/edf-wm.c:524-551 | one attempt succeeds exactly when some choice of that many CPUs is enough |
| EdfWmMeaning.SplitServes | plugin/hybrid/edf-wm/edf-wm.c:535-562 | the shares of a successful split are such shares, and stay within the window after a trim that does not wrap |
| EdfWm.WindowTask.Split | plugin/hybrid/edf-wm/edf-wm.c:518-586 | the least number of CPUs that is enough, with the last share trimmed; failure just when no choice of any number is; the windows fit the deadline |
| EdfWm.TrimWraps | plugin/hybrid/edf-wm/edf-wm.c:561-562 | concrete shares where it wraps |
| EdfWm.TrimmedGives | plugin/hybrid/edf-wm/edf-wm.c:555-562 | what is left is never more than needed and short of it by less than a jiffy, exact just for whole jiffies |
| EdfWm.WindowTask.JobStart | plugin/hybrid/edf-wm/edf-wm.c:662-674 | the first window begins on the first CPU |
| EdfWm.WindowTask.WindowEnds | plugin/hybrid/edf-wm/edf-wm.c:109-122 | at the end of a window the job goes to the next CPU with a share and gets the next window |
| EdfWm.WindowsFit | plugin/hybrid/edf-wm/edf-wm.c:690-744 | the end of the current window never lies behind the deadline before the split |

## Left out

- EdfAdmission.WholePercentSchedulableIff, like `EdfFeasibility.AcceptedIsFeasible` and `WholePercentFeasibleIff` under it: corollaries for utilizations that do not round; `AcceptedSchedulableIff` needs none of that.
- FpPmGuarantee.SplitKeepsDeadlines: a sufficient condition with the overhead that the plugin counts; `SplitKeepsDeadlineIff` is exact. Both state own work and interference, since the plugin charges a newcomer's overhead to nobody, and neither speaks of the completion of the migrating job itself, which the plugin does not analyse.
- FpPmGuarantee.SoundShareTolerated: a sufficient condition on the capacities; `ShareToleratedIff` is exact.
- FpPmGuarantee.SplitKeepsOneCarried: covers CPUs that the preceding partitioning looked at; `SplitKeepsOneCarriedIff` is exact, and `FpPmExamples.TwoCarried` shows a CPU that was not looked at.
- FpPmRuns.ResidentsMeetDeadlines: shares reach a CPU a period apart and execute at most their piece there, as the timers run from the start of the job without drift. They run in wall-clock time (plugin/hybrid/fp-pm/fp-pm.c:106-113) and the last CPU has none, so a share that another one at the same priority delays leaves more than its piece for the last CPU; that is not modelled.
- EdfWm.WindowTask.Split: the capacity test of a CPU (`set_split_runtime`) is a parameter, since it mixes jiffies and microseconds and subtracts without guards; at least two CPUs are needed, as the source reads two entries of its CPU array. The variant under `EDF_WM_FAIR_SPLIT` trims every share instead of the last one.
- EdfWm.SplitWellPlaced: speaks of the shares before the trim; `SplitWellPlacedIff` says when the trim keeps the places, and `TrimWraps` shows shares where it does not.
- FifoChannel.Channel.Push: the waiting loops are bounded by the polls given; with none left the caller is still waiting, and the contract says after how many draining polls that cannot be. The same holds of `FireRing` and `OutRing`.
- FifoChannel.Channel.UpdateGet: a device that reports no position yet at the first read does not fetch between the two reads; `Fifo.FirstReportIff` says what would happen otherwise.
- Vsched.Phys.SelectNextCompute: the wait lists are read in one step, although each has its own lock; `Vsched.SelectedWithinDevices` lets the devices that have contexts waiting change at every selection.
- EdfSchedule.EdfMeetsDeadlinesIff: switches, releases and migrations cost no time in the schedule; the test's overhead term is only used as additional demand.
- FpFf.AdmissionKeepsInv: states own work and interference, not overhead, because the full bound is not kept (`FpAdmission.FullBoundIsNotInvariant`).
- FpExact.FpMeetsDeadlinesIff: with equal priorities the windows that count equals are enough (`LevelsSuffice`) and those that do not are necessary (`LevelsNecessary`); between the two the order of arrival decides, which is not characterised. Jobs are released at least a period apart, so a thread that calls for a shorter interval (core/sched.c:1162) is not covered.
- FpPmSplit.SplitTask.Split: the products of the capacity formula and the execution time are taken to fit a word; the shares of other tasks are a table that the split only reads.
- FpPm.ResponseTimeAnalysis: answers the availability flag instead of storing it; its callers store it.
- FifoChannel.Channel.Run: the flags of an entry are zero as in all calls of the fire; the optional `kick` and `space` callbacks, the yield between polls, the memory barrier and the dummy read are not modelled; the device consumes published words in order.
- ActiveQueue.PrioArray.EnqueueFp: priorities are those whose index lies in the queue array; the source does not check the others.
- EdfHead.RunKeepsInv: one CPU without migration; thread states are the set of threads not sleeping, changed where the class assigns a state or wakes a thread.
- Vsched.EnqueueCompute: only the compute list; the memory list repeats it.
- GlobalEdfPlugin.Plugin.JobStart: priority changes around the section are not part of the state.
- `usecs_to_jiffies` saturates for very large arguments; the model does not.
- Overflow of `unsigned long` other than the places named above.
- `cpu_low_util` is not called; the first-fit variant of EDF-FF under `EDF_FIRST_FIT` would only repeat `FpFf.Partition` over another test.
- The demand test of EDF-WM repeats that of EDF-FF with windows instead of deadlines.
- plugin/global/fp/g-fp.c and plugin/global/fp-us/fp-us.c order lists by a priority that they rewrite around the insertion; plugin/global/edf-us/edf-us.c repeats the list logic of global EDF.
- `resch_fnz` and `resch_fpz` mask before they complement and are not used by the queue; `resch_flz` is not used either.
- The wake and sleep decisions of `edf_migrate_task` ask for a run queue that core/sched_edf.c never fills; only the queue part of a migration is modelled.
- Budgets, preemption tracing and components (core/reservation.c, core/preempt_trace.c, core/component.c), core/sched_deadline.c and core/sched_edf2.c.
- GPU time arithmetic, the credit and band policies, kernel sleep and wake calls, context ids.
- The character device, ioctl and proc entries, interrupts, MMIO registers, NVRM calls, user libraries, benchmarks and samples.
