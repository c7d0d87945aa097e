# CPU scheduling simulators, modelled in Dafny

This project models the CPU-scheduling lab in `scheduler.h` and
`scheduler.cpp`. The lab simulates scheduling policies over a fixed set of
jobs whose arrival and burst times are known in advance. Each policy runs a
discrete-time dispatch loop that writes each job's completion time, and from
that its turnaround time and waiting time.

The model follows the source's two families of schedulers.

- `Schedulers.Scheduler` is the `Scheduler` base class together with its five
  subclasses: FCFS, SJF, SRTF, and the two Round Robin variants. It holds a
  vector of `Process` records, a clock and a quantum. Each `schedule()` is a
  method of its own, and `calculateMetrics` is shared.
- `TaskScheduling.TaskScheduler` is the task facade. It holds a vector of
  `Task` records, the name of a policy, a quantum and a clock. `run`
  dispatches on the name to FCFS, SJF, SRTF, Round Robin or Priority. Unlike
  the per-policy schedulers, it also records each task's start time, and it
  writes turnaround and waiting time when a task completes.

Each policy is also stated once as a pure specification over integer
columns: arrival times, burst times, keys and work left. These live in
`FcfsPolicy`, `NonPreemptivePolicy` (SJF and Priority), `SrtfPolicy` and
`RoundRobinPolicy`.

- A turn of the loop is a function on a loop-state datatype, and the whole
  loop is a recursive function that ends.
- Its measure is the jobs left (or the work left), then the latest arrival
  minus the clock.
- Lemmas about these functions state what every run guarantees: every job
  completes, no job starts before it arrives, and the selection rule is
  respected. For FCFS, SJF and Priority they also show that jobs do not
  overlap. For SRTF and Round Robin, where jobs are interleaved, they show
  that at most one unit of work is done per unit of time, so a run from
  time 0 lasts at least the total work of all the jobs.

The imperative methods run the source's loops on the classes' fields and
local vectors. Each loop invariant ties the current state to the
specification state, and every method's postcondition says the records end
up as the specification's final state dictates. `Selection` holds the
scan-for-minimum loops, and `Sorting` holds the `std::sort` calls.
`SeqMath` holds the counting and summing facts that the termination
measures need.

Some behaviours of the code shape the model:

- **Zero-length jobs.** The SRTF scan and the Round Robin admission skip
  any job with no work left. Such a job is never selected, so the loop
  would never end. The model therefore requires positive work for SRTF and
  Round Robin.
- **FCFS tie order.** FCFS sorts by arrival with `std::sort`, which is not
  stable. The contracts therefore hold for every arrival-sorted
  rearrangement of the records. `FcfsPolicy.SortedRearrangementUnique`
  shows that the order is fixed when no two arrivals are equal.
- **Idle time.** When no job has arrived, the clock advances by one unit
  per turn of the loop. It never jumps to the next arrival, and the model
  does the same.
- **Process fields.** Only `Task` records a start time and a `started`
  flag. `Process` has neither.
- **Unknown policy names.** `run` does nothing for a policy name it does
  not know. The model proves that nothing changes.

## Model

| member | source | states |
|---|---|---|
| Jobs.NewProcess | scheduler.h:20-23 | A new process carries its id, arrival, burst and priority; all its work is still to do, and its waiting, turnaround and completion times are 0 |
| Jobs.NewTask | scheduler.h:39-42 | A new task carries its id, arrival, burst and priority, with all work left; its metrics are 0, its start time is -1 and it has not started |
| Jobs.NewProcessDefault | scheduler.h:20-23 | `Process(p, at, bt)` with the priority argument left out: the priority is the default 0, and the record is otherwise a new process with all work left and zero metrics |
| Jobs.NewTaskDefault | scheduler.h:39-42 | `Task(id, at, bt)` with the priority argument left out: the priority is the default 0, and the task is otherwise new, not started, with start time -1 and zero metrics |
| Jobs.WithMetrics | scheduler.cpp:10-11 | Turnaround is completion minus arrival, waiting is turnaround minus burst, and no other field of the record changes |
| Jobs.TaskWithMetrics | scheduler.cpp:283-284 | The same derivation for a task that the facade writes on completion; no other field changes |
| Selection.PicksFirstMin | scheduler.cpp:64-74 | The selection rule of the scans: -1 when no eligible job has a key below INT_MAX; otherwise an eligible job whose key is below INT_MAX, no greater than any eligible key and strictly less than every earlier one; an index it accepts is -1 or in range |
| Selection.FirstMin | scheduler.cpp:64-74 | The running-minimum scan, extended one entry at a time as the loop walks the vector; its answer is -1 or an index of the vector |
| Selection.FirstMinPicks | scheduler.cpp:64-74 | The scan's result satisfies the selection rule: the eligible job with the least key below INT_MAX, lowest index on ties, or -1 when no eligible job has a key below INT_MAX |
| Selection.FirstMinUnique | scheduler.cpp:64-74 | At most one index satisfies the selection rule, so every scan that follows it returns the same job |
| Selection.ScanArrivedWaiting | scheduler.cpp:64-74 | The SJF and Priority scan returns the first arrived, uncompleted job with the least key, or -1 |
| Selection.ScanShortestRemaining | scheduler.cpp:101-111 | The SRTF scan returns the first arrived job with work left and the least of it, or -1 |
| Sorting.InsertBySorted | scheduler.cpp:40-43 | Inserting into an arrival-sorted sequence keeps it sorted and adds exactly the one element |
| Sorting.SortBy | scheduler.cpp:40-43 | The result is sorted by the key and is a permutation of the input |
| Sorting.SortIndicesByArrival | scheduler.cpp:137-142 | The index vector is a permutation of 0..n-1 sorted by arrival time |
| Sorting.ArrivalOrderFacts | scheduler.cpp:137-142 | The sorted indices hold every job index exactly once, all in range |
| FcfsPolicy.FcfsClock | scheduler.cpp:46-52 | The clock once the first k sorted jobs have run; it is never earlier than the arrival plus the burst of the last of them |
| FcfsPolicy.FcfsStart | scheduler.cpp:47-50 | A job starts at the later of its arrival and the moment the CPU is free, and the clock then advances by its burst |
| FcfsPolicy.FcfsFinish | scheduler.cpp:50-51 | The definition of a job's completion: the clock once it has run, which is its start plus its burst (FcfsTimings proves what follows from it) |
| FcfsPolicy.FcfsClockMonotone | scheduler.cpp:46-52 | With non-negative bursts the FCFS clock never goes back |
| FcfsPolicy.FcfsTimings | scheduler.cpp:46-52 | No job completes before its arrival plus its burst, completions do not decrease along the sorted order, and each job completes before the next one starts |
| FcfsPolicy.SortedRearrangementUnique | scheduler.cpp:40-43 | When no two jobs share an arrival time, any two arrival-sorted rearrangements are equal, so the instability of `std::sort` cannot change the FCFS order |
| NonPreemptivePolicy.NpInitial | scheduler.cpp:59-61 | The loop starts at time 0 with no job completed |
| NonPreemptivePolicy.NpStep | scheduler.cpp:63-84 | One turn of the SJF or Priority loop keeps the shape of the loop state: a completion flag, a start and a finish time per job |
| NonPreemptivePolicy.NpStepCases | scheduler.cpp:63-83 | A turn either advances the clock by exactly one when nothing qualifies, or dispatches the job that the selection rule picks and runs its whole burst |
| NonPreemptivePolicy.NpStepBy | scheduler.cpp:64-83 | Any index that satisfies the selection rule determines the turn |
| NonPreemptivePolicy.NpStepProgress | scheduler.cpp:76-83 | Each turn either completes exactly one more job or idles while some job has not yet arrived |
| NonPreemptivePolicy.NpStepKeeps | scheduler.cpp:76-80 | A turn never undoes a completion and never rewrites the times of a completed job |
| NonPreemptivePolicy.NpRun | scheduler.cpp:63-84 | The whole `while (completed < n)` loop; it terminates and keeps the shape of the loop state |
| NonPreemptivePolicy.NpRunCompletes | scheduler.cpp:63-84 | The loop ends with every job completed, and jobs completed on entry keep their times |
| NonPreemptivePolicy.NpRunStep | scheduler.cpp:63-84 | One turn while jobs remain leaves the outcome of the loop unchanged |
| NonPreemptivePolicy.NpTurn | scheduler.cpp:64-83 | From the scan's answer: -1 means an idle turn before the last arrival; otherwise the picked uncompleted job runs its whole burst from now and the completed count rises by one |
| NonPreemptivePolicy.NpStepTimed | scheduler.cpp:76-80 | Every completed job started no earlier than its arrival and ran its whole burst in one piece, and each turn keeps this |
| NonPreemptivePolicy.NpRunTimed | scheduler.cpp:63-84 | The same holds at the end of the loop |
| NonPreemptivePolicy.NpStepSpaced | scheduler.cpp:76-80 | With non-negative bursts, completed jobs finish before the clock and never overlap, and each turn keeps this |
| NonPreemptivePolicy.NpStepKeyed | scheduler.cpp:64-80 | A job that had arrived when another was dispatched but starts later has a key no smaller, with ties going to the lower index, and each turn keeps this |
| NonPreemptivePolicy.NpStepOrdered | scheduler.cpp:64-80 | Both orderings together are kept by each turn |
| NonPreemptivePolicy.NpRunOrdered | scheduler.cpp:63-84 | Both orderings hold at the end of the loop |
| NonPreemptivePolicy.NpSchedule | scheduler.cpp:58-84 | After a complete SJF or Priority run, each job started no earlier than its arrival and ran its whole burst without interruption; with non-negative bursts no two jobs overlap, and every job that had arrived at a dispatch and started later has a key no smaller (ties to the lower index) |
| NonPreemptivePolicy.SelectNext | scheduler.cpp:64-83 | The scan that opens a turn picks by the selection rule, and the turn is exactly one specification step: -1 means it idles for one unit; otherwise it names an uncompleted job that runs whole |
| SrtfPolicy.SrtfInitial | scheduler.cpp:91-98 | The loop starts at time 0 with each job's work equal to its burst |
| SrtfPolicy.SrtfStep | scheduler.cpp:100-123 | Every turn takes exactly one time unit |
| SrtfPolicy.SrtfTick | scheduler.cpp:104-120 | A unit given to job j: j is the scan's pick, so it has arrived and has work left, and it gets one unit of work |
| SrtfPolicy.WorkUnit | scheduler.cpp:113-120 | One unit of work for job j: it ends up started, and it has no work left exactly when this was its last unit |
| SrtfPolicy.SrtfStepBy | scheduler.cpp:104-123 | Any index that satisfies the selection rule determines the unit |
| SrtfPolicy.SrtfStepCases | scheduler.cpp:104-123 | A unit either idles with nothing else changed, or takes exactly one unit of work off the job the selection rule picks; that job is marked started (its start time set on its first unit) and completes at the end of the unit that empties it; nothing else changes |
| SrtfPolicy.SrtfStepProgress | scheduler.cpp:113-123 | Each unit either removes one unit of outstanding work or idles while some job with work has not arrived |
| SrtfPolicy.IdleProgress | scheduler.cpp:121-123 | An idle unit happens only before the latest arrival |
| SrtfPolicy.TickProgress | scheduler.cpp:113-115 | A working unit lowers the total outstanding work by exactly one and keeps every job's work non-negative |
| SrtfPolicy.SrtfStepKeeps | scheduler.cpp:113-120 | A job with no work left keeps none and keeps its completion time |
| SrtfPolicy.SrtfRun | scheduler.cpp:100-124 | The whole `while (completed < n)` loop; it terminates and keeps the shape of the loop state |
| SrtfPolicy.SrtfRunCompletes | scheduler.cpp:100-124 | The loop ends with no work left, and jobs already finished on entry keep their completion times |
| SrtfPolicy.SrtfTurn | scheduler.cpp:104-123 | From the scan's answer: -1 means an idle unit before the last arrival; otherwise one unit of the picked job's work, and the outcome of the loop is unchanged |
| SrtfPolicy.SrtfStepTimed | scheduler.cpp:113-120 | Each unit keeps the accounting: untouched jobs keep all their work, started jobs started after arrival and got at most one unit per time unit, and finished jobs completed by the clock and no earlier than start plus work |
| SrtfPolicy.SrtfRunTimed | scheduler.cpp:100-124 | The same accounting holds at the end of the loop |
| SrtfPolicy.SrtfSchedule | scheduler.cpp:90-124 | After a complete SRTF run every job is finished, its first unit ran no earlier than its arrival, and it completed no earlier than its start plus its work, so its waiting time is never negative |
| SrtfPolicy.SrtfRunBusy | scheduler.cpp:113-123 | The loop does at most one unit of work per unit of time: the time it takes is at least the work it removes |
| SrtfPolicy.SrtfLastsWork | scheduler.cpp:90-124 | A complete SRTF run from time 0 ends no earlier than the total burst time of all the jobs |
| SrtfPolicy.SrtfUnit | scheduler.cpp:101-123 | One time unit on the loop's own variables: the scan picks by the selection rule, and the unit is exactly one specification step, one unit off the picked job or an idle unit |
| RoundRobinPolicy.ArrivalOrderEnumerates | scheduler.cpp:137-142 | The arrival-sorted index vector lists every job exactly once |
| RoundRobinPolicy.RrInitial | scheduler.cpp:131-144 | The loop starts at time 0 with an empty queue, no `in_queue` flag set and no job admitted |
| RoundRobinPolicy.AdmitNext | scheduler.cpp:150-155 | Looking at the next job in arrival order moves past exactly one job and at most appends to the tail of the queue |
| RoundRobinPolicy.AdmitAll | scheduler.cpp:148-156 | Admission changes only the queue, the flags and the position in the arrival order, and keeps their shape |
| RoundRobinPolicy.Admit | scheduler.cpp:148-156 | Admission walks the arrival order exactly past the jobs that have arrived and stops at the first that has not; the queue only grows at its tail |
| RoundRobinPolicy.AdmitArrivals | scheduler.cpp:148-156 | The admission loop on the queue, the flags and the position computes exactly the admission function |
| RoundRobinPolicy.AdmitMissesNone | scheduler.cpp:148-156 | With indices in arrival order, every job that has arrived by the clock has been reached |
| RoundRobinPolicy.Pop | scheduler.cpp:159-161 | Taking the head removes exactly that job from the front and marks it started, its start time set only on its first turn (the bookkeeping the task facade keeps at scheduler.cpp:390-393) |
| RoundRobinPolicy.Execute | scheduler.cpp:163-165 | The job runs for `min(quantum, remaining)` units: the clock advances and its work drops by that amount, and nothing else changes |
| RoundRobinPolicy.Requeue | scheduler.cpp:178-184 | A job with work left rejoins at the tail; otherwise it completes at the current time and the queue is unchanged |
| RoundRobinPolicy.RrStep | scheduler.cpp:146-188 | One turn of the outer loop keeps the shape of the loop state |
| RoundRobinPolicy.RrStepSlice | scheduler.cpp:146-188 | A turn with an empty queue after admission advances the clock by one and does no work; otherwise the head runs for at most one quantum, the jobs behind it keep their places at the front ahead of new arrivals, and it rejoins at the tail or completes |
| RoundRobinPolicy.RrInvInitial | scheduler.cpp:131-144 | The queue invariant holds at the start: distinct queued jobs, exactly those flagged `in_queue`, each arrived with work left; unreached jobs are neither queued nor running |
| RoundRobinPolicy.AdmitInv | scheduler.cpp:148-156 | Admission keeps the queue invariant, so no job is queued twice |
| RoundRobinPolicy.AdmitOneInv | scheduler.cpp:150-155 | Admitting one job keeps the queue invariant |
| RoundRobinPolicy.PopInv | scheduler.cpp:159-161 | Taking the head keeps the invariant, with that job running |
| RoundRobinPolicy.ExecuteInv | scheduler.cpp:163-165 | Running a slice keeps the invariant and never drives work below zero |
| RoundRobinPolicy.RequeueInv | scheduler.cpp:178-184 | Requeueing or completing the running job restores the invariant between turns |
| RoundRobinPolicy.RrStepProgress | scheduler.cpp:146-188 | Each turn keeps the invariant and either does at least one unit of work or idles before the latest arrival |
| RoundRobinPolicy.SliceProgress | scheduler.cpp:158-184 | A turn that runs the head of the queue does at least one unit of work |
| RoundRobinPolicy.IdleMeansWaiting | scheduler.cpp:185-187 | An empty queue while work remains means some job has not yet arrived |
| RoundRobinPolicy.RrRun | scheduler.cpp:146-188 | The whole `while (completed < n)` loop; it terminates and keeps the shape of the loop state |
| RoundRobinPolicy.RrRunCompletes | scheduler.cpp:146-188 | The loop ends with no work left, the queue empty and the invariant intact |
| RoundRobinPolicy.RrRunStep | scheduler.cpp:146-188 | One turn while work remains leaves the outcome of the loop unchanged |
| RoundRobinPolicy.RrStepCount | scheduler.cpp:178-184 | The count of finished jobs rises by one exactly when the running job's work reaches zero |
| RoundRobinPolicy.RrTurnFacts | scheduler.cpp:146-188 | What the loop needs from one turn: the invariant, the unchanged outcome, progress, and the completed count rising exactly when the head finished |
| RoundRobinPolicy.RrStepTimed | scheduler.cpp:158-184 | Each turn keeps the accounting: untouched jobs keep all their work, a job's first turn comes no earlier than its arrival, and finished jobs completed by the clock and no earlier than start plus work |
| RoundRobinPolicy.RrRunTimed | scheduler.cpp:146-188 | The same accounting holds at the end of the loop |
| RoundRobinPolicy.RrStepBusy | scheduler.cpp:158-187 | A turn does at most one unit of work per unit of time: its slice of `min(quantum, remaining)` units advances the clock by as much, and an idle turn advances it by one |
| RoundRobinPolicy.RrRunBusy | scheduler.cpp:146-188 | The same holds for the rest of the loop: the time it takes is at least the work it removes |
| RoundRobinPolicy.RrLastsWork | scheduler.cpp:130-191 | A complete Round Robin run from time 0 ends no earlier than the total work of all the jobs |
| RoundRobinPolicy.RrSchedule | scheduler.cpp:130-191 | After a complete Round Robin run, for any arrival-sorted index order, every job is finished, its first turn came no earlier than its arrival, and it completed no earlier than its start plus its work |
| Schedulers.SjfCompletions | scheduler.cpp:58-84 | The completion time that SJF writes for each process, one per process |
| Schedulers.SrtfFinal | scheduler.cpp:90-124 | The end state of the SRTF loop on the processes: no process has work left |
| Schedulers.RrFinal | scheduler.cpp:130-188 | The end state of the Round Robin loop on the processes: no process has work left |
| Schedulers.FcfsRecords | scheduler.cpp:46-54 | The records FCFS leaves never show a negative waiting time, and with non-negative bursts each completes before the next one starts |
| Schedulers.SjfWaiting | scheduler.cpp:58-86 | Under SJF no process completes before its arrival plus its burst, so none waits a negative time |
| Schedulers.RrTurnaround | scheduler.cpp:130-190 | Under Round Robin no record completes sooner after its arrival than the work it had |
| Schedulers.Scheduler.constructor | scheduler.h:52 | A new scheduler has no processes, its clock at 0 and the default quantum 4 |
| Schedulers.Scheduler.WithQuantum | scheduler.h:87 | A Round Robin scheduler built with quantum q has no processes, its clock at 0 and quantum q |
| Schedulers.Scheduler.AddProcess | scheduler.h:55-57 | Appends exactly one record at the end and leaves the rest and the clock unchanged |
| Schedulers.Scheduler.CalculateMetrics | scheduler.cpp:8-13 | Every record gets its turnaround and waiting time from its completion time; nothing else changes |
| Schedulers.Scheduler.ScheduleFCFS | scheduler.cpp:39-55 | The records end up as an arrival-sorted permutation of the old ones, each completing when the FCFS clock says, with its metrics derived; the clock ends at the FCFS clock; no record waits a negative time, and with non-negative bursts each completes before the next starts |
| Schedulers.Scheduler.FcfsNext | scheduler.cpp:47-51 | One loop step runs the next record from the later of the clock and its arrival and writes its completion |
| Schedulers.Scheduler.ScheduleSJF | scheduler.cpp:58-87 | Each record completes when the SJF specification says, with its metrics derived; no record waits a negative time |
| Schedulers.Scheduler.RunToCompletion | scheduler.cpp:76-80 | A dispatched process runs its whole burst from now and its completion time is written |
| Schedulers.Scheduler.ScheduleSRTF | scheduler.cpp:90-127 | Each record completes when the SRTF specification says, with its metrics derived; no record waits a negative time |
| Schedulers.Scheduler.SrtfTimeUnit | scheduler.cpp:101-123 | One time unit of the loop picks by the selection rule and is exactly one specification step, and completion is written exactly when the work reaches zero |
| Schedulers.Scheduler.ScheduleRR | scheduler.cpp:130-191 | Also `RoundRobinScheduler::schedule`, whose body is the same: every record ends with no work left and completes when the Round Robin specification says for the sorted index order, with its metrics derived; turnaround is at least the work it had |
| Schedulers.Scheduler.RunQueue | scheduler.cpp:144-188 | The outer loop ends in the specification's final state, with no work left on any record |
| Schedulers.Scheduler.RrTurn | scheduler.cpp:146-188 | One turn of the loop is exactly the specification's turn, and it reports completion exactly when the head's work reached zero |
| Schedulers.Scheduler.RrRunHead | scheduler.cpp:158-176 | Take the head, run its slice, and admit the jobs that arrived meanwhile |
| Schedulers.Scheduler.RrSlice | scheduler.cpp:159-165 | The head leaves the queue and runs for `min(quantum, remaining)` units on its record |
| Schedulers.Scheduler.RrRequeue | scheduler.cpp:178-184 | The job rejoins the tail if it has work, or its completion time is written |
| TaskScheduling.TaskNpRun | scheduler.cpp:293-317 | The end state of the SJF or Priority loop on the tasks: every task has completed |
| TaskScheduling.TaskSrtfRun | scheduler.cpp:326-355 | The end state of the SRTF loop on the tasks: no task has work left |
| TaskScheduling.TaskRrRun | scheduler.cpp:372-421 | The end state of the Round Robin loop on the tasks: no task has work left |
| TaskScheduling.TaskFcfsRecords | scheduler.cpp:276-285 | Each task FCFS leaves starts no earlier than its arrival and waits exactly from arrival to start; with non-negative bursts each completes before the next starts |
| TaskScheduling.TaskNpSchedule | scheduler.cpp:288-318 | Under SJF or Priority each task starts no earlier than its arrival, runs its whole burst and waits exactly from arrival to start; tasks do not overlap and dispatches respect the key order, ties to the lower index |
| TaskScheduling.TaskSrtfSchedule | scheduler.cpp:320-357 | Under SRTF every fresh task is started, starts no earlier than its arrival, completes no earlier than start plus burst and never waits a negative time |
| TaskScheduling.TaskRrSchedule | scheduler.cpp:359-422 | The same for Round Robin, whatever order `std::sort` leaves equal arrivals in |
| TaskScheduling.TaskScheduler.constructor | scheduler.h:115-116 | A new facade has no tasks, the given policy name and quantum, and its clock at 0 |
| TaskScheduling.TaskScheduler.WithDefaultQuantum | scheduler.h:115-116 | Without a quantum argument the quantum is 4 |
| TaskScheduling.TaskScheduler.AddTask | scheduler.h:118 | Appends exactly one task at the end and leaves the rest unchanged |
| TaskScheduling.TaskScheduler.Run | scheduler.cpp:255-267 | Each of the five names yields that policy's outcome; any other name changes neither the tasks nor the clock |
| TaskScheduling.TaskScheduler.ScheduleFCFS | scheduler.cpp:269-286 | The tasks end up as an arrival-sorted permutation of the old ones, each starting and completing when the FCFS clock says, with metrics derived |
| TaskScheduling.TaskScheduler.RunInOrder | scheduler.cpp:275-285 | The loop runs the tasks in their order and ends at the FCFS clock |
| TaskScheduling.TaskScheduler.RunNext | scheduler.cpp:277-284 | One loop step starts the next task at the later of the clock and its arrival, then writes its completion and metrics |
| TaskScheduling.TaskScheduler.ScheduleSJF | scheduler.cpp:288-318 | Every task starts and completes when the SJF specification says, with metrics derived |
| TaskScheduling.TaskScheduler.SchedulePriority | scheduler.cpp:424-454 | Every task starts and completes when the specification keyed by priority says, with metrics derived |
| TaskScheduling.TaskScheduler.DispatchLoop | scheduler.cpp:293-317 | The loop shared by SJF and Priority ends in the specification's final state |
| TaskScheduling.TaskScheduler.Dispatch | scheduler.cpp:306-313 | A dispatched task starts now, runs its whole burst, and has its completion and metrics written |
| TaskScheduling.TaskScheduler.ScheduleSRTF | scheduler.cpp:320-357 | Every task ends with no work left, with its start bookkeeping and completion as the SRTF specification says and metrics derived |
| TaskScheduling.TaskScheduler.SrtfTaskTurn | scheduler.cpp:326-355 | One time unit picks by the selection rule and is exactly one specification step, and reports completion exactly when a task's work reaches zero |
| TaskScheduling.TaskScheduler.RunOneUnit | scheduler.cpp:338-352 | One unit of work: the task is marked started (start time on first run), its work drops by one, and on reaching zero its completion and metrics are written |
| TaskScheduling.TaskScheduler.ScheduleRR | scheduler.cpp:359-422 | Every task ends with no work left, started and completing when the Round Robin specification says for the sorted index order, with metrics derived |
| TaskScheduling.TaskScheduler.RunQueue | scheduler.cpp:372-421 | The outer loop ends in the specification's final state with no work left |
| TaskScheduling.TaskScheduler.StartQueue | scheduler.cpp:360-372 | The loop starts with an empty queue, no flags, the clock at 0 and the queue invariant holding |
| TaskScheduling.TaskScheduler.RrTaskTurn | scheduler.cpp:374-421 | One turn of the loop is exactly the specification's turn, and it reports completion exactly when the head's work reached zero |
| TaskScheduling.TaskScheduler.RrTaskHead | scheduler.cpp:385-407 | Take the head, mark it started, run its slice, and admit the jobs that arrived meanwhile |
| TaskScheduling.TaskScheduler.RrTaskSlice | scheduler.cpp:386-397 | The head leaves the queue, gets its start time on its first turn, and runs for `min(quantum, remaining)` units |
| TaskScheduling.TaskScheduler.RrTaskRequeue | scheduler.cpp:409-417 | The task rejoins the tail if it has work, or its completion and metrics are written |

## Left out

- `Scheduler::printResults`, `TaskScheduler::printMetrics` and `main.cpp`
  are left out. They are console output and floating-point averages.
- The class hierarchy and virtual dispatch are left out. One
  `Schedulers.Scheduler` class stands for the base class and all five
  subclasses. Each `schedule()` is a method of its own, and `quantum` is
  used only by the Round Robin methods.
- 32-bit `int` arithmetic is not modelled. Integers are unbounded, so an
  overflowing clock or sum is not captured. INT_MAX appears only as the
  scans' starting minimum, where it decides which jobs can be picked.
- `std::sort` is left open. The postconditions hold for every
  arrival-sorted permutation; ties among equal arrivals are not fixed. The
  model's own sort is an insertion sort.
- `run` keeps the policy name as a `string` and compares it exactly, as the
  source does. It is not turned into an enumeration.
- `std::queue` and the local `std::vector`s (`completed`,
  `remaining_time`, `in_queue`, `indices`) are sequences held in local
  variables. Each specification state is carried alongside as a ghost
  value.
- Schedulers.Scheduler.ScheduleSJF: requires every burst below INT_MAX.
  The scan never picks a burst of INT_MAX, so the source's loop would not
  end, and such runs are not represented.
- TaskScheduling.TaskScheduler.ScheduleSJF: the same bound on burst times,
  for the same reason.
- TaskScheduling.TaskScheduler.SchedulePriority: requires every priority
  below INT_MAX. A task with priority INT_MAX is never picked, so the loop
  would not end.
- Schedulers.Scheduler.ScheduleSRTF: requires every burst to be positive
  and below INT_MAX. The scan skips jobs with no work and never picks
  INT_MAX, so any other burst keeps the source's loop from ending.
- TaskScheduling.TaskScheduler.ScheduleSRTF: the same bound on remaining
  times, for the same reason.
- Schedulers.Scheduler.ScheduleRR: requires a quantum of at least 1 and
  positive remaining work. A quantum of 0 or less makes no progress, and a
  job with no work is never admitted, so the loop would not end.
- TaskScheduling.TaskScheduler.ScheduleRR: the same requirements, for the
  same reasons.
- TaskScheduling.TaskScheduler.Run: carries the requirement of whichever
  schedule method its policy name selects.
- Schedulers.Scheduler.ScheduleRR: proves waiting time non-negative only for
  records whose remaining work equals their burst. The source derives
  waiting time from `burst_time` but runs `remaining_time`, so a record
  added with less work left can show a negative wait.
- Non-negative arrival times are not required. No proof needs them, because
  a job that arrived before time 0 is eligible from the start.
