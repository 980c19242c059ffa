# CPU scheduling simulator: a Dafny model

This project models the scheduling engine of a small CPU-scheduling simulator.
The simulator takes a list of processes and computes, for each one, its
completion, turnaround and waiting time. Each process has a name `P<k>`, an
arrival time, a burst time and a priority. The engine offers five policies:

- **FCFS** (first come, first served). Sort by arrival, then run each process
  in that order.
- **SJF** (non-preemptive shortest job first). Keep a ready list of arrived,
  unfinished processes and run the one with the least remaining time.
- **Priority** (non-preemptive). Run the arrived, unfinished process with the
  smallest priority value, scanning a list pre-sorted by (priority, arrival).
- **Round Robin** with a time quantum. A FIFO queue in which each turn runs
  for at most one quantum. New arrivals are enqueued before the preempted
  process.
- **Energy-efficient scheduling**. FCFS order by (arrival, burst), and an
  energy figure of 1.5 × 0.8 per time unit for bursts above 5 and
  1.5 × 1.2 otherwise.

Each policy is a pure function over immutable state. Each `while` loop of the
source becomes a recursive step function. Its decreasing measure is the number
of unfinished processes, or the total remaining work for Round Robin, together
with the distance to the last arrival. Python's `sort` is stable. It is
modelled as the unique permutation of positions that is ordered by (key,
original position), and `Orders.SortByIs` proves that any such ordering is the
sort's result.

Modules, one per file:

- `Sorting`: the stable sort and its uniqueness.
- `Processes`: the process, result-row and slice records.
- `Orders`: the sort keys used by the simulator.
- `Dispatch`: state shared by the policies, namely eligibility, the admission
  scan, idle gaps and arrivals.
- `Report`: the per-row formulas and the reorder by process number.
- `Fcfs`, `Sjf`, `PriorityScheduling`, `RoundRobin` and `Energy`: the policies.
- `Simulator`: the `run_simulation` dispatcher.
- `Scenarios` and `RoundRobinTrace`: worked examples proved about the
  general definitions.

### Behaviour worth noting

- **Idle time.** When nothing is ready, SJF, Priority and Round Robin advance
  the clock by one tick at a time. They do not jump to the next arrival.
  `Sjf.SjfIdleGap` and `PriorityScheduling.PriorityIdleGap` prove that the
  ticks end exactly at the earliest pending arrival and that the run gives
  the same result as a jump there. For Round Robin, `RoundRobin.IdleUntilIsJump`
  proves that the ticks end in the state a jump would reach (clock at the
  earliest pending arrival, those arrivals queued and stamped), and
  `RoundRobin.RrIdleJump` proves that the run from there is the same.
- **FCFS row order.** The FCFS table is shown in arrival order. Only SJF,
  Priority and Round Robin sort their rows back by process number.
- **Input checks.** The code does not reject a non-positive burst or a
  negative arrival. The model takes `Processes.Admissible` as a precondition
  instead of modelling an error for it.
- **Energy.** Energy is summed per process. Each process runs in one piece,
  so this is the same as summing per execution interval.

## Model

| member | source | states |
|---|---|---|
| Orders.SortBy | Simulator.py:123 | The sorted list is a permutation of the input in which no entry's key is below an earlier entry's key. |
| Orders.SortByStable | Simulator.py:171 | Stability. Entries with equal keys keep their input order, which is ascending process number. |
| Orders.SortByIs | Simulator.py:119 | Any stably sorted permutation of positions gives exactly the sort's result, so the sort is fully determined. |
| Orders.SortTwice | Simulator.py:123 | Sorting an already sorted list changes nothing. |
| Orders.SortByInjective | Simulator.py:160 | Two positions of the sorted list that hold the same process are the same position. |
| Fcfs.ArrivalOrder | Simulator.py:119 | FCFS order is a permutation of the input with non-decreasing arrival. |
| Fcfs.FcfsTieBreak | Simulator.py:119 | Equal arrivals keep ascending process-number order. |
| Fcfs.CompletionIncreasing | Simulator.py:294-296 | Completion times strictly increase along the FCFS order when bursts are positive. |
| Fcfs.RunInOrderTimeline | Simulator.py:294-300 | The first process starts at its arrival. Each later one starts at the later of the previous completion and its own arrival. Turnaround is completion − arrival, waiting is turnaround − burst, and waiting is never negative. |
| Fcfs.FcfsTimeline | Simulator.py:118-120 | On any non-empty input with arrivals ≥ 0 and bursts > 0, the FCFS table satisfies the turnaround and waiting formulas, waiting is never negative, and completions strictly increase. |
| Fcfs.FcfsTableSorted | Simulator.py:119 | An input already in arrival order is run as given. |
| Report.ReorderByPid | Simulator.py:160-161 | The reordered rows are the old rows permuted, in non-decreasing process number. |
| Report.ReorderRestoresInputOrder | Simulator.py:160-161 | When the rows are a permutation of the numbered input, reordering puts the row about process j at position j. |
| Report.ReorderKeeps | Simulator.py:160-161 | Reordering keeps each row's formulas and keeps runs from overlapping. |
| Dispatch.Admit | Simulator.py:135-137 | The admission scan keeps the ready list as a prefix. It appends, in ascending index order, exactly the wanted indices not already present, and creates no duplicate. |
| Dispatch.AdmitAppends | Simulator.py:135-137 | Starting from index 0, the appended part is exactly the wanted indices not yet in the list. |
| Dispatch.RunToCompletion | Simulator.py:148-153 | Running an eligible process to completion keeps the run invariant and finishes exactly one more process. |
| Dispatch.FinishedRowsFit | Simulator.py:150-152 | Once every process is finished, each row satisfies the formulas with waiting ≥ 0, and no two runs overlap. |
| Dispatch.NextArrivalAhead | Simulator.py:139-141 | When nothing is eligible but work remains, the earliest pending arrival is later than the clock, and something is eligible at that time. |
| Dispatch.BeforeNextArrival | Simulator.py:139-141 | Before the earliest pending arrival, nothing is eligible. |
| Dispatch.Arrivals | Simulator.py:257-260 | The arrivals in a time window form an ascending index list containing exactly the processes whose arrival falls in that window. |
| Sjf.Admitted | Simulator.py:135-137 | After the scan, the ready list holds every eligible process exactly once. Earlier entries stay first and new ones follow in index order. |
| Sjf.ByRemainingSorted | Simulator.py:144 | The re-sorted ready list has the same members, without duplicates, in non-decreasing remaining time. |
| Sjf.HeadIsLeast | Simulator.py:143-145 | When some process is eligible, the ready list is non-empty, and the popped process is eligible and has the least remaining time of all eligible processes. Every process ahead of it in the ready list has strictly more remaining time. |
| Sjf.SjfRunsLeast | Simulator.py:143-153 | If one eligible process has strictly the least remaining time, that process runs next and the clock advances by its burst. |
| Sjf.SjfIdles | Simulator.py:139-141 | If nothing is eligible, the step is exactly a one-unit clock tick. |
| Sjf.SjfIdleGap | Simulator.py:139-141 | An idle stretch ends exactly at the earliest pending arrival and does not change the final result. |
| Sjf.SjfStep | Simulator.py:133-153 | Each iteration keeps the invariant. It either finishes one more process or ticks the clock while some arrival is still ahead, so the loop terminates. |
| Sjf.SjfRun | Simulator.py:133-153 | The loop ends with every process finished and the invariant intact. |
| Sjf.SjfTable | Simulator.py:122-161 | Row j is about input process j, the formulas hold with waiting ≥ 0, and no two runs overlap. |
| Sjf.SjfTableAt | Simulator.py:149-161 | Row j of the table is the loop's row for the position that process j took in the (arrival, burst) order, and its completion time is the one the loop recorded there. |
| PriorityScheduling.Select | Simulator.py:183-187 | The selection is empty exactly when nothing is eligible. Otherwise the selected process is eligible and has the smallest priority value. Every eligible process earlier in the list has a strictly larger value, because the comparison is strict. |
| PriorityScheduling.SelectFirstEligible | Simulator.py:184-187 | On the list sorted by (priority, arrival), the selected process is the first eligible one. |
| PriorityScheduling.SelectTieBreak | Simulator.py:171 | The selected process beats every other eligible one on priority, then on arrival, then on process number. |
| PriorityScheduling.PriorityStep | Simulator.py:181-203 | With no selection, the clock ticks once and an arrival is still ahead. Otherwise the selected process runs to completion and the clock advances by its burst. |
| PriorityScheduling.PriorityRun | Simulator.py:181-203 | The loop ends with every process finished and the invariant intact. |
| PriorityScheduling.PriorityIdleGap | Simulator.py:189-192 | An idle stretch ends exactly at the earliest pending arrival, where a selection exists, and does not change the final result. |
| PriorityScheduling.PriorityTable | Simulator.py:169-212 | Row j is about input process j, the formulas hold with waiting ≥ 0, and no two runs overlap. |
| PriorityScheduling.PriorityTableAt | Simulator.py:210-212 | Row j of the table is the run's row for the position that process j took in the sorted list. |
| RoundRobin.RrStart | Simulator.py:231-237 | The first queue is the ascending list of processes arriving at time 0, and the invariant holds. |
| RoundRobin.RrIdle | Simulator.py:240-247 | An idle turn advances the clock by exactly 1 and leaves remaining work, completions and the log unchanged. It enqueues, in index order, exactly the processes arriving at the new time. |
| RoundRobin.RrIdleGap | Simulator.py:240-247 | The clock is below the earliest pending arrival. An idle turn fills the queue exactly when it reaches that arrival. |
| RoundRobin.IdleUntil | Simulator.py:240-247 | Repeating idle turns until something is queued keeps the loop invariant and ends with a non-empty queue. |
| RoundRobin.IdleUntilIsJump | Simulator.py:240-247 | The repeated idle turns stop at the earliest pending arrival, in exactly the state a single jump there would produce: those arrivals queued in index order and stamped with that time. |
| RoundRobin.RrIdleJump | Simulator.py:228-284 | The whole Round Robin run from an idle state gives the same result as the run from the state at the end of the idle stretch. |
| RoundRobin.RunSlice | Simulator.py:249-254 | A turn runs the head process for min(quantum, remaining), which is between 1 and the quantum. Remaining time never goes negative, and the slice is logged. |
| RoundRobin.RunQueueOrder | Simulator.py:256-268 | The new queue is the rest of the old queue, then the new arrivals in index order, then the preempted process if it still has work. A finished process gets completion = clock and is not re-queued. |
| RoundRobin.RunStep | Simulator.py:249-268 | The whole effect of a busy loop iteration on the clock, remaining work, log, queue and completions. |
| RoundRobin.RrStep | Simulator.py:239-268 | Each iteration keeps the invariant: no index queued twice, every eligible process queued, and a consistent log. Each iteration either reduces the total remaining work or ticks the clock before the last arrival. |
| RoundRobin.RrLoop | Simulator.py:239-268 | The loop ends with every process finished and the invariant intact. |
| RoundRobin.FinishedTotals | Simulator.py:262-266 | At the end, each process's slices add up to its burst, and its completion is at least arrival + burst. |
| RoundRobin.RrSchedule | Simulator.py:220-268 | Slices add up to bursts. Every slice starts after its process arrives and ends by its completion. Each completion is the end of one of its slices, and slices do not overlap. |
| RoundRobin.RrTable | Simulator.py:220-276 | Row j is about input process j, holds the schedule's completion time, and satisfies the formulas with waiting ≥ 0. |
| Energy.EnergyOrder | EnergyEfficientScheduling.py:59 | The order is a permutation ordered by arrival, then burst. |
| Energy.EnergyTieBreak | EnergyEfficientScheduling.py:59 | Full ties on arrival and burst keep ascending process number. |
| Energy.ClockIsCompletion | EnergyEfficientScheduling.py:72-85 | After n processes, the clock equals the FCFS completion time of the n-th. |
| Energy.MapCompletion | EnergyEfficientScheduling.py:78-80 | The completion recorded for a process is its FCFS completion time. |
| Energy.ScheduleKeys | EnergyEfficientScheduling.py:78-80 | The three maps each have exactly one key per process number. |
| Energy.ScheduleValues | EnergyEfficientScheduling.py:73-80 | For each input process, turnaround = completion − arrival and waiting = turnaround − burst ≥ 0. In sorted order the first process starts (completion − burst) at its arrival and each later one at max(previous completion, arrival). |
| Energy.InputRecorded | EnergyEfficientScheduling.py:78-80 | After the loop over any reordering of the input, every input process has consistent map entries and a non-negative waiting time. |
| Energy.TenthsSumPermutation | EnergyEfficientScheduling.py:82-83 | Total energy does not depend on the order of the processes. |
| Energy.TenthsBounds | EnergyEfficientScheduling.py:82-83 | Total energy lies between 1.2 and 1.8 times the sum of the bursts. |
| Energy.ScheduleEnergy | EnergyEfficientScheduling.py:67-83 | The accumulated energy is the order-independent per-process sum, between 1.2 Σburst and 1.8 Σburst. |
| Energy.RunsApart | EnergyEfficientScheduling.py:72-85 | A process never starts before the previous one completes. |
| Energy.EnergyTimeline | EnergyEfficientScheduling.py:59-85 | In sorted order, the first process starts at its arrival and each later one at max(previous completion, arrival). No two runs overlap. |
| Energy.CalculateScheduling | EnergyEfficientScheduling.py:63-86 | The maps have one key per process, with formula-consistent values and waiting ≥ 0. Energy is the order-independent sum, bounded by 1.2 Σburst and 1.8 Σburst. |
| Simulator.Requests | Simulator.py:95-99 | Process k carries the k-th arrival and burst. Its priority is the entered one only under the Priority policy and 0 otherwise. The inputs are admissible exactly when the processes are. |
| Simulator.PriorityIgnored | Simulator.py:97 | Under any policy except Priority, the entered priorities do not affect the processes built. |
| Simulator.OutcomeIgnoresPriority | Simulator.py:97-113 | Under FCFS, SJF and Round Robin, changing only the priorities leaves the outcome unchanged. |
| Simulator.Simulate | Simulator.py:93-116 | The run fails, with "Time quantum must be positive.", exactly when Round Robin gets a quantum ≤ 0. Otherwise the table is a permutation of the processes with correct formulas. FCFS lists it in non-decreasing arrival order, and every other policy lists it in input order. |
| Scenarios.FcfsThree | Simulator.py:286-302 | P1(0,5), P2(1,3), P3(2,1) under FCFS complete at 5, 8, 9 with waiting 0, 4, 6. |
| Scenarios.SjfThree | Simulator.py:122-153 | The same input under SJF runs P3 before P2, so it completes at 5, 9, 6 with waiting 0, 5, 3. |
| Scenarios.TieRun | Simulator.py:181-203 | P1(0,3,prio 2), P2(1,2,prio 1), P3(1,1,prio 1) are sorted P2, P3, P1 (priority, then arrival). P1 runs over [0,3), P2 over [3,5) and P3 over [5,6), so the completions in sorted order are 5, 6, 3. |
| Scenarios.TieTable | Simulator.py:169-212 | The equal-priority tie at equal arrival goes to the lower process number. The completions are 3, 5, 6 and waiting is 0, 2, 4. |
| RoundRobinTrace.Trace | Simulator.py:239-268 | With quantum 2, P1(0,4), P2(1,3), P3(2,2) run as P1[0,2], P2[2,4], P3[4,6], P1[6,8], P2[8,9] and complete at 8, 9, 6. |
| RoundRobinTrace.TraceTable | Simulator.py:220-276 | The reported rows for that trace are completion 8, 9, 6; turnaround 8, 8, 4; and waiting 4, 5, 2. |

## Left out

- The GUI is not modelled. This covers the Tk widgets, the form, text parsing (`int(...)` errors), message boxes, the results table and the Gantt charts.
- Average waiting and turnaround times (floating-point means shown with two decimals) are not computed. The model also does not model the division by zero on an empty list.
- The `ct - bt` start times passed to the Gantt chart for SJF, Priority and Round Robin are display-only and are left out.
- The `completed` counter is not stored. It always equals the number of processes minus `Dispatch.Unfinished`, the count of processes with remaining work.
- Energy.CalculateScheduling: uses exact real arithmetic, so floating-point rounding in the energy sum is not modelled. The two averages computed by this function are not modelled either.
- Energy.CalculateScheduling: requires distinct process numbers. The source always assigns `i+1`, so they are always distinct.
- Simulator.Simulate: requires arrivals ≥ 0 and bursts > 0. The source does not check these. With any burst ≤ 0 the SJF loop never ends. The Priority loop never ends when some burst is negative or when every burst is 0; a zero burst next to positive ones still lets it finish.
- Simulator.Simulate: requires a non-empty list for FCFS and Priority. On an empty list, FCFS fails with an IndexError at `sorted_processes[0]` and the Priority `while True` never ends. Neither is modelled as an outcome.
- Fcfs.FcfsTable: requires a non-empty list, for the same IndexError reason.
- Fcfs.FcfsTimeline: requires arrivals ≥ 0 and bursts > 0. The source runs zero bursts too, and then two completions can be equal, so "strictly increase" is not claimed there.
- PriorityScheduling.PriorityTable: requires a non-empty list, because the source loop does not terminate otherwise.
- Process names are modelled as their number `k` of `P<k>`. The reorder key `int(name[1:])` is that number.
