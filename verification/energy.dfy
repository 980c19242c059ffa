/**
 The energy-aware FCFS variant (`EnergyEfficientScheduling.py`). The
 requests are stable-sorted by (arrival, burst) and run back to back in that
 order: each starts at the later of the clock and its arrival, and the clock
 becomes its completion time. Waiting, turnaround and completion times go
 into maps keyed by process number, and every request adds its burst times
 1.5 times a DVFS factor (0.8 for bursts above 5, 1.2 otherwise) to the
 energy total.
 */
module Energy {
  import opened Sorting
  import opened Processes
  import opened Orders
  import Fcfs

  /** `self.processes.sort(key=lambda x: (x[1], x[2]))`. */
  function EnergyOrder(ps: seq<Process>): (sp: seq<Process>)
    ensures |sp| == |ps| && multiset(sp) == multiset(ps)
    ensures forall a, b :: 0 <= a < b < |sp| ==>
              sp[a].arrival < sp[b].arrival || (sp[a].arrival == sp[b].arrival && sp[a].burst <= sp[b].burst)
  {
    var sp := SortBy(ByArrivalThenBurst, ps);
    assert forall a, b :: 0 <= a < b < |sp| ==> !KeyLess(KeyOf(ByArrivalThenBurst, sp[b]), KeyOf(ByArrivalThenBurst, sp[a]));
    sp
  }

  /** Among simultaneous arrivals the shorter burst runs first; requests
      equal in both keep their input (P1, P2, ...) order. */
  lemma EnergyTieBreak(ps: seq<Process>)
    requires NumberedInOrder(ps)
    ensures var sp := EnergyOrder(ps);
            forall a, b :: 0 <= a < b < |sp| ==>
              || sp[a].arrival < sp[b].arrival
              || (sp[a].arrival == sp[b].arrival && sp[a].burst < sp[b].burst)
              || (sp[a].arrival == sp[b].arrival && sp[a].burst == sp[b].burst && sp[a].pid < sp[b].pid)
  {
    SortByStable(ByArrivalThenBurst, ps);
  }

  /** The loop variables of `calculate_scheduling`. */
  datatype EnergyState = EnergyState(
    time: int,
    waiting: map<nat, int>,
    turnaround: map<nat, int>,
    completion: map<nat, int>,
    energy: real)

  /** `base_energy_unit`: energy per unit of burst before scaling. */
  const BaseEnergyUnit: real := 1.5

  /** The DVFS scaling factor; the threshold is strict. */
  function Factor(burst: int): real {
    if burst > 5 then 0.8 else 1.2
  }

  /** The energy one request adds: 1.2 per unit of a burst above 5 and 1.8
      per unit otherwise, that is 12 or 18 tenths. */
  function JobEnergy(burst: int): (e: real)
    ensures e == Tenths(burst) as real / 10.0
  {
    burst as real * (BaseEnergyUnit * Factor(burst))
  }

  /** The same energy in integer tenths of a unit. */
  function Tenths(burst: int): int {
    if burst > 5 then 12 * burst else 18 * burst
  }

  /** One iteration of the loop over the sorted requests. */
  function Step(st: EnergyState, p: Process): EnergyState {
    var start := Fcfs.Max(st.time, p.arrival);
    var waiting := start - p.arrival;
    var turnaround := waiting + p.burst;
    var completion := start + p.burst;
    EnergyState(
      completion,
      st.waiting[p.pid := waiting],
      st.turnaround[p.pid := turnaround],
      st.completion[p.pid := completion],
      st.energy + JobEnergy(p.burst))
  }

  /** The state after the first n requests of `sp`. */
  function RunPrefix(sp: seq<Process>, n: nat): EnergyState
    requires n <= |sp|
  {
    if n == 0 then EnergyState(0, map[], map[], map[], 0.0)
    else Step(RunPrefix(sp, n - 1), sp[n - 1])
  }

  /** Process numbers are pairwise different. */
  predicate DistinctPids(sp: seq<Process>) {
    forall a, b :: 0 <= a < b < |sp| ==> sp[a].pid != sp[b].pid
  }

  /** The process numbers among the first n requests. */
  function PidsOf(sp: seq<Process>, n: nat): set<nat>
    requires n <= |sp|
  {
    set a | 0 <= a < n :: sp[a].pid
  }

  /** The energy of a list of requests in tenths, summed from the back. */
  function TenthsSum(ps: seq<Process>): int {
    if ps == [] then 0 else TenthsSum(ps[..|ps| - 1]) + Tenths(ps[|ps| - 1].burst)
  }

  /** Sum of the bursts. */
  function BurstSum(ps: seq<Process>): int {
    if ps == [] then 0 else BurstSum(ps[..|ps| - 1]) + ps[|ps| - 1].burst
  }

  /** The clock after n requests is the FCFS completion time of the n-th:
      with no arrival before 0, starting the clock at 0 changes nothing. */
  lemma {:induction false} ClockIsCompletion(sp: seq<Process>, n: nat)
    requires Admissible(sp) && 0 < n <= |sp|
    ensures RunPrefix(sp, n).time == Fcfs.Completion(sp, n - 1)
  {
    if n > 1 {
      ClockIsCompletion(sp, n - 1);
    }
  }

  /** The clock never goes below 0. */
  lemma {:induction false} ClockNonNegative(sp: seq<Process>, n: nat)
    requires Admissible(sp) && n <= |sp|
    ensures RunPrefix(sp, n).time >= 0
  {
    if n > 0 {
      ClockNonNegative(sp, n - 1);
    }
  }

  /** After n requests, each map has exactly one entry per process number
      seen so far. */
  lemma {:induction false} MapKeys(sp: seq<Process>, n: nat)
    requires n <= |sp|
    ensures var st := RunPrefix(sp, n);
            && st.waiting.Keys == PidsOf(sp, n)
            && st.turnaround.Keys == PidsOf(sp, n)
            && st.completion.Keys == PidsOf(sp, n)
  {
    if n > 0 {
      MapKeys(sp, n - 1);
      assert PidsOf(sp, n) == PidsOf(sp, n - 1) + {sp[n - 1].pid};
    }
  }

  /** The maps hold an entry for request p whose turnaround is completion
      minus arrival and whose waiting is turnaround minus burst. */
  predicate Recorded(st: EnergyState, p: Process) {
    && p.pid in st.completion && p.pid in st.turnaround && p.pid in st.waiting
    && st.turnaround[p.pid] == st.completion[p.pid] - p.arrival
    && st.waiting[p.pid] == st.turnaround[p.pid] - p.burst
  }

  /** A step records the request it runs, finishing at the later of the
      clock and its arrival plus its burst. */
  lemma StepRecords(st: EnergyState, p: Process)
    ensures Recorded(Step(st, p), p)
    ensures Step(st, p).completion[p.pid] == Fcfs.Max(st.time, p.arrival) + p.burst
  {
  }

  /** A step leaves the entries of other process numbers alone. */
  lemma StepKeeps(st: EnergyState, p: Process, q: Process)
    requires Recorded(st, q) && q.pid != p.pid
    ensures Recorded(Step(st, p), q)
    ensures Step(st, p).completion[q.pid] == st.completion[q.pid]
  {
  }

  /** After n requests, the entry of each request seen so far holds its
      own metrics. */
  lemma {:induction false} MapValues(sp: seq<Process>, n: nat)
    requires DistinctPids(sp) && n <= |sp|
    ensures forall a :: 0 <= a < n ==> Recorded(RunPrefix(sp, n), sp[a])
  {
    if n > 0 {
      MapValues(sp, n - 1);
      var st := RunPrefix(sp, n - 1);
      StepRecords(st, sp[n - 1]);
      forall a | 0 <= a < n - 1
        ensures Recorded(Step(st, sp[n - 1]), sp[a])
      {
        StepKeeps(st, sp[n - 1], sp[a]);
      }
    }
  }

  /** After n requests, the completion time recorded for each of them is
      its FCFS completion time. */
  lemma {:induction false} MapCompletion(sp: seq<Process>, n: nat, a: nat)
    requires Admissible(sp) && DistinctPids(sp) && a < n <= |sp|
    ensures sp[a].pid in RunPrefix(sp, n).completion
    ensures RunPrefix(sp, n).completion[sp[a].pid] == Fcfs.Completion(sp, a)
  {
    var st := RunPrefix(sp, n - 1);
    StepRecords(st, sp[n - 1]);
    if a == n - 1 {
      if n > 1 {
        ClockIsCompletion(sp, n - 1);
      }
    } else {
      MapCompletion(sp, n - 1, a);
      MapValues(sp, n - 1);
      StepKeeps(st, sp[n - 1], sp[a]);
    }
  }

  /** The energy after n requests is the sum of their tenths. */
  lemma {:induction false} EnergyIsTenths(sp: seq<Process>, n: nat)
    requires n <= |sp|
    ensures RunPrefix(sp, n).energy == TenthsSum(sp[..n]) as real / 10.0
  {
    if n > 0 {
      EnergyIsTenths(sp, n - 1);
      assert sp[..n][..n - 1] == sp[..n - 1];
    }
  }

  /** Removing one request from a list removes its share of the energy. */
  lemma {:induction false} TenthsSumRemove(s: seq<Process>, j: nat)
    requires j < |s|
    ensures TenthsSum(s) == TenthsSum(s[..j] + s[j + 1..]) + Tenths(s[j].burst)
  {
    var t := s[..j] + s[j + 1..];
    if j < |s| - 1 {
      var init := s[..|s| - 1];
      TenthsSumRemove(init, j);
      assert t[..|t| - 1] == init[..j] + init[j + 1..];
      assert t[|t| - 1] == s[|s| - 1];
    } else {
      assert t == s[..|s| - 1];
    }
  }

  /** The energy total does not depend on the order the requests run in. */
  lemma {:induction false} TenthsSumPermutation(a: seq<Process>, b: seq<Process>)
    requires multiset(a) == multiset(b)
    ensures TenthsSum(a) == TenthsSum(b)
    decreases |a|
  {
    if a != [] {
      var x := a[|a| - 1];
      var init := a[..|a| - 1];
      assert a == init + [x];
      assert x in multiset(b);
      var j :| 0 <= j < |b| && b[j] == x;
      var rest := b[..j] + b[j + 1..];
      assert b == b[..j] + [x] + b[j + 1..];
      assert multiset(init) == multiset(a) - multiset{x};
      assert multiset(rest) == multiset(b) - multiset{x};
      TenthsSumPermutation(init, rest);
      TenthsSumRemove(b, j);
    } else {
      assert |b| == |multiset(b)| == 0;
    }
  }

  /** Every unit of burst costs between 12 and 18 tenths. */
  lemma {:induction false} TenthsBounds(ps: seq<Process>)
    requires Admissible(ps)
    ensures 12 * BurstSum(ps) <= TenthsSum(ps) <= 18 * BurstSum(ps)
  {
    if ps != [] {
      TenthsBounds(ps[..|ps| - 1]);
    }
  }

  /** The sorted list numbers the same requests as the input. */
  lemma SortedPids(ps: seq<Process>)
    ensures PidsOf(EnergyOrder(ps), |ps|) == (set p | p in ps :: p.pid)
  {
    var sp := EnergyOrder(ps);
    var pids := set p | p in ps :: p.pid;
    forall x | x in pids
      ensures x in PidsOf(sp, |sp|)
    {
      var p :| p in ps && p.pid == x;
      assert p in multiset(sp);
      var a :| 0 <= a < |sp| && sp[a] == p;
    }
    forall x | x in PidsOf(sp, |sp|)
      ensures x in pids
    {
      var a :| 0 <= a < |sp| && sp[a].pid == x;
      assert sp[a] in multiset(ps);
    }
  }

  lemma ScheduleKeys(ps: seq<Process>)
    ensures var st := RunPrefix(EnergyOrder(ps), |ps|);
            st.completion.Keys == st.waiting.Keys == st.turnaround.Keys == (set p | p in ps :: p.pid)
  {
    MapKeys(EnergyOrder(ps), |ps|);
    SortedPids(ps);
  }

  /** The maps after the whole loop: every request of the input list has
      consistent entries with a waiting time that is never negative; the
      first sorted request starts at its arrival and each later one at the
      later of its arrival and the previous request's completion. */
  lemma ScheduleValues(ps: seq<Process>)
    requires Admissible(ps) && DistinctPids(ps)
    ensures var st := RunPrefix(EnergyOrder(ps), |ps|);
            forall p :: p in ps ==> Recorded(st, p) && st.waiting[p.pid] >= 0
    ensures var sp := EnergyOrder(ps);
            var st := RunPrefix(sp, |sp|);
            && (forall a :: 0 <= a < |sp| ==> sp[a].pid in st.completion)
            && (|sp| > 0 ==> st.completion[sp[0].pid] - sp[0].burst == sp[0].arrival)
            && (forall a, b :: 0 <= a < b < |sp| && b == a + 1 ==>
                  st.completion[sp[b].pid] - sp[b].burst == Fcfs.Max(st.completion[sp[a].pid], sp[b].arrival))
  {
    var sp := EnergyOrder(ps);
    OrderKeepsRequests(ps);
    InputRecorded(ps, sp);
    RunStarts(sp);
  }

  /** Every request of the input list has consistent entries after running
      any reordering of it. */
  lemma InputRecorded(ps: seq<Process>, sp: seq<Process>)
    requires multiset(sp) == multiset(ps) && Admissible(sp) && DistinctPids(sp)
    ensures var st := RunPrefix(sp, |sp|);
            forall p :: p in ps ==> Recorded(st, p) && st.waiting[p.pid] >= 0
  {
    var st := RunPrefix(sp, |sp|);
    MapValues(sp, |sp|);
    forall p | p in ps
      ensures Recorded(st, p) && st.waiting[p.pid] >= 0
    {
      assert p in multiset(sp);
      var a :| 0 <= a < |sp| && sp[a] == p;
      MapCompletion(sp, |sp|, a);
    }
  }

  /** Tenths of a unit, read as a real amount. */
  lemma TenthsAsReal(t: int, b: int)
    requires 12 * b <= t <= 18 * b
    ensures 1.2 * b as real <= t as real / 10.0 <= 1.8 * b as real
  {
    assert 12.0 * b as real <= t as real <= 18.0 * b as real;
  }

  /** The energy after the whole loop, stated over the input list. */
  lemma ScheduleEnergy(ps: seq<Process>)
    requires Admissible(ps)
    ensures var st := RunPrefix(EnergyOrder(ps), |ps|);
            && st.energy == TenthsSum(ps) as real / 10.0
            && 1.2 * BurstSum(ps) as real <= st.energy <= 1.8 * BurstSum(ps) as real
  {
    RunEnergy(EnergyOrder(ps), ps);
  }

  /** The energy after running any reordering of the requests. */
  lemma RunEnergy(sp: seq<Process>, ps: seq<Process>)
    requires multiset(sp) == multiset(ps) && Admissible(ps)
    ensures var st := RunPrefix(sp, |sp|);
            && st.energy == TenthsSum(ps) as real / 10.0
            && 1.2 * BurstSum(ps) as real <= st.energy <= 1.8 * BurstSum(ps) as real
  {
    EnergyIsTenths(sp, |sp|);
    assert sp[..|sp|] == sp;
    TenthsSumPermutation(sp, ps);
    TenthsBounds(ps);
    TenthsAsReal(TenthsSum(ps), BurstSum(ps));
  }

  /** `calculate_scheduling` after the sort: the state the loop ends in.
      Each map has one entry per process number, holding that request's
      metrics, with waiting never negative; the energy is the sum of the
      requests' shares whatever order they ran in, between 1.2 and 1.8 per
      unit of burst. */
  function CalculateScheduling(ps: seq<Process>): (st: EnergyState)
    requires Admissible(ps) && DistinctPids(ps)
    ensures st.completion.Keys == st.waiting.Keys == st.turnaround.Keys == (set p | p in ps :: p.pid)
    ensures forall p :: p in ps ==> Recorded(st, p) && st.waiting[p.pid] >= 0
    ensures st.energy == TenthsSum(ps) as real / 10.0
    ensures 1.2 * BurstSum(ps) as real <= st.energy <= 1.8 * BurstSum(ps) as real
  {
    ScheduleKeys(ps);
    ScheduleValues(ps);
    ScheduleEnergy(ps);
    RunPrefix(EnergyOrder(ps), |ps|)
  }

  /** Sorting keeps the requests admissible with distinct numbers. */
  lemma OrderKeepsRequests(ps: seq<Process>)
    requires Admissible(ps) && DistinctPids(ps)
    ensures Admissible(EnergyOrder(ps)) && DistinctPids(EnergyOrder(ps))
  {
    var sp := EnergyOrder(ps);
    var o := OrderOf(ByArrivalThenBurst, ps);
    SortByAdmissible(ByArrivalThenBurst, ps);
    assert forall a :: 0 <= a < |sp| ==> sp[a] == ps[o[a]];
    forall a, b | 0 <= a < b < |sp|
      ensures sp[a].pid != sp[b].pid
    {
      assert o[a] != o[b];
      if o[a] < o[b] {
        assert ps[o[a]].pid != ps[o[b]].pid;
      } else {
        assert ps[o[b]].pid != ps[o[a]].pid;
      }
    }
  }

  /** Each request starts at the later of its arrival and the previous
      request's completion; the first starts at its arrival. */
  lemma RunStarts(sp: seq<Process>)
    requires Admissible(sp) && DistinctPids(sp)
    ensures var st := RunPrefix(sp, |sp|);
            && (forall a :: 0 <= a < |sp| ==> sp[a].pid in st.completion)
            && (|sp| > 0 ==> st.completion[sp[0].pid] - sp[0].burst == sp[0].arrival)
            && (forall a, b :: 0 <= a < b < |sp| && b == a + 1 ==>
                  st.completion[sp[b].pid] - sp[b].burst == Fcfs.Max(st.completion[sp[a].pid], sp[b].arrival))
  {
    var st := RunPrefix(sp, |sp|);
    MapValues(sp, |sp|);
    if |sp| > 0 {
      MapCompletion(sp, |sp|, 0);
    }
    forall a, b | 0 <= a < b < |sp| && b == a + 1
      ensures st.completion[sp[b].pid] - sp[b].burst == Fcfs.Max(st.completion[sp[a].pid], sp[b].arrival)
    {
      MapCompletion(sp, |sp|, a);
      MapCompletion(sp, |sp|, b);
    }
  }

  /** No two runs overlap: each ends before the next one starts. */
  lemma RunsApart(sp: seq<Process>)
    requires Admissible(sp) && DistinctPids(sp)
    ensures var st := RunPrefix(sp, |sp|);
            forall a, b :: 0 <= a < b < |sp| ==>
              && sp[a].pid in st.completion && sp[b].pid in st.completion
              && st.completion[sp[a].pid] <= st.completion[sp[b].pid] - sp[b].burst
  {
    var st := RunPrefix(sp, |sp|);
    forall a, b | 0 <= a < b < |sp|
      ensures && sp[a].pid in st.completion && sp[b].pid in st.completion
              && st.completion[sp[a].pid] <= st.completion[sp[b].pid] - sp[b].burst
    {
      MapCompletion(sp, |sp|, a);
      MapCompletion(sp, |sp|, b);
      MapCompletion(sp, |sp|, b - 1);
      if a < b - 1 {
        Fcfs.CompletionIncreasing(sp, a, b - 1);
      }
    }
  }

  /** The energy-aware run on its sorted list: each request starts at the
      later of its arrival and the previous completion, and runs follow one
      another without overlap. */
  lemma EnergyTimeline(ps: seq<Process>)
    requires Admissible(ps) && DistinctPids(ps)
    ensures forall a :: 0 <= a < |ps| ==> EnergyOrder(ps)[a].pid in CalculateScheduling(ps).completion
    ensures var sp, c := EnergyOrder(ps), CalculateScheduling(ps).completion;
            |sp| > 0 ==> c[sp[0].pid] - sp[0].burst == sp[0].arrival
    ensures var sp, c := EnergyOrder(ps), CalculateScheduling(ps).completion;
            forall a, b :: 0 <= a < b < |sp| && b == a + 1 ==>
              c[sp[b].pid] - sp[b].burst == Fcfs.Max(c[sp[a].pid], sp[b].arrival)
    ensures var sp, c := EnergyOrder(ps), CalculateScheduling(ps).completion;
            forall a, b :: 0 <= a < b < |sp| ==> c[sp[a].pid] <= c[sp[b].pid] - sp[b].burst
  {
    OrderKeepsRequests(ps);
    RunTimeline(EnergyOrder(ps));
  }

  /** `RunStarts` and `RunsApart` together. */
  lemma RunTimeline(sp: seq<Process>)
    requires Admissible(sp) && DistinctPids(sp)
    ensures var st := RunPrefix(sp, |sp|);
            && (forall a :: 0 <= a < |sp| ==> sp[a].pid in st.completion)
            && (|sp| > 0 ==> st.completion[sp[0].pid] - sp[0].burst == sp[0].arrival)
            && (forall a, b :: 0 <= a < b < |sp| && b == a + 1 ==>
                  st.completion[sp[b].pid] - sp[b].burst == Fcfs.Max(st.completion[sp[a].pid], sp[b].arrival))
            && (forall a, b :: 0 <= a < b < |sp| ==>
                  && sp[a].pid in st.completion && sp[b].pid in st.completion
                  && st.completion[sp[a].pid] <= st.completion[sp[b].pid] - sp[b].burst)
  {
    RunStarts(sp);
    RunsApart(sp);
  }
}
