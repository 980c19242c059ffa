/**
 `run_simulation`: the front end turns the form into requests "P1".."Pn",
 keeps the entered priorities only for the priority dispatcher (all others
 see 0), rejects a non-positive time quantum for Round Robin, and hands the
 requests to the chosen dispatcher.
 */
module Simulator {
  import opened Processes
  import opened Report
  import Fcfs
  import Sjf
  import PriorityScheduling
  import RoundRobin

  datatype Algorithm = FirstComeFirstServed | ShortestJobFirst | PriorityFirst | RoundRobinQuantum

  /** One row of the input form, already read as integers. */
  datatype Entry = Entry(arrival: int, burst: int, priority: int)

  /** What a run shows: the results table, or the error message box. */
  datatype Outcome = Table(rows: seq<Row>) | Failure(message: string)

  predicate EntriesAdmissible(entries: seq<Entry>) {
    forall i :: 0 <= i < |entries| ==> entries[i].arrival >= 0 && entries[i].burst > 0
  }

  /** `process_data`: row i becomes request number i + 1; the priority
      column counts only when the priority dispatcher is chosen. */
  function Requests(alg: Algorithm, entries: seq<Entry>): (ps: seq<Process>)
    ensures |ps| == |entries| && NumberedInOrder(ps)
    ensures forall i :: 0 <= i < |ps| ==>
              && ps[i].arrival == entries[i].arrival && ps[i].burst == entries[i].burst
              && ps[i].priority == (if alg == PriorityFirst then entries[i].priority else 0)
    ensures EntriesAdmissible(entries) <==> Admissible(ps)
  {
    seq(|entries|, i requires 0 <= i < |entries| =>
      Process(i + 1, entries[i].arrival, entries[i].burst,
              if alg == PriorityFirst then entries[i].priority else 0))
  }

  /** The form rows agree in everything but the priority column. */
  predicate SameButPriority(a: seq<Entry>, b: seq<Entry>) {
    && |a| == |b|
    && forall i :: 0 <= i < |a| ==> a[i].arrival == b[i].arrival && a[i].burst == b[i].burst
  }

  /** The priority column is ignored by every dispatcher but the priority one. */
  lemma PriorityIgnored(alg: Algorithm, a: seq<Entry>, b: seq<Entry>)
    requires alg != PriorityFirst && SameButPriority(a, b)
    ensures Requests(alg, a) == Requests(alg, b)
  {
    var pa := Requests(alg, a);
    var pb := Requests(alg, b);
    assert forall i :: 0 <= i < |pa| ==> pa[i] == pb[i];
  }

  /** The rows every dispatcher shows for requests `ps`: one per request,
      with consistent metrics and waiting never negative; in request order,
      or (FCFS) the same requests in arrival order. */
  predicate TableOk(ps: seq<Process>, rows: seq<Row>, inputOrder: bool) {
    && |rows| == |ps|
    && (forall j :: 0 <= j < |rows| ==> RowFits(rows[j]))
    && multiset(Procs(rows)) == multiset(ps)
    && (inputOrder ==> forall j :: 0 <= j < |rows| ==> rows[j].proc == ps[j])
    && (!inputOrder ==> forall a, b :: 0 <= a < b < |rows| ==>
          rows[a].proc.arrival <= rows[b].proc.arrival)
  }

  lemma InOrderIsPermutation(ps: seq<Process>, rows: seq<Row>)
    requires |rows| == |ps| && forall j :: 0 <= j < |rows| ==> rows[j].proc == ps[j]
    ensures multiset(Procs(rows)) == multiset(ps)
  {
    assert Procs(rows) == ps;
  }

  function FcfsRun(ps: seq<Process>): (rows: seq<Row>)
    requires Admissible(ps) && |ps| > 0
    ensures TableOk(ps, rows, false)
  {
    Fcfs.FcfsTimeline(ps);
    Fcfs.FcfsTable(ps)
  }

  function SjfRun(ps: seq<Process>): (rows: seq<Row>)
    requires Admissible(ps) && NumberedInOrder(ps)
    ensures TableOk(ps, rows, true)
  {
    var rows := Sjf.SjfTable(ps);
    InOrderIsPermutation(ps, rows);
    rows
  }

  function PriorityRun(ps: seq<Process>): (rows: seq<Row>)
    requires Admissible(ps) && NumberedInOrder(ps) && |ps| > 0
    ensures TableOk(ps, rows, true)
  {
    var rows := PriorityScheduling.PriorityTable(ps);
    InOrderIsPermutation(ps, rows);
    rows
  }

  function RrRun(ps: seq<Process>, quantum: int): (rows: seq<Row>)
    requires Admissible(ps) && NumberedInOrder(ps) && quantum > 0
    ensures TableOk(ps, rows, true)
  {
    var rows := RoundRobin.RrTable(ps, quantum);
    InOrderIsPermutation(ps, rows);
    rows
  }

  /** The `if`/`elif` chain of `run_simulation`: hand the requests to the
      chosen dispatcher. */
  function Dispatch(alg: Algorithm, ps: seq<Process>, quantum: int): (rows: seq<Row>)
    requires Admissible(ps) && NumberedInOrder(ps)
    requires alg == FirstComeFirstServed || alg == PriorityFirst ==> |ps| > 0
    requires alg == RoundRobinQuantum ==> quantum > 0
    ensures TableOk(ps, rows, alg != FirstComeFirstServed)
  {
    match alg
    case FirstComeFirstServed => FcfsRun(ps)
    case ShortestJobFirst => SjfRun(ps)
    case PriorityFirst => PriorityRun(ps)
    case RoundRobinQuantum => RrRun(ps, quantum)
  }

  const QuantumError := "Time quantum must be positive."

  /** The run: a Round Robin run with a quantum of 0 or less fails with
      "Time quantum must be positive."; otherwise the chosen dispatcher
      produces one row per request, each with consistent metrics and
      waiting never negative. The FCFS table keeps arrival order; the others
      are in request-number order. FCFS and priority index the first
      request, so they need at least one. */
  function Simulate(alg: Algorithm, entries: seq<Entry>, quantum: int): (out: Outcome)
    requires EntriesAdmissible(entries)
    requires alg == FirstComeFirstServed || alg == PriorityFirst ==> |entries| > 0
    ensures out.Failure? <==> alg == RoundRobinQuantum && quantum <= 0
    ensures out.Failure? ==> out.message == QuantumError
    ensures out.Table? ==> TableOk(Requests(alg, entries), out.rows, alg != FirstComeFirstServed)
  {
    if alg == RoundRobinQuantum && quantum <= 0 then Failure(QuantumError)
    else Table(Dispatch(alg, Requests(alg, entries), quantum))
  }

  /** Only Round Robin reads the quantum field. */
  lemma QuantumIgnored(alg: Algorithm, entries: seq<Entry>, q1: int, q2: int)
    requires EntriesAdmissible(entries)
    requires alg == FirstComeFirstServed || alg == PriorityFirst ==> |entries| > 0
    requires alg != RoundRobinQuantum
    ensures Simulate(alg, entries, q1) == Simulate(alg, entries, q2)
  {
  }

  /** Apart from the priority dispatcher, a run does not depend on the
      priority column. */
  lemma OutcomeIgnoresPriority(alg: Algorithm, a: seq<Entry>, b: seq<Entry>, quantum: int)
    requires EntriesAdmissible(a) && SameButPriority(a, b)
    requires alg == FirstComeFirstServed || alg == ShortestJobFirst || alg == RoundRobinQuantum
    requires alg == FirstComeFirstServed ==> |a| > 0
    ensures EntriesAdmissible(b)
    ensures Simulate(alg, a, quantum) == Simulate(alg, b, quantum)
  {
    PriorityIgnored(alg, a, b);
  }
}
