/**
 The records the scheduling engine works on: a process request as the
 front end builds it, a row of the results table, and one execution slice
 of the timeline.
 */
module Processes {

  /** A process request: the name "P<pid>", its arrival time, its burst
      (total service) time and its static priority (lower is more urgent;
      only the priority dispatcher reads it). */
  datatype Process = Process(pid: nat, arrival: int, burst: int, priority: int)

  /** The inputs the dispatch loops are written for: no arrival before the
      clock starts at 0 and no empty burst. The source does not check this;
      with an arrival below 0 or a burst of 0 its loops can spin forever. */
  predicate Admissible(ps: seq<Process>) {
    forall i :: 0 <= i < |ps| ==> ps[i].arrival >= 0 && ps[i].burst > 0
  }

  /** Row i of the input form is named "P<i+1>". */
  predicate NumberedInOrder(ps: seq<Process>) {
    forall i :: 0 <= i < |ps| ==> ps[i].pid == i + 1
  }

  /** One line of the results table. */
  datatype Row = Row(proc: Process, completion: int, turnaround: int, waiting: int)

  /** The metrics every dispatcher derives from a completion time:
      turnaround is completion minus arrival, waiting is turnaround minus burst. */
  function MakeRow(p: Process, completion: int): Row {
    var turnaround := completion - p.arrival;
    Row(p, completion, turnaround, turnaround - p.burst)
  }

  /** The requests of a results table, in table order. */
  function Procs(rows: seq<Row>): (r: seq<Process>)
    ensures |r| == |rows|
    ensures forall k :: 0 <= k < |rows| ==> r[k] == rows[k].proc
  {
    seq(|rows|, k requires 0 <= k < |rows| => rows[k].proc)
  }

  /** Process number `index` (a position in the list the dispatcher scans)
      holds the CPU from `start` to `end`. */
  datatype Slice = Slice(index: nat, start: int, end: int)
}
