/**
 First-come-first-served: `fcfs` sorts the requests by arrival time with
 Python's stable sort and `calculate_and_display` runs them back to back in
 that order, each starting once both it has arrived and the previous one has
 finished. The results table stays in arrival order.
 */
module Fcfs {
  import opened Sorting
  import opened Processes
  import opened Orders

  /** `sorted(process_data, key=lambda x: x[1])`. */
  function ArrivalOrder(ps: seq<Process>): (sp: seq<Process>)
    ensures |sp| == |ps| && multiset(sp) == multiset(ps)
    ensures forall a, b :: 0 <= a < b < |sp| ==> sp[a].arrival <= sp[b].arrival
  {
    SortBy(ByArrival, ps)
  }

  /** Simultaneous arrivals keep their input (P1, P2, ...) order. */
  lemma FcfsTieBreak(ps: seq<Process>)
    requires NumberedInOrder(ps)
    ensures var sp := ArrivalOrder(ps);
            forall a, b :: 0 <= a < b < |sp| ==>
              sp[a].arrival < sp[b].arrival || (sp[a].arrival == sp[b].arrival && sp[a].pid < sp[b].pid)
  {
    SortByStable(ByArrival, ps);
  }

  function Max(a: int, b: int): int {
    if a >= b then a else b
  }

  /** completion_time[i] of `calculate_and_display`: the first request
      finishes at its arrival plus its burst, each later one at the later of
      the previous completion and its own arrival, plus its burst. */
  function Completion(sp: seq<Process>, i: nat): (c: int)
    requires i < |sp|
    ensures c - sp[i].burst >= sp[i].arrival
  {
    if i == 0 then sp[0].arrival + sp[0].burst
    else Max(Completion(sp, i - 1), sp[i].arrival) + sp[i].burst
  }

  /** The metric part of `calculate_and_display`: runs the requests in
      the given order and derives each one's row. */
  function RunInOrder(sp: seq<Process>): (t: seq<Row>)
    requires |sp| > 0
    ensures |t| == |sp|
    ensures forall i :: 0 <= i < |t| ==> t[i].proc == sp[i]
  {
    seq(|sp|, i requires 0 <= i < |sp| => MakeRow(sp[i], Completion(sp, i)))
  }

  /** The FCFS results table, in arrival order. The source indexes element 0,
      so it needs at least one request (the front end never passes none). */
  function FcfsTable(ps: seq<Process>): (t: seq<Row>)
    requires |ps| > 0
    ensures |t| == |ps| && multiset(Procs(t)) == multiset(ps)
    ensures forall a, b :: 0 <= a < b < |t| ==> t[a].proc.arrival <= t[b].proc.arrival
  {
    var sp := ArrivalOrder(ps);
    var t := RunInOrder(sp);
    assert Procs(t) == sp;
    t
  }

  lemma {:induction false} CompletionIncreasing(sp: seq<Process>, i: nat, j: nat)
    requires Admissible(sp)
    requires i < j < |sp|
    ensures Completion(sp, i) < Completion(sp, j)
    decreases j - i
  {
    if j > i + 1 {
      CompletionIncreasing(sp, i, j - 1);
    }
  }

  /** Back-to-back execution in a fixed order: every request starts no
      earlier than its arrival and no earlier than the previous one ends, at
      exactly the later of the two (the CPU never idles while a request
      waits); completions strictly increase, and waiting time is never
      negative. */
  lemma RunInOrderTimeline(sp: seq<Process>)
    requires |sp| > 0 && Admissible(sp)
    ensures var t := RunInOrder(sp);
            && (forall i :: 0 <= i < |t| ==>
                  && t[i].turnaround == t[i].completion - t[i].proc.arrival
                  && t[i].waiting == t[i].turnaround - t[i].proc.burst
                  && t[i].waiting >= 0)
            && t[0].completion - t[0].proc.burst == t[0].proc.arrival
            && (forall i :: 0 < i < |t| ==>
                  t[i].completion - t[i].proc.burst == Max(t[i - 1].completion, t[i].proc.arrival))
            && (forall i, j :: 0 <= i < j < |t| ==> t[i].completion < t[j].completion)
  {
    var t := RunInOrder(sp);
    assert forall i :: 0 <= i < |t| ==> t[i].completion == Completion(sp, i);
    forall i, j | 0 <= i < j < |t|
      ensures t[i].completion < t[j].completion
    {
      CompletionIncreasing(sp, i, j);
    }
  }

  /** FCFS: the timeline above, over the requests in arrival order. */
  lemma FcfsTimeline(ps: seq<Process>)
    requires |ps| > 0 && Admissible(ps)
    ensures var t := FcfsTable(ps);
            && (forall i :: 0 <= i < |t| ==>
                  && t[i].turnaround == t[i].completion - t[i].proc.arrival
                  && t[i].waiting == t[i].turnaround - t[i].proc.burst
                  && t[i].waiting >= 0)
            && (forall i, j :: 0 <= i < j < |t| ==> t[i].completion < t[j].completion)
  {
    SortByAdmissible(ByArrival, ps);
    RunInOrderTimeline(ArrivalOrder(ps));
  }

  /** Requests already listed in arrival order run in the order given. */
  lemma FcfsTableSorted(ps: seq<Process>)
    requires |ps| > 0
    requires forall a, b :: 0 <= a < b < |ps| ==> ps[a].arrival <= ps[b].arrival
    ensures FcfsTable(ps) == RunInOrder(ps)
  {
    SortBySorted(ByArrival, ps);
  }
}
