/**
 Non-preemptive priority scheduling (`priority_scheduling`). The requests
 are stably sorted by (priority, arrival). At every step a scan over that
 order selects an arrived, unfinished request, replacing its candidate only
 by one with a strictly smaller priority number; the selected request runs
 to completion, or the clock ticks by one when nothing is eligible. The
 loop stops once every remaining time is 0, and the rows are put back in
 process-number order.
 */
module PriorityScheduling {
  import opened Sorting
  import opened Processes
  import opened Orders
  import opened Dispatch
  import opened Report

  /** The scan `for i in range(n): if eligible and (selected is None or
      priority[i] < priority[selected]): selected = i`, from index k on,
      with the candidate `sel` chosen among indices below k. */
  function Scan(sp: seq<Process>, rem: seq<int>, time: int, k: nat, sel: Option<nat>): (r: Option<nat>)
    requires |rem| == |sp| && k <= |sp|
    requires sel.Some? ==> sel.value < k && Eligible(sp, rem, time, sel.value)
    ensures r.None? ==> sel.None? && forall j :: k <= j < |sp| ==> !Eligible(sp, rem, time, j)
    ensures r.Some? ==> Eligible(sp, rem, time, r.value)
    ensures r.Some? && sel.Some? ==> sp[r.value].priority <= sp[sel.value].priority
    ensures r.Some? ==> forall j :: k <= j < |sp| && Eligible(sp, rem, time, j) ==> sp[r.value].priority <= sp[j].priority
    ensures r.Some? ==> forall j :: k <= j < r.value && Eligible(sp, rem, time, j) ==> sp[j].priority > sp[r.value].priority
    ensures r.Some? && sel.Some? && r.value >= k ==> sp[r.value].priority < sp[sel.value].priority
    ensures r.Some? && r.value < k ==> r == sel
    decreases |sp| - k
  {
    if k == |sp| then sel
    else if Eligible(sp, rem, time, k) && (sel.None? || sp[k].priority < sp[sel.value].priority) then
      Scan(sp, rem, time, k + 1, Some(k))
    else
      Scan(sp, rem, time, k + 1, sel)
  }

  /** The request the loop selects at `time`: none exactly when nothing is
      eligible; otherwise an eligible one with the smallest priority number,
      and no eligible request scanned before it has the same number. */
  function Select(sp: seq<Process>, rem: seq<int>, time: int): (r: Option<nat>)
    requires |rem| == |sp|
    ensures r.None? <==> !AnyEligible(sp, rem, time)
    ensures r.Some? ==> && Eligible(sp, rem, time, r.value)
                        && (forall j :: 0 <= j < |sp| && Eligible(sp, rem, time, j) ==> sp[r.value].priority <= sp[j].priority)
                        && (forall j :: 0 <= j < r.value && Eligible(sp, rem, time, j) ==> sp[j].priority > sp[r.value].priority)
  {
    Scan(sp, rem, time, 0, None)
  }

  /** On the requests sorted by (priority, arrival) the selection is simply
      the first eligible request in that order. */
  lemma SelectFirstEligible(ps: seq<Process>, rem: seq<int>, time: int)
    requires |rem| == |ps|
    ensures var sp := SortBy(ByPriorityThenArrival, ps);
            var r := Select(sp, rem, time);
            r.Some? ==> forall j :: 0 <= j < r.value ==> !Eligible(sp, rem, time, j)
  {
    var sp := SortBy(ByPriorityThenArrival, ps);
    var r := Select(sp, rem, time);
    if r.Some? {
      forall j | 0 <= j < r.value
        ensures !Eligible(sp, rem, time, j)
      {
        assert !KeyLess(KeyOf(ByPriorityThenArrival, sp[r.value]), KeyOf(ByPriorityThenArrival, sp[j]));
      }
    }
  }

  /** In input terms: the selected request has the smallest priority number
      among the eligible ones; against any other eligible request with the
      same number it arrived earlier, or at the same time and is listed
      earlier in the input (P1, P2, ...). */
  lemma SelectTieBreak(ps: seq<Process>, rem: seq<int>, time: int)
    requires |rem| == |ps| && NumberedInOrder(ps)
    ensures var sp := SortBy(ByPriorityThenArrival, ps);
            var r := Select(sp, rem, time);
            r.Some? ==> forall j :: 0 <= j < |sp| && j != r.value && Eligible(sp, rem, time, j) ==>
              || sp[r.value].priority < sp[j].priority
              || (sp[r.value].priority == sp[j].priority && sp[r.value].arrival < sp[j].arrival)
              || (sp[r.value].priority == sp[j].priority && sp[r.value].arrival == sp[j].arrival && sp[r.value].pid < sp[j].pid)
  {
    var sp := SortBy(ByPriorityThenArrival, ps);
    var r := Select(sp, rem, time);
    SelectFirstEligible(ps, rem, time);
    SortByStable(ByPriorityThenArrival, ps);
    if r.Some? {
      forall j | 0 <= j < |sp| && j != r.value && Eligible(sp, rem, time, j)
        ensures || sp[r.value].priority < sp[j].priority
                || (sp[r.value].priority == sp[j].priority && sp[r.value].arrival < sp[j].arrival)
                || (sp[r.value].priority == sp[j].priority && sp[r.value].arrival == sp[j].arrival && sp[r.value].pid < sp[j].pid)
      {
        assert r.value < j;
      }
    }
  }

  /** The loop variables of `priority_scheduling`: the clock, remaining_time
      and completion_time. */
  datatype PriorityState = PriorityState(time: int, rem: seq<int>, completion: seq<int>)

  predicate PriorityInv(sp: seq<Process>, s: PriorityState) {
    Admissible(sp) && RunsConsistent(sp, s.time, s.rem, s.completion)
  }

  /** One iteration of the `while True` loop: run the selected request to
      completion, or tick the clock when none is selected. */
  function PriorityStep(sp: seq<Process>, s: PriorityState): (r: PriorityState)
    requires PriorityInv(sp, s) && Unfinished(s.rem) > 0
    ensures PriorityInv(sp, r)
    ensures match Select(sp, s.rem, s.time)
            case None =>
              && r == s.(time := s.time + 1)
              && s.time < MaxArrival(sp)
            case Some(i) =>
              && r.time == s.time + sp[i].burst
              && r.rem == s.rem[i := 0]
              && r.completion == s.completion[i := r.time]
              && Unfinished(r.rem) == Unfinished(s.rem) - 1
  {
    match Select(sp, s.rem, s.time)
    case None =>
      PendingArrival(sp, s.time, s.rem);
      s.(time := s.time + 1)
    case Some(i) =>
      RunToCompletion(sp, s.time, s.rem, s.completion, i);
      var t := s.time + sp[i].burst;
      PriorityState(t, s.rem[i := 0], s.completion[i := t])
  }

  /** The loop until `all(rt == 0 for rt in remaining_time)`. The test comes
      after a step, so the loop runs at least once: with no requests at all
      the source never leaves it, hence `Unfinished(s.rem) > 0` here. */
  function PriorityRun(sp: seq<Process>, s: PriorityState): (r: PriorityState)
    requires PriorityInv(sp, s) && Unfinished(s.rem) > 0
    ensures PriorityInv(sp, r) && Unfinished(r.rem) == 0
    decreases Unfinished(s.rem), MaxArrival(sp) - s.time
  {
    var s1 := PriorityStep(sp, s);
    if Unfinished(s1.rem) == 0 then s1 else PriorityRun(sp, s1)
  }

  /** Ticking through an idle stretch ends exactly where jumping straight to
      the next arrival would, and there some request is selected. */
  lemma {:induction false} PriorityIdleGap(sp: seq<Process>, s: PriorityState)
    requires PriorityInv(sp, s) && Unfinished(s.rem) > 0 && !AnyEligible(sp, s.rem, s.time)
    ensures s.time < NextArrival(sp, s.rem)
    ensures Select(sp, s.rem, NextArrival(sp, s.rem)).Some?
    ensures && PriorityInv(sp, s.(time := NextArrival(sp, s.rem)))
            && PriorityRun(sp, s) == PriorityRun(sp, s.(time := NextArrival(sp, s.rem)))
    decreases NextArrival(sp, s.rem) - s.time
  {
    var na := NextArrival(sp, s.rem);
    NextArrivalAhead(sp, s.rem, s.time);
    var s1 := s.(time := s.time + 1);
    assert PriorityStep(sp, s) == s1;
    assert PriorityRun(sp, s) == PriorityRun(sp, s1);
    if s1.time < na {
      BeforeNextArrival(sp, s.rem, s1.time);
      PriorityIdleGap(sp, s1);
      assert s1.rem == s.rem && s1.(time := na) == s.(time := na);
    } else {
      assert s1 == s.(time := na);
    }
  }

  /** The state `priority_scheduling` starts from, over the sorted requests. */
  function PriorityStart(sp: seq<Process>): (s: PriorityState)
    requires Admissible(sp)
    ensures PriorityInv(sp, s) && Unfinished(s.rem) == |sp|
  {
    PriorityState(0, Fresh(sp), seq(|sp|, _ => 0))
  }

  /** The rows of `priority_scheduling` in the order of the sorted requests. */
  function PriorityRows(sp: seq<Process>): (rows: seq<Row>)
    requires Admissible(sp) && |sp| > 0
    ensures |rows| == |sp|
    ensures forall k :: 0 <= k < |rows| ==> rows[k].proc == sp[k] && RowFits(rows[k])
    ensures RunsDisjoint(rows)
  {
    var fin := PriorityRun(sp, PriorityStart(sp));
    FinishedRowsFit(sp, fin.time, fin.rem, fin.completion);
    FinishedRows(sp, fin.completion)
  }

  /** `priority_scheduling`: the results table in process-number order.
      Every request appears once, at its input position, with metrics
      derived from its completion time and a non-negative waiting time;
      each ran once, for its whole burst, and no two runs overlap. */
  function PriorityTable(ps: seq<Process>): (t: seq<Row>)
    requires Admissible(ps) && NumberedInOrder(ps) && |ps| > 0
    ensures |t| == |ps|
    ensures forall j :: 0 <= j < |t| ==> t[j].proc == ps[j] && RowFits(t[j])
    ensures RunsDisjoint(t)
  {
    var sp := SortBy(ByPriorityThenArrival, ps);
    SortByAdmissible(ByPriorityThenArrival, ps);
    var rows := PriorityRows(sp);
    ReorderTable(ps, rows, OrderOf(ByPriorityThenArrival, ps));
    ReorderByPid(rows)
  }

  /** The table row of request j is the row computed for the position k
      the sort moved it to. */
  lemma PriorityTableAt(ps: seq<Process>, j: nat, k: nat)
    requires Admissible(ps) && NumberedInOrder(ps) && |ps| > 0
    requires j < |ps| && k < |ps| && SortBy(ByPriorityThenArrival, ps)[k] == ps[j]
    ensures PriorityTable(ps)[j] == PriorityRows(SortBy(ByPriorityThenArrival, ps))[k]
  {
    var sp := SortBy(ByPriorityThenArrival, ps);
    var o := OrderOf(ByPriorityThenArrival, ps);
    SortByAdmissible(ByPriorityThenArrival, ps);
    var rows := PriorityRows(sp);
    ReorderRestoresInputOrder(ps, rows, o);
    var x := PidOrder(rows)[j];
    assert rows[x].proc == ps[j];
    SortByInjective(ByPriorityThenArrival, ps, x, k);
    assert PriorityTable(ps) == ReorderByPid(rows);
  }
}
