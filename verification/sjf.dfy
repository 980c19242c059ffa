/**
 Non-preemptive shortest-job-first (`sjf`). The requests are first sorted
 by (arrival, burst). Each iteration appends every arrived, unfinished
 request not yet in the ready list (scanning in that sorted order), stably
 sorts the ready list by remaining time and runs its head to completion;
 with an empty ready list the clock ticks by one. The rows are finally put
 back in process-number order.
 */
module Sjf {
  import opened Sorting
  import opened Processes
  import opened Orders
  import opened Dispatch
  import opened Report

  /** The loop variables of `sjf`: the clock, remaining_time, ready_queue
      and completion_time. */
  datatype SjfState = SjfState(time: int, rem: seq<int>, ready: seq<nat>, completion: seq<int>)

  /** What holds at the top of every iteration: finished runs are recorded
      consistently, and the ready list holds distinct eligible processes. */
  predicate SjfInv(sp: seq<Process>, s: SjfState) {
    && Admissible(sp)
    && RunsConsistent(sp, s.time, s.rem, s.completion)
    && ReadyOk(sp, s)
  }

  /** The ready list holds distinct eligible processes. */
  predicate ReadyOk(sp: seq<Process>, s: SjfState) {
    && |s.rem| == |sp|
    && Distinct(s.ready)
    && (forall a :: 0 <= a < |s.ready| ==> Eligible(sp, s.rem, s.time, s.ready[a]))
  }

  /** The test of the admission scan, `arrival <= time and remaining > 0`. */
  function Arrived(sp: seq<Process>, rem: seq<int>, time: int): (want: seq<bool>)
    requires |rem| == |sp|
    ensures |want| == |sp|
    ensures forall i :: 0 <= i < |sp| ==> (want[i] <==> Eligible(sp, rem, time, i))
  {
    seq(|sp|, i requires 0 <= i < |sp| => sp[i].arrival <= time && rem[i] > 0)
  }

  /** The ready list after the admission scan: exactly the eligible
      processes, the earlier ready list first, then the newcomers in scan
      (that is, (arrival, burst)) order. */
  function Admitted(sp: seq<Process>, s: SjfState): (q: seq<nat>)
    requires ReadyOk(sp, s)
    ensures Distinct(q)
    ensures forall x: nat :: x in q <==> Eligible(sp, s.rem, s.time, x)
    ensures forall a :: 0 <= a < |q| ==> q[a] < |s.rem|
    ensures |q| >= |s.ready| && q[..|s.ready|] == s.ready
    ensures forall a, b :: |s.ready| <= a < b < |q| ==> q[a] < q[b]
  {
    Admit(s.ready, Arrived(sp, s.rem, s.time), 0)
  }

  function QueueKeys(q: seq<nat>, rem: seq<int>): (keys: seq<Key>)
    requires forall a :: 0 <= a < |q| ==> q[a] < |rem|
    ensures |keys| == |q|
    ensures forall a :: 0 <= a < |q| ==> keys[a] == Key(rem[q[a]], 0)
  {
    seq(|q|, a requires 0 <= a < |q| => Key(rem[q[a]], 0))
  }

  /** The permutation `ready_queue.sort(key=lambda i: remaining_time[i])` applies. */
  function QueueOrder(q: seq<nat>, rem: seq<int>): (o: seq<nat>)
    requires forall a :: 0 <= a < |q| ==> q[a] < |rem|
    ensures |o| == |q|
    ensures forall a :: 0 <= a < |o| ==> o[a] < |q|
    ensures forall x :: 0 <= x < |q| ==> x in o
    ensures StablySorted(QueueKeys(q, rem), o)
  {
    StableOrder(QueueKeys(q, rem))
  }

  /** `ready_queue.sort(key=lambda i: remaining_time[i])`. */
  function ByRemaining(q: seq<nat>, rem: seq<int>): (sq: seq<nat>)
    requires forall a :: 0 <= a < |q| ==> q[a] < |rem|
    ensures |sq| == |q|
    ensures forall a :: 0 <= a < |sq| ==> sq[a] == q[QueueOrder(q, rem)[a]]
  {
    Permute(q, QueueOrder(q, rem))
  }

  /** The sorted ready list holds the same distinct processes, in
      non-decreasing order of remaining time. */
  lemma ByRemainingSorted(q: seq<nat>, rem: seq<int>)
    requires forall a :: 0 <= a < |q| ==> q[a] < |rem|
    requires Distinct(q)
    ensures var sq := ByRemaining(q, rem);
            && Distinct(sq)
            && (forall x :: x in sq <==> x in q)
            && (forall a :: 0 <= a < |sq| ==> sq[a] < |rem|)
            && (forall a, b :: 0 <= a < b < |sq| ==> rem[sq[a]] <= rem[sq[b]])
  {
    var keys := QueueKeys(q, rem);
    var o := QueueOrder(q, rem);
    var sq := ByRemaining(q, rem);
    forall a, b | 0 <= a < b < |sq|
      ensures rem[sq[a]] <= rem[sq[b]] && sq[a] != sq[b]
    {
      assert Before(keys, o[a], o[b]);
    }
    forall x | x in q
      ensures x in sq
    {
      var p :| 0 <= p < |q| && q[p] == x;
      assert p in o;
      var c :| 0 <= c < |o| && o[c] == p;
      assert sq[c] == x;
    }
  }

  /** The head of the stably sorted list has the least key. */
  lemma HeadLeast(q: seq<nat>, rem: seq<int>)
    requires forall a :: 0 <= a < |q| ==> q[a] < |rem|
    requires |q| > 0
    ensures var h := ByRemaining(q, rem)[0];
            forall a :: 0 <= a < |q| ==> rem[h] <= rem[q[a]]
  {
    var keys := QueueKeys(q, rem);
    var o := QueueOrder(q, rem);
    var h := ByRemaining(q, rem)[0];
    assert h == q[o[0]];
    forall a | 0 <= a < |q|
      ensures rem[h] <= rem[q[a]]
    {
      assert a in o;
      var c :| 0 <= c < |o| && o[c] == a;
      if c > 0 {
        assert Before(keys, o[0], o[c]);
      }
    }
  }

  /** Every entry ahead of the sorted head in the unsorted list has a
      strictly larger key. */
  lemma HeadFirst(q: seq<nat>, rem: seq<int>)
    requires forall a :: 0 <= a < |q| ==> q[a] < |rem|
    requires Distinct(q) && |q| > 0
    ensures var h := ByRemaining(q, rem)[0];
            forall a, b :: 0 <= a < b < |q| && q[b] == h ==> rem[q[a]] > rem[h]
  {
    var keys := QueueKeys(q, rem);
    var o := QueueOrder(q, rem);
    var h := ByRemaining(q, rem)[0];
    forall a, b | 0 <= a < b < |q| && q[b] == h
      ensures rem[q[a]] > rem[h]
    {
      assert b == o[0];
      assert a in o;
      var c :| 0 <= c < |o| && o[c] == a;
      assert c > 0;
      assert Before(keys, o[0], o[c]);
    }
  }

  /** The head of the stably sorted list has the least key, and every entry
      ahead of it in the unsorted list has a strictly larger key. */
  lemma StableHead(q: seq<nat>, rem: seq<int>)
    requires forall a :: 0 <= a < |q| ==> q[a] < |rem|
    requires Distinct(q) && |q| > 0
    ensures var h := ByRemaining(q, rem)[0];
            && (forall a :: 0 <= a < |q| ==> rem[h] <= rem[q[a]])
            && (forall a, b :: 0 <= a < b < |q| && q[b] == h ==> rem[q[a]] > rem[h])
  {
    HeadLeast(q, rem);
    HeadFirst(q, rem);
  }


  /** The ready list after the scan and the sort: the eligible processes,
      each once, in non-decreasing order of remaining time. */
  function Sorted(sp: seq<Process>, s: SjfState): (sq: seq<nat>)
    requires ReadyOk(sp, s)
    ensures |sq| == |Admitted(sp, s)|
    ensures Distinct(sq)
    ensures forall x: nat :: x in sq <==> Eligible(sp, s.rem, s.time, x)
    ensures forall a :: 0 <= a < |sq| ==> sq[a] < |s.rem|
    ensures forall a, b :: 0 <= a < b < |sq| ==> s.rem[sq[a]] <= s.rem[sq[b]]
  {
    var q := Admitted(sp, s);
    ByRemainingSorted(q, s.rem);
    ByRemaining(q, s.rem)
  }

  /** The head of the sorted ready list is an eligible process with the
      least remaining time, and every entry admitted ahead of it has a
      strictly larger remaining time. */
  lemma HeadIsLeast(sp: seq<Process>, s: SjfState)
    requires ReadyOk(sp, s) && AnyEligible(sp, s.rem, s.time)
    ensures Sorted(sp, s) != []
    ensures var q := Admitted(sp, s);
            var i := Sorted(sp, s)[0];
            && Eligible(sp, s.rem, s.time, i)
            && (forall j: nat :: Eligible(sp, s.rem, s.time, j) ==> s.rem[i] <= s.rem[j])
            && (forall a, b :: 0 <= a < b < |q| && q[b] == i ==> s.rem[q[a]] > s.rem[i])
  {
    SortedEmpty(sp, s);
    var q := Admitted(sp, s);
    var sq := Sorted(sp, s);
    assert |q| > 0;
    StableHead(q, s.rem);
    var i := sq[0];
    assert i in sq;
    forall j: nat | Eligible(sp, s.rem, s.time, j)
      ensures s.rem[i] <= s.rem[j]
    {
      assert j in sq;
      var c :| 0 <= c < |sq| && sq[c] == j;
      if c > 0 {
        assert s.rem[sq[0]] <= s.rem[sq[c]];
      }
    }
  }

  /** The sorted ready list is empty exactly when no process is eligible. */
  lemma SortedEmpty(sp: seq<Process>, s: SjfState)
    requires ReadyOk(sp, s)
    ensures Sorted(sp, s) == [] <==> !AnyEligible(sp, s.rem, s.time)
  {
    var sq := Sorted(sp, s);
    if sq != [] {
      assert sq[0] in sq;
    }
    if AnyEligible(sp, s.rem, s.time) {
      var w :| 0 <= w < |sp| && Eligible(sp, s.rem, s.time, w);
      assert w in sq;
    }
  }

  /** The process `sjf` runs when the ready list is not empty: an eligible
      one with the least remaining time, and among those the one admitted to
      the ready list first. */
  function SjfPick(sp: seq<Process>, s: SjfState): (i: nat)
    requires ReadyOk(sp, s) && AnyEligible(sp, s.rem, s.time)
    ensures Eligible(sp, s.rem, s.time, i)
    ensures forall j: nat :: Eligible(sp, s.rem, s.time, j) ==> s.rem[i] <= s.rem[j]
    ensures var q := Admitted(sp, s);
            forall a, b :: 0 <= a < b < |q| && q[b] == i ==> s.rem[q[a]] > s.rem[i]
  {
    HeadIsLeast(sp, s);
    Sorted(sp, s)[0]
  }

  /** Dropping the head of a distinct list of eligible processes, and
      finishing that head, leaves a distinct list of processes that are
      still eligible at any later clock. */
  lemma TailEligible(sp: seq<Process>, rem: seq<int>, time: int, sq: seq<nat>, t: int)
    requires Distinct(sq) && sq != [] && sq[0] < |rem| && t >= time
    requires forall a :: 0 <= a < |sq| ==> Eligible(sp, rem, time, sq[a])
    ensures Distinct(sq[1..])
    ensures forall a :: 0 <= a < |sq[1..]| ==> Eligible(sp, rem[sq[0] := 0], t, sq[1..][a])
  {
    forall a | 0 <= a < |sq[1..]|
      ensures Eligible(sp, rem[sq[0] := 0], t, sq[1..][a])
    {
      assert sq[1..][a] == sq[a + 1] && sq[a + 1] != sq[0];
      assert Eligible(sp, rem, time, sq[a + 1]);
    }
  }

  /** After the head of the sorted ready list is run to completion, the
      rest of the list is still distinct and eligible at the later clock. */
  lemma ReadyTail(sp: seq<Process>, s: SjfState, t: int)
    requires ReadyOk(sp, s) && Sorted(sp, s) != [] && t >= s.time
    ensures var sq := Sorted(sp, s);
            && Distinct(sq[1..])
            && (forall a :: 0 <= a < |sq[1..]| ==> Eligible(sp, s.rem[sq[0] := 0], t, sq[1..][a]))
  {
    var sq := Sorted(sp, s);
    forall a | 0 <= a < |sq|
      ensures Eligible(sp, s.rem, s.time, sq[a])
    {
      assert sq[a] in sq;
    }
    TailEligible(sp, s.rem, s.time, sq, t);
  }

  /** The state after running the picked process `i` to completion. */
  function RunState(sp: seq<Process>, s: SjfState, i: nat): (r: SjfState)
    requires SjfInv(sp, s) && AnyEligible(sp, s.rem, s.time) && i == SjfPick(sp, s)
    ensures r.time == s.time + sp[i].burst
    ensures r.rem == s.rem[i := 0]
    ensures r.completion == s.completion[i := r.time]
  {
    SortedEmpty(sp, s);
    var t := s.time + sp[i].burst;
    SjfState(t, s.rem[i := 0], Sorted(sp, s)[1..], s.completion[i := t])
  }

  /** After the run, the rest of the sorted list is a valid ready list. */
  lemma RunStateReady(sp: seq<Process>, s: SjfState, i: nat)
    requires SjfInv(sp, s) && AnyEligible(sp, s.rem, s.time) && i == SjfPick(sp, s)
    ensures ReadyOk(sp, RunState(sp, s, i))
  {
    SortedEmpty(sp, s);
    ReadyTail(sp, s, s.time + sp[i].burst);
  }

  /** Running the picked process to completion keeps the invariant and
      finishes exactly one more process. */
  lemma RunStateInv(sp: seq<Process>, s: SjfState, i: nat)
    requires SjfInv(sp, s) && AnyEligible(sp, s.rem, s.time) && i == SjfPick(sp, s)
    ensures SjfInv(sp, RunState(sp, s, i))
    ensures Unfinished(RunState(sp, s, i).rem) == Unfinished(s.rem) - 1
  {
    var r := RunState(sp, s, i);
    RunToCompletion(sp, s.time, s.rem, s.completion, i);
    assert RunsConsistent(sp, r.time, r.rem, r.completion);
    RunStateReady(sp, s, i);
  }

  /** Running the picked process to completion: the clock and its completion
      time both become the old clock plus its burst, and it is finished;
      nothing else changes. */
  function SjfRunHead(sp: seq<Process>, s: SjfState): (r: SjfState)
    requires SjfInv(sp, s) && AnyEligible(sp, s.rem, s.time)
    ensures SjfInv(sp, r) && Unfinished(r.rem) == Unfinished(s.rem) - 1
    ensures var i := SjfPick(sp, s);
            && r.time == s.time + sp[i].burst
            && r.rem == s.rem[i := 0]
            && r.completion == s.completion[i := r.time]
  {
    var i := SjfPick(sp, s);
    RunStateInv(sp, s, i);
    RunState(sp, s, i)
  }

  /** One iteration of the `while completed < n` loop: with an empty ready
      list the clock ticks, otherwise the head of the sorted list runs. */
  function SjfStep(sp: seq<Process>, s: SjfState): (r: SjfState)
    requires SjfInv(sp, s) && Unfinished(s.rem) > 0
    ensures SjfInv(sp, r)
    ensures || Unfinished(r.rem) < Unfinished(s.rem)
            || (Unfinished(r.rem) == Unfinished(s.rem) && r.time == s.time + 1 && s.time < MaxArrival(sp))
  {
    AdmittedEmpty(sp, s);
    if Admitted(sp, s) == [] then
      PendingArrival(sp, s.time, s.rem);
      SjfState(s.time + 1, s.rem, [], s.completion)
    else
      SjfRunHead(sp, s)
  }

  /** With a process eligible, the step is the run of the picked process. */
  lemma SjfRunsPick(sp: seq<Process>, s: SjfState)
    requires SjfInv(sp, s) && Unfinished(s.rem) > 0 && AnyEligible(sp, s.rem, s.time)
    ensures var i := SjfPick(sp, s);
            var r := SjfStep(sp, s);
            && r.time == s.time + sp[i].burst
            && r.rem == s.rem[i := 0]
            && r.completion == s.completion[i := r.time]
  {
    AdmittedEmpty(sp, s);
  }

  /** A process whose remaining time is strictly below that of every other
      eligible process is the one that runs, whatever the ready list. */
  lemma SjfRunsLeast(sp: seq<Process>, s: SjfState, i: nat)
    requires SjfInv(sp, s) && Unfinished(s.rem) > 0 && Eligible(sp, s.rem, s.time, i)
    requires forall j: nat :: j != i && Eligible(sp, s.rem, s.time, j) ==> s.rem[j] > s.rem[i]
    ensures var r := SjfStep(sp, s);
            && r.time == s.time + sp[i].burst
            && r.rem == s.rem[i := 0]
            && r.completion == s.completion[i := r.time]
  {
    SjfRunsPick(sp, s);
  }

  /** The ready list is empty after the admission scan exactly when no
      process is eligible. */
  lemma AdmittedEmpty(sp: seq<Process>, s: SjfState)
    requires ReadyOk(sp, s)
    ensures Admitted(sp, s) == [] <==> !AnyEligible(sp, s.rem, s.time)
    ensures !AnyEligible(sp, s.rem, s.time) ==> s.ready == []
  {
    var q := Admitted(sp, s);
    if q != [] {
      assert q[0] in q;
    }
    if s.ready != [] {
      assert Eligible(sp, s.rem, s.time, s.ready[0]);
    }
    if AnyEligible(sp, s.rem, s.time) {
      var w :| 0 <= w < |sp| && Eligible(sp, s.rem, s.time, w);
      assert w in q;
    }
  }

  /** With nothing eligible, the step only advances the clock by one. */
  lemma SjfIdles(sp: seq<Process>, s: SjfState)
    requires SjfInv(sp, s) && Unfinished(s.rem) > 0 && !AnyEligible(sp, s.rem, s.time)
    ensures SjfStep(sp, s) == s.(time := s.time + 1)
  {
    AdmittedEmpty(sp, s);
  }

  /** The loop, run until every process is finished. */
  function SjfRun(sp: seq<Process>, s: SjfState): (r: SjfState)
    requires SjfInv(sp, s)
    ensures SjfInv(sp, r) && Unfinished(r.rem) == 0
    decreases Unfinished(s.rem), MaxArrival(sp) - s.time
  {
    if Unfinished(s.rem) == 0 then s else SjfRun(sp, SjfStep(sp, s))
  }

  /** Ticking the clock one unit at a time through an idle stretch ends
      exactly where jumping straight to the next arrival would, and there
      some process is eligible. */
  lemma {:induction false} SjfIdleGap(sp: seq<Process>, s: SjfState)
    requires SjfInv(sp, s) && Unfinished(s.rem) > 0 && !AnyEligible(sp, s.rem, s.time)
    ensures s.time < NextArrival(sp, s.rem)
    ensures AnyEligible(sp, s.rem, NextArrival(sp, s.rem))
    ensures && s.ready == []
            && SjfInv(sp, s.(time := NextArrival(sp, s.rem)))
            && SjfRun(sp, s) == SjfRun(sp, s.(time := NextArrival(sp, s.rem)))
    decreases NextArrival(sp, s.rem) - s.time
  {
    var na := NextArrival(sp, s.rem);
    NextArrivalAhead(sp, s.rem, s.time);
    AdmittedEmpty(sp, s);
    SjfIdles(sp, s);
    var s1 := s.(time := s.time + 1);
    assert SjfRun(sp, s) == SjfRun(sp, s1);
    if s1.time < na {
      BeforeNextArrival(sp, s.rem, s1.time);
      SjfIdleGap(sp, s1);
      assert s1.rem == s.rem && s1.(time := na) == s.(time := na);
    } else {
      assert s1 == s.(time := na);
    }
  }

  /** The state `sjf` starts from, over the sorted requests. */
  function SjfStart(sp: seq<Process>): (s: SjfState)
    requires Admissible(sp)
    ensures SjfInv(sp, s)
  {
    SjfState(0, Fresh(sp), [], seq(|sp|, _ => 0))
  }

  /** The rows of `sjf` in the order of the sorted requests: every request
      ran once, after its arrival, for its whole burst, and no two runs
      overlap. */
  function SjfRows(sp: seq<Process>): (rows: seq<Row>)
    requires Admissible(sp)
    ensures |rows| == |sp|
    ensures forall k :: 0 <= k < |rows| ==> rows[k].proc == sp[k] && RowFits(rows[k])
    ensures RunsDisjoint(rows)
  {
    var fin := SjfRun(sp, SjfStart(sp));
    FinishedRowsFit(sp, fin.time, fin.rem, fin.completion);
    FinishedRows(sp, fin.completion)
  }

  /** `sjf`: the results table in process-number order. Every request
      appears once, at its input position, with metrics derived from its
      completion time and a non-negative waiting time; each ran once, for
      its whole burst, and no two runs overlap. */
  function SjfTable(ps: seq<Process>): (t: seq<Row>)
    requires Admissible(ps) && NumberedInOrder(ps)
    ensures |t| == |ps|
    ensures forall j :: 0 <= j < |t| ==> t[j].proc == ps[j] && RowFits(t[j])
    ensures RunsDisjoint(t)
  {
    var sp := SortBy(ByArrivalThenBurst, ps);
    SortByAdmissible(ByArrivalThenBurst, ps);
    var rows := SjfRows(sp);
    ReorderTable(ps, rows, OrderOf(ByArrivalThenBurst, ps));
    ReorderByPid(rows)
  }

  /** Requests already listed in (arrival, burst) order, numbered in that
      order, come out of `sjf` in the order the loop computed them. */
  lemma SjfTableSorted(ps: seq<Process>)
    requires Admissible(ps) && NumberedInOrder(ps)
    requires forall a, b :: 0 <= a < b < |ps| ==> !KeyLess(KeyOf(ByArrivalThenBurst, ps[b]), KeyOf(ByArrivalThenBurst, ps[a]))
    ensures SjfTable(ps) == SjfRows(ps)
  {
    SortBySorted(ByArrivalThenBurst, ps);
    ReorderInInputOrder(ps, SjfRows(ps));
  }

  /** The table row of request j is the row computed for the position k
      the sort moved it to, and its completion time is the one the loop
      recorded there. */
  lemma SjfTableAt(ps: seq<Process>, j: nat, k: nat)
    requires Admissible(ps) && NumberedInOrder(ps)
    requires j < |ps| && k < |ps| && SortBy(ByArrivalThenBurst, ps)[k] == ps[j]
    ensures SjfTable(ps)[j] == SjfRows(SortBy(ByArrivalThenBurst, ps))[k]
    ensures SjfTable(ps)[j].completion ==
            SjfRun(SortBy(ByArrivalThenBurst, ps), SjfStart(SortBy(ByArrivalThenBurst, ps))).completion[k]
  {
    var sp := SortBy(ByArrivalThenBurst, ps);
    var o := OrderOf(ByArrivalThenBurst, ps);
    SortByAdmissible(ByArrivalThenBurst, ps);
    var rows := SjfRows(sp);
    ReorderRestoresInputOrder(ps, rows, o);
    var x := PidOrder(rows)[j];
    assert rows[x].proc == ps[j];
    SortByInjective(ByArrivalThenBurst, ps, x, k);
    assert SjfTable(ps) == ReorderByPid(rows);
    var fin := SjfRun(sp, SjfStart(sp));
    assert rows == FinishedRows(sp, fin.completion);
  }
}
