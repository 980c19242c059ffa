/**
 Worked examples: each dispatcher run on a small concrete request list, with
 the completion and waiting times it reports.
 */
module Scenarios {
  import opened Sorting
  import opened Processes
  import opened Orders
  import opened Dispatch
  import opened Report
  import Fcfs
  import Sjf
  import PriorityScheduling
  import RoundRobin

  /** The requests P1 arriving at 0 needing 5, P2 at 1 needing 3 and P3 at
      2 needing 1. */
  predicate IsThree(ps: seq<Process>) {
    && |ps| == 3
    && ps[0] == Process(1, 0, 5, 0) && ps[1] == Process(2, 1, 3, 0) && ps[2] == Process(3, 2, 1, 0)
  }

  /** Row j of table `t` is about request j of `ps`, and reports completion
      time c and waiting time w. */
  predicate Shows(t: seq<Row>, ps: seq<Process>, j: nat, c: int, w: int) {
    j < |t| && j < |ps| && t[j].proc == ps[j] && t[j].completion == c && t[j].waiting == w
  }

  lemma FcfsThreeRow(ps: seq<Process>, j: nat, c: int)
    requires IsThree(ps) && j < 3 && Fcfs.Completion(ps, j) == c
    ensures Fcfs.RunInOrder(ps)[j] == MakeRow(ps[j], c)
  {
  }

  lemma FcfsThreeCompletion(ps: seq<Process>)
    requires IsThree(ps)
    ensures Fcfs.Completion(ps, 0) == 5 && Fcfs.Completion(ps, 1) == 8 && Fcfs.Completion(ps, 2) == 9
  {
    assert Fcfs.Completion(ps, 1) == 8;
  }

  lemma FcfsThreeRows(ps: seq<Process>)
    requires IsThree(ps)
    ensures var t := Fcfs.RunInOrder(ps);
            Shows(t, ps, 0, 5, 0) && Shows(t, ps, 1, 8, 4) && Shows(t, ps, 2, 9, 6)
  {
    FcfsThreeCompletion(ps);
    FcfsThreeRow(ps, 0, 5);
    FcfsThreeRow(ps, 1, 8);
    FcfsThreeRow(ps, 2, 9);
  }

  lemma FcfsThreeTable(ps: seq<Process>)
    requires IsThree(ps)
    ensures Fcfs.FcfsTable(ps) == Fcfs.RunInOrder(ps)
  {
    Fcfs.FcfsTableSorted(ps);
  }

  /** FCFS on these requests keeps them in input (arrival) order and runs
      them back to back, finishing at 5, 8 and 9, having waited 0, 4 and 6. */
  lemma FcfsThree(ps: seq<Process>)
    requires IsThree(ps)
    ensures Fcfs.FcfsTable(ps) == Fcfs.RunInOrder(ps)
    ensures var t := Fcfs.RunInOrder(ps);
            Shows(t, ps, 0, 5, 0) && Shows(t, ps, 1, 8, 4) && Shows(t, ps, 2, 9, 6)
  {
    FcfsThreeTable(ps);
    FcfsThreeRows(ps);
  }

  predicate SjfAt(s: Sjf.SjfState, time: int, rem: seq<int>, completion: seq<int>) {
    s.time == time && s.rem == rem && s.completion == completion
  }

  /** At time 0 only P1 has arrived. */
  lemma AloneAtStart(ps: seq<Process>, rem: seq<int>)
    requires IsThree(ps) && |rem| == 3
    ensures forall j: nat :: j != 0 ==> !Eligible(ps, rem, 0, j)
  {
    forall j: nat | j != 0
      ensures !Eligible(ps, rem, 0, j)
    {
      if j < 3 {
        assert ps[j].arrival > 0;
      }
    }
  }

  lemma SjfThree1(ps: seq<Process>, s: Sjf.SjfState)
    requires IsThree(ps) && Sjf.SjfInv(ps, s) && SjfAt(s, 0, [5, 3, 1], [0, 0, 0])
    ensures SjfAt(Sjf.SjfStep(ps, s), 5, [0, 3, 1], [5, 0, 0])
  {
    AloneAtStart(ps, s.rem);
    Sjf.SjfRunsLeast(ps, s, 0);
    assert s.rem[0 := 0] == [0, 3, 1];
    assert s.completion[0 := 5] == [5, 0, 0];
  }

  /** At time 5, with P1 done, P3 has strictly less left than P2. */
  lemma ShortestAtFive(ps: seq<Process>, rem: seq<int>)
    requires IsThree(ps) && rem == [0, 3, 1]
    ensures forall j: nat :: j != 2 && Eligible(ps, rem, 5, j) ==> rem[j] > rem[2]
  {
    forall j: nat | j != 2 && Eligible(ps, rem, 5, j)
      ensures rem[j] > rem[2]
    {
      assert j == 1;
    }
  }

  lemma SjfThree2(ps: seq<Process>, s: Sjf.SjfState)
    requires IsThree(ps) && Sjf.SjfInv(ps, s) && SjfAt(s, 5, [0, 3, 1], [5, 0, 0])
    ensures SjfAt(Sjf.SjfStep(ps, s), 6, [0, 3, 0], [5, 0, 6])
  {
    ShortestAtFive(ps, s.rem);
    Sjf.SjfRunsLeast(ps, s, 2);
  }

  lemma SjfThree3(ps: seq<Process>, s: Sjf.SjfState)
    requires IsThree(ps) && Sjf.SjfInv(ps, s) && SjfAt(s, 6, [0, 3, 0], [5, 0, 6])
    ensures SjfAt(Sjf.SjfStep(ps, s), 9, [0, 0, 0], [5, 9, 6])
  {
    Sjf.SjfRunsLeast(ps, s, 1);
  }

  lemma SjfThreeStart(ps: seq<Process>)
    requires IsThree(ps)
    ensures Admissible(ps) && SjfAt(Sjf.SjfStart(ps), 0, [5, 3, 1], [0, 0, 0])
  {
  }

  /** The SJF loop on these requests: P1 runs alone from 0 to 5; at 5 P3
      (1 left) beats P2 (3 left) and runs to 6; P2 runs to 9. */
  lemma SjfThreeRun(ps: seq<Process>)
    requires IsThree(ps)
    ensures Admissible(ps)
    ensures var c := Sjf.SjfRun(ps, Sjf.SjfStart(ps)).completion;
            |c| == 3 && c[0] == 5 && c[1] == 9 && c[2] == 6
  {
    SjfThreeStart(ps);
    var s0 := Sjf.SjfStart(ps);
    SjfThree1(ps, s0);
    var s1 := Sjf.SjfStep(ps, s0);
    SjfThree2(ps, s1);
    var s2 := Sjf.SjfStep(ps, s1);
    SjfThree3(ps, s2);
    var s3 := Sjf.SjfStep(ps, s2);
    assert Unfinished([0, 0, 0]) == 0;
    assert Sjf.SjfRun(ps, s2) == s3;
    assert Sjf.SjfRun(ps, s1) == Sjf.SjfRun(ps, s2);
    assert Sjf.SjfRun(ps, s0) == Sjf.SjfRun(ps, s1);
  }

  lemma SjfThreeRows(ps: seq<Process>)
    requires IsThree(ps)
    ensures Admissible(ps)
    ensures var t := Sjf.SjfRows(ps);
            Shows(t, ps, 0, 5, 0) && Shows(t, ps, 1, 9, 5) && Shows(t, ps, 2, 6, 3)
  {
    SjfThreeRun(ps);
  }

  lemma SjfThreeTable(ps: seq<Process>)
    requires IsThree(ps)
    ensures Admissible(ps) && NumberedInOrder(ps)
    ensures Sjf.SjfTable(ps) == Sjf.SjfRows(ps)
  {
    Sjf.SjfTableSorted(ps);
  }

  /** SJF on these requests: the table is in input order (the requests are
      already sorted by arrival and burst); they finish at 5, 9 and 6,
      having waited 0, 5 and 3. */
  lemma SjfThree(ps: seq<Process>)
    requires IsThree(ps)
    ensures Admissible(ps) && NumberedInOrder(ps)
    ensures Sjf.SjfTable(ps) == Sjf.SjfRows(ps)
    ensures var t := Sjf.SjfRows(ps);
            Shows(t, ps, 0, 5, 0) && Shows(t, ps, 1, 9, 5) && Shows(t, ps, 2, 6, 3)
  {
    SjfThreeTable(ps);
    SjfThreeRows(ps);
  }

  /** Three requests where the later two tie on priority and arrival:
      P1 (arrival 0, burst 3, priority 2), P2 (1, 2, 1), P3 (1, 1, 1). */
  predicate IsTie(ps: seq<Process>) {
    && |ps| == 3
    && ps[0] == Process(1, 0, 3, 2)
    && ps[1] == Process(2, 1, 2, 1)
    && ps[2] == Process(3, 1, 1, 1)
  }

  /** The same requests sorted by (priority, arrival): P2, P3, P1. */
  predicate IsTieSorted(sp: seq<Process>) {
    && |sp| == 3
    && sp[0] == Process(2, 1, 2, 1)
    && sp[1] == Process(3, 1, 1, 1)
    && sp[2] == Process(1, 0, 3, 2)
  }

  lemma RangeThree()
    ensures Range(3) == [0, 1, 2]
  {
    assert Range(1) == [0];
    assert Range(2) == [0, 1];
  }

  lemma ThreeRotated(o: seq<nat>)
    requires o == [1, 2, 0]
    ensures IsPermutation(o, 3)
  {
    RangeThree();
    assert multiset(o) == multiset([0, 1, 2]);
  }

  lemma TieOrder(ps: seq<Process>, o: seq<nat>)
    requires IsTie(ps) && o == [1, 2, 0]
    ensures StablySorted(KeysOf(ByPriorityThenArrival, ps), o)
  {
    var keys := KeysOf(ByPriorityThenArrival, ps);
    assert keys[0] == Key(2, 0) && keys[1] == Key(1, 1) && keys[2] == Key(1, 1);
  }

  lemma TiePermuted(ps: seq<Process>, o: seq<nat>)
    requires IsTie(ps) && o == [1, 2, 0]
    ensures IsTieSorted(Permute(ps, o))
  {
  }

  /** The sort moves P1 (priority 2) last and keeps P2 before P3, although
      P3 has the shorter burst. */
  lemma TieSorted(ps: seq<Process>)
    requires IsTie(ps)
    ensures IsTieSorted(SortBy(ByPriorityThenArrival, ps))
  {
    var o: seq<nat> := [1, 2, 0];
    ThreeRotated(o);
    TieOrder(ps, o);
    TiePermuted(ps, o);
    SortByIs(ByPriorityThenArrival, ps, o);
  }

  predicate PriorityAt(s: PriorityScheduling.PriorityState, time: int, rem: seq<int>, completion: seq<int>) {
    s.time == time && s.rem == rem && s.completion == completion
  }

  lemma TieStart(sp: seq<Process>)
    requires IsTieSorted(sp)
    ensures Admissible(sp) && PriorityAt(PriorityScheduling.PriorityStart(sp), 0, [2, 1, 3], [0, 0, 0])
  {
  }

  /** At time 0 only P1 has arrived, so it runs despite its priority. */
  lemma Tie1(sp: seq<Process>, s: PriorityScheduling.PriorityState)
    requires IsTieSorted(sp) && PriorityScheduling.PriorityInv(sp, s)
    requires PriorityAt(s, 0, [2, 1, 3], [0, 0, 0])
    ensures PriorityAt(PriorityScheduling.PriorityStep(sp, s), 3, [2, 1, 0], [0, 0, 3])
  {
    var r := PriorityScheduling.Select(sp, s.rem, s.time);
    assert Eligible(sp, s.rem, s.time, 2);
    assert r == Some(2);
  }

  /** At time 3 P2 and P3 tie; P2 comes first in the sorted list. */
  lemma Tie2(sp: seq<Process>, s: PriorityScheduling.PriorityState)
    requires IsTieSorted(sp) && PriorityScheduling.PriorityInv(sp, s)
    requires PriorityAt(s, 3, [2, 1, 0], [0, 0, 3])
    ensures PriorityAt(PriorityScheduling.PriorityStep(sp, s), 5, [0, 1, 0], [5, 0, 3])
  {
    var r := PriorityScheduling.Select(sp, s.rem, s.time);
    assert Eligible(sp, s.rem, s.time, 0);
    assert r == Some(0);
  }

  lemma Tie3(sp: seq<Process>, s: PriorityScheduling.PriorityState)
    requires IsTieSorted(sp) && PriorityScheduling.PriorityInv(sp, s)
    requires PriorityAt(s, 5, [0, 1, 0], [5, 0, 3])
    ensures PriorityAt(PriorityScheduling.PriorityStep(sp, s), 6, [0, 0, 0], [5, 6, 3])
  {
    var r := PriorityScheduling.Select(sp, s.rem, s.time);
    assert Eligible(sp, s.rem, s.time, 1);
    assert r == Some(1);
  }

  /** The loop over the sorted requests P2, P3, P1 finishes them at 5, 6
      and 3. */
  lemma TieRun(sp: seq<Process>)
    requires IsTieSorted(sp)
    ensures Admissible(sp)
    ensures var c := PriorityScheduling.PriorityRun(sp, PriorityScheduling.PriorityStart(sp)).completion;
            |c| == 3 && c[0] == 5 && c[1] == 6 && c[2] == 3
  {
    TieStart(sp);
    var s0 := PriorityScheduling.PriorityStart(sp);
    Tie1(sp, s0);
    var s1 := PriorityScheduling.PriorityStep(sp, s0);
    Tie2(sp, s1);
    var s2 := PriorityScheduling.PriorityStep(sp, s1);
    Tie3(sp, s2);
    var s3 := PriorityScheduling.PriorityStep(sp, s2);
    assert Unfinished([0, 0, 0]) == 0;
    assert PriorityScheduling.PriorityRun(sp, s2) == s3;
    assert PriorityScheduling.PriorityRun(sp, s1) == PriorityScheduling.PriorityRun(sp, s2);
    assert PriorityScheduling.PriorityRun(sp, s0) == PriorityScheduling.PriorityRun(sp, s1);
  }

  lemma TieRow(sp: seq<Process>, k: nat, c: int)
    requires IsTieSorted(sp) && k < 3
    requires PriorityScheduling.PriorityRun(sp, PriorityScheduling.PriorityStart(sp)).completion[k] == c
    ensures var rows := PriorityScheduling.PriorityRows(sp);
            rows[k].proc == sp[k] && rows[k].completion == c && rows[k].waiting == c - sp[k].arrival - sp[k].burst
  {
  }

  /** The rows over the sorted requests P2, P3, P1: completions 5, 6, 3
      and waiting times 2, 4, 0. */
  lemma TieRows(sp: seq<Process>)
    requires IsTieSorted(sp)
    ensures Admissible(sp)
    ensures var rows := PriorityScheduling.PriorityRows(sp);
            && rows[0].completion == 5 && rows[0].waiting == 2
            && rows[1].completion == 6 && rows[1].waiting == 4
            && rows[2].completion == 3 && rows[2].waiting == 0
  {
    TieRun(sp);
    TieRow(sp, 0, 5);
    TieRow(sp, 1, 6);
    TieRow(sp, 2, 3);
  }

  lemma TieTableRow(ps: seq<Process>, j: nat, k: nat, c: int, w: int)
    requires Admissible(ps) && NumberedInOrder(ps) && |ps| == 3 && j < 3 && k < 3
    requires SortBy(ByPriorityThenArrival, ps)[k] == ps[j]
    requires Admissible(SortBy(ByPriorityThenArrival, ps))
    requires var rows := PriorityScheduling.PriorityRows(SortBy(ByPriorityThenArrival, ps));
             rows[k].completion == c && rows[k].waiting == w
    ensures Shows(PriorityScheduling.PriorityTable(ps), ps, j, c, w)
  {
    PriorityScheduling.PriorityTableAt(ps, j, k);
  }

  lemma TieAdmissible(ps: seq<Process>)
    requires IsTie(ps)
    ensures Admissible(ps) && NumberedInOrder(ps) && |ps| == 3
  {
  }

  /** Where the sort puts each request, and the row computed there. */
  lemma TieSortedRows(ps: seq<Process>)
    requires IsTie(ps)
    ensures var sp := SortBy(ByPriorityThenArrival, ps);
            && |sp| == 3 && sp[0] == ps[1] && sp[1] == ps[2] && sp[2] == ps[0]
            && Admissible(sp)
            && var rows := PriorityScheduling.PriorityRows(sp);
               && rows[0].completion == 5 && rows[0].waiting == 2
               && rows[1].completion == 6 && rows[1].waiting == 4
               && rows[2].completion == 3 && rows[2].waiting == 0
  {
    TieSorted(ps);
    TieRows(SortBy(ByPriorityThenArrival, ps));
  }

  lemma TieTable1(ps: seq<Process>)
    requires IsTie(ps)
    ensures Admissible(ps) && NumberedInOrder(ps)
    ensures Shows(PriorityScheduling.PriorityTable(ps), ps, 0, 3, 0)
  {
    TieAdmissible(ps);
    TieSortedRows(ps);
    TieTableRow(ps, 0, 2, 3, 0);
  }

  lemma TieTable2(ps: seq<Process>)
    requires IsTie(ps)
    ensures Admissible(ps) && NumberedInOrder(ps)
    ensures Shows(PriorityScheduling.PriorityTable(ps), ps, 1, 5, 2)
  {
    TieAdmissible(ps);
    TieSortedRows(ps);
    TieTableRow(ps, 1, 0, 5, 2);
  }

  lemma TieTable3(ps: seq<Process>)
    requires IsTie(ps)
    ensures Admissible(ps) && NumberedInOrder(ps)
    ensures Shows(PriorityScheduling.PriorityTable(ps), ps, 2, 6, 4)
  {
    TieAdmissible(ps);
    TieSortedRows(ps);
    TieTableRow(ps, 2, 1, 6, 4);
  }

  /** `priority_scheduling` on the tie: the table, in process-number order,
      shows P1 finishing at 3 after no wait, P2 at 5 after waiting 2 and
      P3 at 6 after waiting 4. */
  lemma TieTable(ps: seq<Process>)
    requires IsTie(ps)
    ensures Admissible(ps) && NumberedInOrder(ps)
    ensures var t := PriorityScheduling.PriorityTable(ps);
            Shows(t, ps, 0, 3, 0) && Shows(t, ps, 1, 5, 2) && Shows(t, ps, 2, 6, 4)
  {
    TieTable1(ps);
    TieTable2(ps);
    TieTable3(ps);
  }
}
