/** A worked Round-Robin run with quantum 2 on P1 (arrival 0, burst 4),
    P2 (1, 3) and P3 (2, 2), followed step by step: the slices are
    P1 [0,2), P2 [2,4), P3 [4,6), P1 [6,8), P2 [8,9). */
module RoundRobinTrace {
  import opened Processes
  import opened Dispatch
  import opened RoundRobin

  /** The three requests of the run. */
  predicate IsTrio(ps: seq<Process>) {
    && |ps| == 3
    && ps[0] == Process(1, 0, 4, 0)
    && ps[1] == Process(2, 1, 3, 0)
    && ps[2] == Process(3, 2, 2, 0)
  }
  const L1 := [Slice(0, 0, 2)]
  const L2 := L1 + [Slice(1, 2, 4)]
  const L3 := L2 + [Slice(2, 4, 6)]
  const L4 := L3 + [Slice(0, 6, 8)]
  const L5 := L4 + [Slice(1, 8, 9)]

  predicate At(s: RrState, time: int, rem: seq<int>, queue: seq<nat>, completion: seq<int>, log: seq<Slice>) {
    s.time == time && s.rem == rem && s.queue == queue && s.completion == completion && s.log == log
  }

  lemma ArrivalsIs(ps: seq<Process>, lo: int, hi: int, q: seq<nat>)
    requires IsTrio(ps) && Increasing(q)
    requires forall x :: x in q <==> 0 <= x < |ps| && lo < ps[x].arrival <= hi
    ensures Arrivals(ps, lo, hi) == q
  {
    IncreasingUnique(Arrivals(ps, lo, hi), q);
  }

  /** Only P1 is there at time 0. */
  lemma StartQueueIs(ps: seq<Process>)
    requires IsTrio(ps)
    ensures Arrivals(ps, -1, 0) == [0]
  {
    ArrivalsIs(ps, -1, 0, [0]);
  }

  /** Before the loop: all work remaining, nothing completed, nothing run. */
  lemma StartStateIs(ps: seq<Process>)
    requires IsTrio(ps)
    ensures var s := StartState(ps);
            s.time == 0 && s.rem == [4, 3, 2] && s.completion == [0, 0, 0] && s.log == []
  {
    var s := StartState(ps);
    assert s.rem == [4, 3, 2];
    assert s.completion == [0, 0, 0];
  }

  lemma Start(ps: seq<Process>)
    requires IsTrio(ps)
    ensures Admissible(ps)
    ensures At(RrStart(ps, 2), 0, [4, 3, 2], [0], [0, 0, 0], [])
  {
    StartQueueIs(ps);
    StartStateIs(ps);
    assert RrStart(ps, 2) == StartState(ps);
  }

  /** What one iteration with a non-empty queue does, as stated by
      `RunStep`, with quantum 2. */
  predicate Ran(ps: seq<Process>, s: RrState, r: RrState) {
    && s.queue != [] && s.queue[0] < |s.rem| && |r.rem| == |s.rem| && |s.completion| == |s.rem|
    && var cur := s.queue[0];
       && r.time == s.time + Min(2, s.rem[cur])
       && r.rem == s.rem[cur := s.rem[cur] - Min(2, s.rem[cur])]
       && r.log == s.log + [Slice(cur, s.time, r.time)]
       && r.queue == s.queue[1..] + Arrivals(ps, s.time, r.time) + (if r.rem[cur] > 0 then [cur] else [])
       && (r.rem[cur] == 0 ==> r.completion == s.completion[cur := r.time])
       && (r.rem[cur] > 0 ==> r.completion == s.completion)
  }

  /** The state after the whole run. */
  predicate Done(r: RrState) {
    && |r.completion| == 3
    && r.completion[0] == 8 && r.completion[1] == 9 && r.completion[2] == 6
    && r.log == L5
  }

  /** P1 runs [0,2); P2 and P3 arrive meanwhile and queue ahead of P1. */
  lemma Step1(ps: seq<Process>, s: RrState, r: RrState)
    requires IsTrio(ps) && At(s, 0, [4, 3, 2], [0], [0, 0, 0], []) && Ran(ps, s, r)
    ensures At(r, 2, [2, 3, 2], [1, 2, 0], [0, 0, 0], L1)
  {
    ArrivalsIs(ps, 0, 2, [1, 2]);
  }

  /** P2 runs [2,4) and rejoins behind P1. */
  lemma Step2(ps: seq<Process>, s: RrState, r: RrState)
    requires IsTrio(ps) && At(s, 2, [2, 3, 2], [1, 2, 0], [0, 0, 0], L1) && Ran(ps, s, r)
    ensures At(r, 4, [2, 1, 2], [2, 0, 1], [0, 0, 0], L2)
  {
    ArrivalsIs(ps, 2, 4, []);
  }

  /** P3 runs [4,6) and finishes. */
  lemma Step3(ps: seq<Process>, s: RrState, r: RrState)
    requires IsTrio(ps) && At(s, 4, [2, 1, 2], [2, 0, 1], [0, 0, 0], L2) && Ran(ps, s, r)
    ensures At(r, 6, [2, 1, 0], [0, 1], [0, 0, 6], L3)
  {
    ArrivalsIs(ps, 4, 6, []);
  }

  /** P1 runs [6,8) and finishes. */
  lemma Step4(ps: seq<Process>, s: RrState, r: RrState)
    requires IsTrio(ps) && At(s, 6, [2, 1, 0], [0, 1], [0, 0, 6], L3) && Ran(ps, s, r)
    ensures At(r, 8, [0, 1, 0], [1], [8, 0, 6], L4)
  {
    ArrivalsIs(ps, 6, 8, []);
  }

  /** P2 runs its last unit [8,9). */
  lemma Step5(ps: seq<Process>, s: RrState, r: RrState)
    requires IsTrio(ps) && At(s, 8, [0, 1, 0], [1], [8, 0, 6], L4) && Ran(ps, s, r)
    ensures At(r, 9, [0, 0, 0], [], [8, 9, 6], L5)
  {
    ArrivalsIs(ps, 8, 9, []);
  }

  lemma From5(ps: seq<Process>, s: RrState)
    requires IsTrio(ps) && RrInv(ps, 2, s) && At(s, 8, [0, 1, 0], [1], [8, 0, 6], L4)
    ensures Done(RrLoop(ps, 2, s))
  {
    assert Unfinished(s.rem) > 0 by { UnfinishedExists(s.rem); assert s.rem[1] > 0; }
    RunStep(ps, 2, s);
    var r := RrStep(ps, 2, s);
    Step5(ps, s, r);
    assert Unfinished(r.rem) == 0;
    assert RrLoop(ps, 2, s) == RrLoop(ps, 2, r);
  }

  lemma From4(ps: seq<Process>, s: RrState)
    requires IsTrio(ps) && RrInv(ps, 2, s) && At(s, 6, [2, 1, 0], [0, 1], [0, 0, 6], L3)
    ensures Done(RrLoop(ps, 2, s))
  {
    assert Unfinished(s.rem) > 0 by { UnfinishedExists(s.rem); assert s.rem[1] > 0; }
    RunStep(ps, 2, s);
    var r := RrStep(ps, 2, s);
    Step4(ps, s, r);
    From5(ps, r);
    assert RrLoop(ps, 2, s) == RrLoop(ps, 2, r);
  }

  lemma From3(ps: seq<Process>, s: RrState)
    requires IsTrio(ps) && RrInv(ps, 2, s) && At(s, 4, [2, 1, 2], [2, 0, 1], [0, 0, 0], L2)
    ensures Done(RrLoop(ps, 2, s))
  {
    assert Unfinished(s.rem) > 0 by { UnfinishedExists(s.rem); assert s.rem[1] > 0; }
    RunStep(ps, 2, s);
    var r := RrStep(ps, 2, s);
    Step3(ps, s, r);
    From4(ps, r);
    assert RrLoop(ps, 2, s) == RrLoop(ps, 2, r);
  }

  lemma From2(ps: seq<Process>, s: RrState)
    requires IsTrio(ps) && RrInv(ps, 2, s) && At(s, 2, [2, 3, 2], [1, 2, 0], [0, 0, 0], L1)
    ensures Done(RrLoop(ps, 2, s))
  {
    assert Unfinished(s.rem) > 0 by { UnfinishedExists(s.rem); assert s.rem[1] > 0; }
    RunStep(ps, 2, s);
    var r := RrStep(ps, 2, s);
    Step2(ps, s, r);
    From3(ps, r);
    assert RrLoop(ps, 2, s) == RrLoop(ps, 2, r);
  }

  lemma From1(ps: seq<Process>, s: RrState)
    requires IsTrio(ps) && RrInv(ps, 2, s) && At(s, 0, [4, 3, 2], [0], [0, 0, 0], [])
    ensures Done(RrLoop(ps, 2, s))
  {
    assert Unfinished(s.rem) > 0 by { UnfinishedExists(s.rem); assert s.rem[1] > 0; }
    RunStep(ps, 2, s);
    var r := RrStep(ps, 2, s);
    Step1(ps, s, r);
    From2(ps, r);
    assert RrLoop(ps, 2, s) == RrLoop(ps, 2, r);
  }

  /** The whole run: P1, P2, P3 finish at 8, 9 and 6, and the slice log is
      exactly the five slices above. */
  lemma Trace(ps: seq<Process>)
    requires IsTrio(ps)
    ensures Admissible(ps)
    ensures Done(RrSchedule(ps, 2))
  {
    Start(ps);
    From1(ps, RrStart(ps, 2));
  }

  lemma TraceCompletions(ps: seq<Process>)
    requires IsTrio(ps)
    ensures Admissible(ps)
    ensures var c := RrSchedule(ps, 2).completion;
            |c| == 3 && c[0] == 8 && c[1] == 9 && c[2] == 6
  {
    Trace(ps);
  }

  lemma Numbered(ps: seq<Process>)
    requires IsTrio(ps)
    ensures Admissible(ps) && NumberedInOrder(ps)
  {
  }

  /** A table row reports completion c, turnaround ta and waiting w. */
  predicate Reports(r: Row, c: int, ta: int, w: int) {
    r.completion == c && r.turnaround == ta && r.waiting == w
  }

  /** The table rows follow from the completions by the turnaround and
      waiting formulas. */
  lemma TrioTable(ps: seq<Process>)
    requires Admissible(ps) && NumberedInOrder(ps) && |ps| == 3
    requires ps[0].arrival == 0 && ps[0].burst == 4
    requires ps[1].arrival == 1 && ps[1].burst == 3
    requires ps[2].arrival == 2 && ps[2].burst == 2
    requires var c := RrSchedule(ps, 2).completion; c[0] == 8 && c[1] == 9 && c[2] == 6
    ensures var t := RrTable(ps, 2);
            |t| == 3 && Reports(t[0], 8, 8, 4) && Reports(t[1], 9, 8, 5) && Reports(t[2], 6, 4, 2)
  {
  }

  /** The reported table: P1, P2, P3 finish at 8, 9, 6, turn around in
      8, 8, 4 and wait 4, 5, 2. */
  lemma TraceTable(ps: seq<Process>)
    requires IsTrio(ps)
    ensures Admissible(ps) && NumberedInOrder(ps)
    ensures var t := RrTable(ps, 2);
            |t| == 3 && Reports(t[0], 8, 8, 4) && Reports(t[1], 9, 8, 5) && Reports(t[2], 6, 4, 2)
  {
    Numbered(ps);
    TraceCompletions(ps);
    TrioTable(ps);
  }
}
