/**
 Preemptive round robin (`round_robin`). The requests keep their input
 order. A FIFO queue starts with the requests arriving at time 0. With the
 queue empty the clock ticks by one and the requests arriving exactly then
 join it; otherwise its head runs for min(quantum, remaining), every
 request that has arrived by the new clock, still has work, is neither
 queued nor the one just run is appended in index order, and then the head
 either finishes (its completion time is the clock) or goes back to the
 tail. `last_added` records the clock at which each request was last
 appended, and a request is not appended twice at the same clock.
 */
module RoundRobin {
  import opened Processes
  import opened Dispatch
  import opened Report

  /** The loop variables of `round_robin`, plus the slices executed so far. */
  datatype RrState = RrState(
    time: int,
    rem: seq<int>,
    queue: seq<nat>,
    completion: seq<int>,
    lastAdded: seq<int>,
    log: seq<Slice>)

  function Min(a: int, b: int): int {
    if a <= b then a else b
  }

  /** Total CPU time the slices in `log` gave request i. */
  function SliceTotal(log: seq<Slice>, i: nat): int
    decreases |log|
  {
    if log == [] then 0
    else
      var x := log[|log| - 1];
      SliceTotal(log[..|log| - 1], i) + (if x.index == i then x.end - x.start else 0)
  }

  lemma SliceTotalAppend(log: seq<Slice>, x: Slice, i: nat)
    ensures SliceTotal(log + [x], i) == SliceTotal(log, i) + (if x.index == i then x.end - x.start else 0)
  {
    assert (log + [x])[..|log|] == log;
  }

  predicate Shape(ps: seq<Process>, s: RrState) {
    && |s.rem| == |ps| && |s.completion| == |ps| && |s.lastAdded| == |ps|
    && s.time >= 0
  }

  /** The queue holds distinct requests that have arrived and still have
      work, and every such request is queued. */
  predicate QueueOk(ps: seq<Process>, s: RrState) {
    && |s.rem| == |ps|
    && Distinct(s.queue)
    && (forall a :: 0 <= a < |s.queue| ==> Eligible(ps, s.rem, s.time, s.queue[a]))
    && (forall i :: 0 <= i < |ps| && Eligible(ps, s.rem, s.time, i) ==> i in s.queue)
  }

  /** Per request: remaining time lies in [0, burst]; a request that has not
      arrived is untouched; the service it received fits between its
      arrival and the clock; a finished one completed after arrival plus
      burst, by the clock; an unfinished one has no completion yet; and it
      was last appended no later than now. */
  predicate WorkOk(ps: seq<Process>, s: RrState) {
    && Shape(ps, s)
    && forall i :: 0 <= i < |ps| ==>
         && 0 <= s.rem[i] <= ps[i].burst
         && s.lastAdded[i] <= s.time
         && (s.time < ps[i].arrival ==> s.rem[i] == ps[i].burst)
         && (ps[i].arrival <= s.time ==> ps[i].burst - s.rem[i] <= s.time - ps[i].arrival)
         && (s.rem[i] == 0 ==> ps[i].arrival + ps[i].burst <= s.completion[i] <= s.time)
         && (s.rem[i] > 0 ==> s.completion[i] == 0)
  }

  /** One executed slice: a request that had arrived, run for between 1 and
      `quantum` units, over by the clock; if the request is finished, the
      slice ended by its completion time. */
  predicate SliceOk(ps: seq<Process>, quantum: int, s: RrState, x: Slice)
    requires Shape(ps, s)
  {
    && x.index < |ps|
    && ps[x.index].arrival <= x.start < x.end <= x.start + quantum
    && x.end <= s.time
    && (s.rem[x.index] == 0 ==> x.end <= s.completion[x.index])
  }

  /** Some slice of request i in `log` ends at time t. */
  predicate EndsAt(log: seq<Slice>, i: nat, t: int) {
    exists a :: 0 <= a < |log| && log[a].index == i && log[a].end == t
  }

  /** The timeline: the slices of each request add up to the service it
      received, slices follow one another without overlap, and a finished
      request's completion time is the end of one of its slices. */
  predicate LogOk(ps: seq<Process>, quantum: int, s: RrState)
    requires Shape(ps, s)
  {
    && (forall i :: 0 <= i < |ps| ==> SliceTotal(s.log, i) == ps[i].burst - s.rem[i])
    && (forall a :: 0 <= a < |s.log| ==> SliceOk(ps, quantum, s, s.log[a]))
    && (forall a, b :: 0 <= a < b < |s.log| ==> s.log[a].end <= s.log[b].start)
    && (forall i :: 0 <= i < |ps| && s.rem[i] == 0 ==>
          EndsAt(s.log, i, s.completion[i]))
  }

  /** Everything but the timeline. */
  predicate Core(ps: seq<Process>, quantum: int, s: RrState) {
    && Admissible(ps) && quantum > 0
    && Shape(ps, s) && QueueOk(ps, s) && WorkOk(ps, s)
  }

  predicate RrInv(ps: seq<Process>, quantum: int, s: RrState) {
    Core(ps, quantum, s) && LogOk(ps, quantum, s)
  }

  /** `last_added[i] = time` for every request appended by a scan. */
  function Stamp(lastAdded: seq<int>, added: seq<nat>, t: int): (r: seq<int>)
    ensures |r| == |lastAdded|
    ensures forall i :: 0 <= i < |r| ==> r[i] == (if i in added then t else lastAdded[i])
  {
    seq(|lastAdded|, i requires 0 <= i < |lastAdded| => if i in added then t else lastAdded[i])
  }

  /** The test of the scan after an idle tick to clock t. */
  function IdleWant(ps: seq<Process>, s: RrState, t: int): (want: seq<bool>)
    requires Shape(ps, s)
    ensures |want| == |ps|
    ensures forall i :: 0 <= i < |ps| ==>
              (want[i] <==> ps[i].arrival == t && s.rem[i] > 0 && s.lastAdded[i] != t)
  {
    seq(|ps|, i requires 0 <= i < |ps| => ps[i].arrival == t && s.rem[i] > 0 && s.lastAdded[i] != t)
  }

  /** The test of the scan after request `cur` ran up to clock t, leaving
      remaining times `rem`. */
  function RunWant(ps: seq<Process>, rem: seq<int>, lastAdded: seq<int>, t: int, cur: nat): (want: seq<bool>)
    requires |rem| == |ps| && |lastAdded| == |ps|
    ensures |want| == |ps|
    ensures forall i :: 0 <= i < |ps| ==>
              (want[i] <==> ps[i].arrival <= t && rem[i] > 0 && i != cur && lastAdded[i] != t)
  {
    seq(|ps|, i requires 0 <= i < |ps| => ps[i].arrival <= t && rem[i] > 0 && i != cur && lastAdded[i] != t)
  }

  // ---------------------------------------------------------------------
  // The idle branch

  function IdleResult(ps: seq<Process>, s: RrState): RrState
    requires Shape(ps, s)
  {
    var t := s.time + 1;
    var q := Admit([], IdleWant(ps, s, t), 0);
    RrState(t, s.rem, q, s.completion, Stamp(s.lastAdded, q, t), s.log)
  }

  /** After an idle tick the queue holds exactly the requests arriving at
      the new clock, in index order. */
  lemma IdleQueue(ps: seq<Process>, quantum: int, s: RrState)
    requires RrInv(ps, quantum, s) && s.queue == []
    ensures var r := IdleResult(ps, s);
            && QueueOk(ps, r)
            && (forall x :: x in r.queue <==> 0 <= x < |ps| && ps[x].arrival == r.time)
            && (forall a, b :: 0 <= a < b < |r.queue| ==> r.queue[a] < r.queue[b])
  {
    var r := IdleResult(ps, s);
    var want := IdleWant(ps, s, r.time);
    forall x | 0 <= x < |ps| && ps[x].arrival == r.time
      ensures x in r.queue
    {
      assert want[x];
    }
    forall i | 0 <= i < |ps| && Eligible(ps, r.rem, r.time, i)
      ensures i in r.queue
    {
      assert !Eligible(ps, s.rem, s.time, i);
    }
  }

  /** Advancing the clock without running anything keeps the per-request
      facts and the timeline. */
  lemma TickKeeps(ps: seq<Process>, quantum: int, s: RrState, r: RrState)
    requires Shape(ps, s) && Shape(ps, r) && WorkOk(ps, s) && LogOk(ps, quantum, s)
    requires r.rem == s.rem && r.completion == s.completion && r.log == s.log && r.time == s.time + 1
    requires forall i :: 0 <= i < |ps| ==> r.lastAdded[i] <= r.time
    ensures WorkOk(ps, r) && LogOk(ps, quantum, r)
  {
  }

  lemma IdleKeeps(ps: seq<Process>, quantum: int, s: RrState)
    requires RrInv(ps, quantum, s) && s.queue == []
    ensures RrInv(ps, quantum, IdleResult(ps, s))
  {
    var r := IdleResult(ps, s);
    IdleQueue(ps, quantum, s);
    TickKeeps(ps, quantum, s, r);
  }

  /** The idle branch: the clock ticks by one, and the requests arriving
      exactly then join the queue in index order; nothing else changes. Some
      request is still to arrive, so ticking cannot go on forever. */
  function RrIdle(ps: seq<Process>, quantum: int, s: RrState): (r: RrState)
    requires RrInv(ps, quantum, s) && s.queue == [] && Unfinished(s.rem) > 0
    ensures RrInv(ps, quantum, r)
    ensures r.time == s.time + 1 && s.time < MaxArrival(ps)
    ensures r.rem == s.rem && r.completion == s.completion && r.log == s.log
    ensures r.queue == Arrivals(ps, s.time, r.time)
  {
    IdleKeeps(ps, quantum, s);
    IdleQueue(ps, quantum, s);
    IncreasingUnique(IdleResult(ps, s).queue, Arrivals(ps, s.time, s.time + 1));
    assert !AnyEligible(ps, s.rem, s.time);
    PendingArrival(ps, s.time, s.rem);
    IdleResult(ps, s)
  }

  /** An idle stretch ends exactly at the earliest arrival among the
      requests with work left: ticking from an empty queue leaves the queue
      empty until the clock reaches that arrival. */
  lemma RrIdleGap(ps: seq<Process>, quantum: int, s: RrState)
    requires RrInv(ps, quantum, s) && s.queue == [] && Unfinished(s.rem) > 0
    ensures s.time < NextArrival(ps, s.rem)
    ensures RrIdle(ps, quantum, s).queue != [] <==> s.time + 1 == NextArrival(ps, s.rem)
  {
    var r := RrIdle(ps, quantum, s);
    var na := NextArrival(ps, s.rem);
    assert !AnyEligible(ps, s.rem, s.time);
    NextArrivalAhead(ps, s.rem, s.time);
    if r.queue != [] {
      var x := r.queue[0];
      assert ps[x].arrival == s.time + 1 && s.rem[x] > 0;
    }
    if s.time + 1 == na {
      var w :| 0 <= w < |ps| && s.rem[w] > 0 && ps[w].arrival == na;
      assert w in r.queue;
    }
  }

  // ---------------------------------------------------------------------
  // The running branch

  /** The queue head, the time it runs, and the clock afterwards. */
  function Head(s: RrState): nat
    requires s.queue != []
  {
    s.queue[0]
  }

  function Run(ps: seq<Process>, quantum: int, s: RrState): int
    requires Shape(ps, s) && s.queue != [] && Head(s) < |ps|
  {
    Min(quantum, s.rem[Head(s)])
  }

  /** The queue after the scan and before the head is re-appended. */
  function Scanned(ps: seq<Process>, quantum: int, s: RrState): seq<nat>
    requires Shape(ps, s) && s.queue != [] && Head(s) < |ps|
  {
    var cur := Head(s);
    var t := s.time + Run(ps, quantum, s);
    var rem := s.rem[cur := s.rem[cur] - Run(ps, quantum, s)];
    Admit(s.queue[1..], RunWant(ps, rem, s.lastAdded, t, cur), 0)
  }

  function RunResult(ps: seq<Process>, quantum: int, s: RrState): RrState
    requires Shape(ps, s) && s.queue != [] && Head(s) < |ps|
  {
    var cur := Head(s);
    var e := Run(ps, quantum, s);
    var t := s.time + e;
    var rem := s.rem[cur := s.rem[cur] - e];
    var q := Scanned(ps, quantum, s);
    var la := Stamp(s.lastAdded, q[|s.queue| - 1..], t);
    var log := s.log + [Slice(cur, s.time, t)];
    if rem[cur] == 0 then RrState(t, rem, q, s.completion[cur := t], la, log)
    else RrState(t, rem, q + [cur], s.completion, la, log)
  }

  /** The requests that were waiting behind the head: distinct, and the
      head is not among them. */
  lemma RestFacts(s: RrState)
    requires s.queue != [] && Distinct(s.queue)
    ensures Distinct(s.queue[1..]) && Head(s) !in s.queue[1..]
    ensures s.queue == [Head(s)] + s.queue[1..]
  {
    var rest := s.queue[1..];
    forall a | 0 <= a < |rest|
      ensures rest[a] != Head(s)
    {
      assert rest[a] == s.queue[a + 1];
    }
  }

  /** The scan keeps the waiting requests in front, adds no duplicate and
      never adds the head. */
  lemma RunScanShape(ps: seq<Process>, quantum: int, s: RrState)
    requires Core(ps, quantum, s) && s.queue != []
    ensures var q := Scanned(ps, quantum, s);
            var rest := s.queue[1..];
            && Distinct(q) && Head(s) !in q
            && |q| >= |rest| && q[..|rest|] == rest
            && (forall a, b :: |rest| <= a < b < |q| ==> q[a] < q[b])
  {
    assert Eligible(ps, s.rem, s.time, Head(s));
    RestFacts(s);
  }

  /** A request appended by the scan arrived during the slice. */
  lemma NewcomerArrivedDuringSlice(ps: seq<Process>, quantum: int, s: RrState, x: nat)
    requires Core(ps, quantum, s) && s.queue != []
    requires x in Scanned(ps, quantum, s)[|s.queue| - 1..]
    ensures x < |ps| && s.time < ps[x].arrival <= s.time + Run(ps, quantum, s)
  {
    var cur := Head(s);
    var e := Run(ps, quantum, s);
    var t := s.time + e;
    var rem := s.rem[cur := s.rem[cur] - e];
    var rest := s.queue[1..];
    var want := RunWant(ps, rem, s.lastAdded, t, cur);
    assert Eligible(ps, s.rem, s.time, cur);
    RestFacts(s);
    AdmitAppends(rest, want);
    assert 0 <= x < |ps| && want[x] && x !in rest && x != cur;
    assert x !in s.queue;
    assert !Eligible(ps, s.rem, s.time, x);
    assert s.rem[x] == rem[x] > 0;
  }

  /** A request that arrived during the slice is appended by the scan. */
  lemma ArrivalDuringSliceAppended(ps: seq<Process>, quantum: int, s: RrState, x: nat)
    requires Core(ps, quantum, s) && s.queue != []
    requires x < |ps| && s.time < ps[x].arrival <= s.time + Run(ps, quantum, s)
    ensures x in Scanned(ps, quantum, s)[|s.queue| - 1..]
  {
    var cur := Head(s);
    var e := Run(ps, quantum, s);
    var t := s.time + e;
    var rem := s.rem[cur := s.rem[cur] - e];
    var rest := s.queue[1..];
    var want := RunWant(ps, rem, s.lastAdded, t, cur);
    assert Eligible(ps, s.rem, s.time, cur);
    assert x != cur;
    assert x !in rest by {
      if x in rest {
        assert false;
      }
    }
    assert want[x];
    AdmitAppends(rest, want);
  }

  /** The requests the scan appended behind the ones that were waiting. */
  function Newcomers(ps: seq<Process>, quantum: int, s: RrState): seq<nat>
    requires Shape(ps, s) && s.queue != [] && Head(s) < |ps|
    requires |Scanned(ps, quantum, s)| >= |s.queue| - 1
  {
    Scanned(ps, quantum, s)[|s.queue| - 1..]
  }

  /** A list that starts with `rest` and increases after it is `rest`
      followed by an increasing tail. */
  lemma SplitAfter(q: seq<nat>, rest: seq<nat>)
    requires |q| >= |rest| && q[..|rest|] == rest
    requires forall a, b :: |rest| <= a < b < |q| ==> q[a] < q[b]
    ensures q == rest + q[|rest|..] && Increasing(q[|rest|..])
  {
    var tail := q[|rest|..];
    forall a, b | 0 <= a < b < |tail|
      ensures tail[a] < tail[b]
    {
      assert tail[a] == q[|rest| + a] && tail[b] == q[|rest| + b];
    }
    assert q == q[..|rest|] + tail;
  }

  /** The scan keeps the waiting requests in front of the newcomers, which
      are in index order. */
  lemma ScannedSplit(ps: seq<Process>, quantum: int, s: RrState)
    requires Core(ps, quantum, s) && s.queue != []
    ensures |Scanned(ps, quantum, s)| >= |s.queue| - 1
    ensures Scanned(ps, quantum, s) == s.queue[1..] + Newcomers(ps, quantum, s)
    ensures Increasing(Newcomers(ps, quantum, s))
  {
    RunScanShape(ps, quantum, s);
    SplitAfter(Scanned(ps, quantum, s), s.queue[1..]);
  }

  /** The scan after a slice appends exactly the requests that arrived
      during it. */
  lemma RunNewcomers(ps: seq<Process>, quantum: int, s: RrState)
    requires Core(ps, quantum, s) && s.queue != []
    requires |Scanned(ps, quantum, s)| >= |s.queue| - 1
    ensures forall x :: x in Newcomers(ps, quantum, s) <==> x in Arrivals(ps, s.time, s.time + Run(ps, quantum, s))
  {
    var t := s.time + Run(ps, quantum, s);
    forall x
      ensures x in Newcomers(ps, quantum, s) <==> 0 <= x < |ps| && s.time < ps[x].arrival <= t
    {
      if x in Newcomers(ps, quantum, s) {
        NewcomerArrivedDuringSlice(ps, quantum, s, x);
      }
      if 0 <= x < |ps| && s.time < ps[x].arrival <= t {
        ArrivalDuringSliceAppended(ps, quantum, s, x);
      }
    }
  }

  /** The queue after the scan: the requests that were waiting, then the
      ones that arrived during the slice, in index order. */
  lemma ScannedIs(ps: seq<Process>, quantum: int, s: RrState)
    requires Core(ps, quantum, s) && s.queue != []
    ensures Scanned(ps, quantum, s) == s.queue[1..] + Arrivals(ps, s.time, s.time + Run(ps, quantum, s))
  {
    ScannedSplit(ps, quantum, s);
    RunNewcomers(ps, quantum, s);
    IncreasingUnique(Newcomers(ps, quantum, s), Arrivals(ps, s.time, s.time + Run(ps, quantum, s)));
  }

  /** A request in the queue after the running branch is eligible. */
  lemma QueuedEligible(ps: seq<Process>, quantum: int, s: RrState, x: nat)
    requires Core(ps, quantum, s) && s.queue != []
    requires x in RunResult(ps, quantum, s).queue
    ensures var r := RunResult(ps, quantum, s);
            Eligible(ps, r.rem, r.time, x)
  {
    var r := RunResult(ps, quantum, s);
    var cur := Head(s);
    var rest := s.queue[1..];
    var q := Scanned(ps, quantum, s);
    var want := RunWant(ps, r.rem, s.lastAdded, r.time, cur);
    assert Eligible(ps, s.rem, s.time, cur);
    if x != cur {
      assert x in q;
      AdmitAppends(rest, want);
      if x in rest {
        assert x in s.queue;
        RestFacts(s);
        assert Eligible(ps, s.rem, s.time, x);
      } else {
        assert want[x];
      }
    }
  }

  /** Every request in the queue after the running branch is eligible. */
  lemma RunQueueMembers(ps: seq<Process>, quantum: int, s: RrState)
    requires Core(ps, quantum, s) && s.queue != []
    ensures var r := RunResult(ps, quantum, s);
            forall a :: 0 <= a < |r.queue| ==> Eligible(ps, r.rem, r.time, r.queue[a])
  {
    var r := RunResult(ps, quantum, s);
    forall a | 0 <= a < |r.queue|
      ensures Eligible(ps, r.rem, r.time, r.queue[a])
    {
      QueuedEligible(ps, quantum, s, r.queue[a]);
    }
  }

  /** Every eligible request is in the queue after the running branch. */
  lemma RunQueueComplete(ps: seq<Process>, quantum: int, s: RrState)
    requires Core(ps, quantum, s) && s.queue != []
    ensures var r := RunResult(ps, quantum, s);
            forall i :: 0 <= i < |ps| && Eligible(ps, r.rem, r.time, i) ==> i in r.queue
  {
    var r := RunResult(ps, quantum, s);
    var cur := Head(s);
    var rest := s.queue[1..];
    var q := Scanned(ps, quantum, s);
    var want := RunWant(ps, r.rem, s.lastAdded, r.time, cur);
    assert Eligible(ps, s.rem, s.time, cur);
    RunScanShape(ps, quantum, s);
    forall i | 0 <= i < |ps| && Eligible(ps, r.rem, r.time, i)
      ensures i in r.queue
    {
      if i == cur {
        assert r.queue == q + [cur];
      } else if i in rest {
        assert q == q[..|rest|] + q[|rest|..];
      } else {
        assert want[i];
        AdmitAppends(rest, want);
      }
    }
  }

  lemma RunQueue(ps: seq<Process>, quantum: int, s: RrState)
    requires Core(ps, quantum, s) && s.queue != []
    ensures QueueOk(ps, RunResult(ps, quantum, s))
  {
    var r := RunResult(ps, quantum, s);
    RunScanShape(ps, quantum, s);
    RunQueueMembers(ps, quantum, s);
    RunQueueComplete(ps, quantum, s);
    assert Distinct(r.queue) by {
      var q := Scanned(ps, quantum, s);
      if r.rem[Head(s)] > 0 {
        assert r.queue == q + [Head(s)];
      }
    }
  }

  lemma RunWork(ps: seq<Process>, quantum: int, s: RrState)
    requires Core(ps, quantum, s) && s.queue != []
    ensures WorkOk(ps, RunResult(ps, quantum, s))
  {
    var r := RunResult(ps, quantum, s);
    var cur := Head(s);
    assert Eligible(ps, s.rem, s.time, cur);
  }

  /** Appending a slice to a log whose totals match the work done keeps
      them matching, once the slice's length is taken off its request. */
  lemma AppendTotals(ps: seq<Process>, log: seq<Slice>, x: Slice, e: int, rem: seq<int>, rem': seq<int>)
    requires |rem| == |ps| && x.index < |ps| && x.end - x.start == e
    requires forall i :: 0 <= i < |ps| ==> SliceTotal(log, i) == ps[i].burst - rem[i]
    requires rem' == rem[x.index := rem[x.index] - e]
    ensures forall i :: 0 <= i < |ps| ==> SliceTotal(log + [x], i) == ps[i].burst - rem'[i]
  {
    forall i | 0 <= i < |ps|
      ensures SliceTotal(log + [x], i) == ps[i].burst - rem'[i]
    {
      SliceTotalAppend(log, x, i);
    }
  }

  /** The slice totals after the running branch. */
  lemma RunLogTotals(ps: seq<Process>, quantum: int, s: RrState)
    requires Shape(ps, s) && quantum > 0
    requires s.queue != [] && Head(s) < |ps| && s.rem[Head(s)] > 0
    requires forall i :: 0 <= i < |ps| ==> SliceTotal(s.log, i) == ps[i].burst - s.rem[i]
    ensures var r := RunResult(ps, quantum, s);
            forall i :: 0 <= i < |ps| ==> SliceTotal(r.log, i) == ps[i].burst - r.rem[i]
  {
    var cur := Head(s);
    RunSlice(ps, quantum, s);
    var r := RunResult(ps, quantum, s);
    AppendTotals(ps, s.log, Slice(cur, s.time, r.time), Min(quantum, s.rem[cur]), s.rem, r.rem);
  }

  /** Appending a slice that starts at the old clock and ends at the new
      one keeps every slice well placed and the slices in sequence, provided
      a request that finishes now completes at the new clock. */
  lemma AppendSliceOk(ps: seq<Process>, quantum: int, s: RrState, r: RrState, x: Slice)
    requires Shape(ps, s) && Shape(ps, r)
    requires forall a :: 0 <= a < |s.log| ==> SliceOk(ps, quantum, s, s.log[a])
    requires forall a, b :: 0 <= a < b < |s.log| ==> s.log[a].end <= s.log[b].start
    requires x.index < |ps| && ps[x.index].arrival <= x.start < x.end <= x.start + quantum
    requires x.start == s.time && x.end == r.time && r.log == s.log + [x] && s.rem[x.index] > 0
    requires forall i :: 0 <= i < |ps| && r.rem[i] == 0 ==>
               || (s.rem[i] == 0 && r.completion[i] == s.completion[i])
               || r.completion[i] == r.time
    ensures forall a :: 0 <= a < |r.log| ==> SliceOk(ps, quantum, r, r.log[a])
    ensures forall a, b :: 0 <= a < b < |r.log| ==> r.log[a].end <= r.log[b].start
  {
    forall a | 0 <= a < |r.log|
      ensures SliceOk(ps, quantum, r, r.log[a])
    {
      if a < |s.log| {
        assert r.log[a] == s.log[a] && SliceOk(ps, quantum, s, s.log[a]);
      } else {
        assert r.log[a] == x;
      }
    }
    forall a, b | 0 <= a < b < |r.log|
      ensures r.log[a].end <= r.log[b].start
    {
      assert r.log[a] == s.log[a] && SliceOk(ps, quantum, s, s.log[a]);
      if b == |s.log| {
        assert r.log[b] == x;
      } else {
        assert r.log[b] == s.log[b];
      }
    }
  }

  /** The running branch records the head's completion time exactly when
      the head finishes. */
  lemma RunCompletion(ps: seq<Process>, quantum: int, s: RrState)
    requires Shape(ps, s) && s.queue != [] && Head(s) < |ps|
    ensures var r := RunResult(ps, quantum, s);
            && (r.rem[Head(s)] == 0 ==> r.completion == s.completion[Head(s) := r.time])
            && (r.rem[Head(s)] != 0 ==> r.completion == s.completion)
  {
  }

  /** The slices after the running branch are each well placed and follow
      one another. */
  lemma RunLogSlices(ps: seq<Process>, quantum: int, s: RrState)
    requires RrInv(ps, quantum, s) && s.queue != []
    ensures var r := RunResult(ps, quantum, s);
            && Shape(ps, r)
            && (forall a :: 0 <= a < |r.log| ==> SliceOk(ps, quantum, r, r.log[a]))
            && (forall a, b :: 0 <= a < b < |r.log| ==> r.log[a].end <= r.log[b].start)
  {
    var r := RunResult(ps, quantum, s);
    var cur := Head(s);
    assert Eligible(ps, s.rem, s.time, cur);
    RunSlice(ps, quantum, s);
    RunCompletion(ps, quantum, s);
    AppendSliceOk(ps, quantum, s, r, Slice(cur, s.time, r.time));
  }

  lemma EndsAtAppend(log: seq<Slice>, x: Slice, i: nat, t: int)
    requires EndsAt(log, i, t)
    ensures EndsAt(log + [x], i, t)
  {
    var a :| 0 <= a < |log| && log[a].index == i && log[a].end == t;
    assert (log + [x])[a] == log[a];
  }

  lemma EndsAtLast(log: seq<Slice>, x: Slice)
    ensures EndsAt(log + [x], x.index, x.end)
  {
    assert (log + [x])[|log|] == x;
  }

  /** A request finished after the running branch completed at the end of
      one of its slices. */
  lemma RunLogCompletion(ps: seq<Process>, quantum: int, s: RrState)
    requires RrInv(ps, quantum, s) && s.queue != []
    ensures var r := RunResult(ps, quantum, s);
            forall i :: 0 <= i < |ps| && r.rem[i] == 0 ==>
              EndsAt(r.log, i, r.completion[i])
  {
    var r := RunResult(ps, quantum, s);
    var cur := Head(s);
    assert Eligible(ps, s.rem, s.time, cur);
    RunSlice(ps, quantum, s);
    RunCompletion(ps, quantum, s);
    var x := Slice(cur, s.time, r.time);
    forall i | 0 <= i < |ps| && r.rem[i] == 0
      ensures EndsAt(r.log, i, r.completion[i])
    {
      if i == cur {
        EndsAtLast(s.log, x);
      } else {
        EndsAtAppend(s.log, x, i, s.completion[i]);
      }
    }
  }

  lemma RunLog(ps: seq<Process>, quantum: int, s: RrState)
    requires RrInv(ps, quantum, s) && s.queue != []
    ensures Shape(ps, RunResult(ps, quantum, s)) && LogOk(ps, quantum, RunResult(ps, quantum, s))
  {
    assert Eligible(ps, s.rem, s.time, Head(s));
    RunLogTotals(ps, quantum, s);
    RunLogSlices(ps, quantum, s);
    RunLogCompletion(ps, quantum, s);
  }

  lemma RunTotal(ps: seq<Process>, quantum: int, s: RrState)
    requires RrInv(ps, quantum, s) && s.queue != []
    ensures var r := RunResult(ps, quantum, s);
            0 <= TotalRemaining(r.rem) < TotalRemaining(s.rem)
  {
    var r := RunResult(ps, quantum, s);
    var cur := Head(s);
    assert Eligible(ps, s.rem, s.time, cur);
    TotalRemainingUpdate(s.rem, cur, r.rem[cur]);
    TotalRemainingNonNegative(r.rem);
  }

  /** The running branch. */
  function RrRun(ps: seq<Process>, quantum: int, s: RrState): (r: RrState)
    requires RrInv(ps, quantum, s) && s.queue != []
    ensures RrInv(ps, quantum, r)
    ensures 0 <= TotalRemaining(r.rem) < TotalRemaining(s.rem)
  {
    RunQueue(ps, quantum, s);
    RunWork(ps, quantum, s);
    RunLog(ps, quantum, s);
    RunTotal(ps, quantum, s);
    RunResult(ps, quantum, s)
  }

  /** The running branch runs the queue head for min(quantum, remaining),
      between 1 and `quantum` units: the clock advances by that much, the
      head's remaining time drops by that much without going negative, and
      the slice is logged. */
  lemma RunSlice(ps: seq<Process>, quantum: int, s: RrState)
    requires Shape(ps, s) && quantum > 0
    requires s.queue != [] && Head(s) < |ps| && s.rem[Head(s)] > 0
    ensures var r := RunResult(ps, quantum, s);
            var cur := s.queue[0];
            var e := Min(quantum, s.rem[cur]);
            && 1 <= e <= quantum
            && r.time == s.time + e
            && r.rem == s.rem[cur := s.rem[cur] - e] && r.rem[cur] >= 0
            && r.log == s.log + [Slice(cur, s.time, r.time)]
  {
  }

  /** After the slice, the requests that arrived meanwhile are appended in
      index order after those that were waiting; then the head either
      finishes, with its completion time the clock and never queued again,
      or goes back to the tail. */
  lemma RunQueueOrder(ps: seq<Process>, quantum: int, s: RrState)
    requires Core(ps, quantum, s) && s.queue != []
    ensures var r := RunResult(ps, quantum, s);
            var cur := s.queue[0];
            && r.queue == s.queue[1..] + Arrivals(ps, s.time, r.time) + (if r.rem[cur] > 0 then [cur] else [])
            && (r.rem[cur] == 0 ==> r.completion == s.completion[cur := r.time] && cur !in r.queue)
            && (r.rem[cur] > 0 ==> r.completion == s.completion)
  {
    RunScanShape(ps, quantum, s);
    ScannedIs(ps, quantum, s);
  }

  // ---------------------------------------------------------------------
  // The loop

  /** One iteration of `while completed < n`. */
  function RrStep(ps: seq<Process>, quantum: int, s: RrState): (r: RrState)
    requires RrInv(ps, quantum, s) && Unfinished(s.rem) > 0
    ensures RrInv(ps, quantum, r)
    ensures || 0 <= TotalRemaining(r.rem) < TotalRemaining(s.rem)
            || (TotalRemaining(r.rem) == TotalRemaining(s.rem) && r.time == s.time + 1 && s.time < MaxArrival(ps))
  {
    if s.queue == [] then RrIdle(ps, quantum, s) else RrRun(ps, quantum, s)
  }

  /** An iteration with a non-empty queue: the head runs for
      min(quantum, remaining) from the current time, the requests that
      arrived meanwhile join the queue in index order, and then the head
      either finishes at the new time or rejoins at the tail. */
  lemma RunStep(ps: seq<Process>, quantum: int, s: RrState)
    requires RrInv(ps, quantum, s) && Unfinished(s.rem) > 0 && s.queue != []
    ensures var r := RrStep(ps, quantum, s);
            var cur := s.queue[0];
            && r.time == s.time + Min(quantum, s.rem[cur])
            && r.rem == s.rem[cur := s.rem[cur] - Min(quantum, s.rem[cur])]
            && r.log == s.log + [Slice(cur, s.time, r.time)]
            && r.queue == s.queue[1..] + Arrivals(ps, s.time, r.time) + (if r.rem[cur] > 0 then [cur] else [])
            && (r.rem[cur] == 0 ==> r.completion == s.completion[cur := r.time])
            && (r.rem[cur] > 0 ==> r.completion == s.completion)
  {
    assert Eligible(ps, s.rem, s.time, s.queue[0]);
    RunSlice(ps, quantum, s);
    RunQueueOrder(ps, quantum, s);
  }

  /** The loop, run until every request is finished. */
  function RrLoop(ps: seq<Process>, quantum: int, s: RrState): (r: RrState)
    requires RrInv(ps, quantum, s)
    ensures RrInv(ps, quantum, r) && Unfinished(r.rem) == 0
    decreases TotalRemaining(s.rem), MaxArrival(ps) - s.time
  {
    if Unfinished(s.rem) == 0 then s else RrLoop(ps, quantum, RrStep(ps, quantum, s))
  }

  /** The state an idle stretch ending at clock t leads to: the clock at t,
      the requests that arrived since queued in index order, and their
      `last_added` stamped with t. */
  function Jumped(ps: seq<Process>, s: RrState, t: int): RrState {
    var q := Arrivals(ps, s.time, t);
    s.(time := t, queue := q, lastAdded := Stamp(s.lastAdded, q, t))
  }

  /** An idle tick is a jump by one unit. */
  lemma IdleIsJump(ps: seq<Process>, quantum: int, s: RrState)
    requires RrInv(ps, quantum, s) && s.queue == [] && Unfinished(s.rem) > 0
    ensures RrIdle(ps, quantum, s) == Jumped(ps, s, s.time + 1)
  {
  }

  /** Jumping to t when nobody arrives in (s.time, t], then on to u, is one
      jump to u. */
  lemma JumpTwice(ps: seq<Process>, s: RrState, t: int, u: int)
    requires s.time <= t <= u && Arrivals(ps, s.time, t) == []
    ensures Jumped(ps, Jumped(ps, s, t), u) == Jumped(ps, s, u)
  {
    var m := Jumped(ps, s, t);
    assert m.lastAdded == s.lastAdded;
    assert forall x :: 0 <= x < |ps| && s.time < ps[x].arrival <= u ==> t < ps[x].arrival;
    IncreasingUnique(Arrivals(ps, t, u), Arrivals(ps, s.time, u));
  }

  /** With an empty queue, the loop goes on from the idle tick. */
  lemma LoopIdle(ps: seq<Process>, quantum: int, s: RrState)
    requires RrInv(ps, quantum, s) && s.queue == [] && Unfinished(s.rem) > 0
    ensures RrLoop(ps, quantum, s) == RrLoop(ps, quantum, RrIdle(ps, quantum, s))
  {
    assert RrStep(ps, quantum, s) == RrIdle(ps, quantum, s);
  }

  /** The idle branch repeated until some request has joined the queue. */
  function IdleUntil(ps: seq<Process>, quantum: int, s: RrState): (r: RrState)
    requires RrInv(ps, quantum, s) && s.queue == [] && Unfinished(s.rem) > 0
    ensures RrInv(ps, quantum, r) && r.queue != []
    decreases NextArrival(ps, s.rem) - s.time
  {
    RrIdleGap(ps, quantum, s);
    var r := RrIdle(ps, quantum, s);
    if r.queue != [] then r else IdleUntil(ps, quantum, r)
  }

  /** The ticks stop exactly at the earliest pending arrival, with the
      requests arriving then queued in index order and stamped. */
  lemma {:induction false} IdleUntilIsJump(ps: seq<Process>, quantum: int, s: RrState)
    requires RrInv(ps, quantum, s) && s.queue == [] && Unfinished(s.rem) > 0
    ensures s.time < NextArrival(ps, s.rem)
    ensures IdleUntil(ps, quantum, s) == Jumped(ps, s, NextArrival(ps, s.rem))
    decreases NextArrival(ps, s.rem) - s.time
  {
    var na := NextArrival(ps, s.rem);
    RrIdleGap(ps, quantum, s);
    IdleIsJump(ps, quantum, s);
    var r := RrIdle(ps, quantum, s);
    if r.queue == [] {
      assert IdleUntil(ps, quantum, s) == IdleUntil(ps, quantum, r);
      IdleUntilIsJump(ps, quantum, r);
      JumpChain(ps, s, r, IdleUntil(ps, quantum, r), na);
    }
  }

  /** Two jumps through a stretch with no arrival in its first unit. */
  lemma JumpChain(ps: seq<Process>, s: RrState, r: RrState, x: RrState, na: int)
    requires r == Jumped(ps, s, s.time + 1) && r.queue == [] && s.time + 1 <= na
    requires x == Jumped(ps, r, na)
    ensures x == Jumped(ps, s, na)
  {
    JumpTwice(ps, s, s.time + 1, na);
  }

  /** Ticking one unit at a time through an idle stretch gives the same run
      as going straight to the state at its end. */
  lemma {:induction false} RrIdleJump(ps: seq<Process>, quantum: int, s: RrState)
    requires RrInv(ps, quantum, s) && s.queue == [] && Unfinished(s.rem) > 0
    ensures RrLoop(ps, quantum, s) == RrLoop(ps, quantum, IdleUntil(ps, quantum, s))
    decreases NextArrival(ps, s.rem) - s.time
  {
    RrIdleGap(ps, quantum, s);
    LoopIdle(ps, quantum, s);
    var r := RrIdle(ps, quantum, s);
    if r.queue == [] {
      RrIdleJump(ps, quantum, r);
    }
  }

  /** The state before the loop: the requests arriving at time 0 queued in
      index order, nothing run, `last_added` all -1. */
  function StartState(ps: seq<Process>): RrState {
    var want := seq(|ps|, i requires 0 <= i < |ps| => ps[i].arrival == 0);
    var rem := seq(|ps|, i requires 0 <= i < |ps| => ps[i].burst);
    RrState(0, rem, Admit([], want, 0), seq(|ps|, _ => 0), seq(|ps|, _ => -1), [])
  }

  lemma StartQueue(ps: seq<Process>)
    requires Admissible(ps)
    ensures QueueOk(ps, StartState(ps)) && StartState(ps).queue == Arrivals(ps, -1, 0)
  {
    var s := StartState(ps);
    var want := seq(|ps|, i requires 0 <= i < |ps| => ps[i].arrival == 0);
    assert forall i :: 0 <= i < |ps| && Eligible(ps, s.rem, s.time, i) ==> want[i];
    IncreasingUnique(s.queue, Arrivals(ps, -1, 0));
  }

  lemma StartLog(ps: seq<Process>, quantum: int)
    requires Admissible(ps)
    ensures Shape(ps, StartState(ps)) && WorkOk(ps, StartState(ps)) && LogOk(ps, quantum, StartState(ps))
  {
  }

  function RrStart(ps: seq<Process>, quantum: int): (s: RrState)
    requires Admissible(ps) && quantum > 0
    ensures RrInv(ps, quantum, s)
    ensures s.queue == Arrivals(ps, -1, 0)
  {
    StartQueue(ps);
    StartLog(ps, quantum);
    StartState(ps)
  }

  /** A final state: every request is done, and its slices add up to its
      burst. */
  lemma FinishedTotals(ps: seq<Process>, quantum: int, fin: RrState)
    requires RrInv(ps, quantum, fin) && Unfinished(fin.rem) == 0
    ensures forall i :: 0 <= i < |ps| ==>
              && fin.rem[i] == 0
              && SliceTotal(fin.log, i) == ps[i].burst
              && ps[i].arrival + ps[i].burst <= fin.completion[i]
  {
    UnfinishedExists(fin.rem);
  }

  /** A final state: every slice lies between its request's arrival and
      completion time, and every request has a slice ending at its
      completion time. */
  lemma FinishedSlices(ps: seq<Process>, quantum: int, fin: RrState)
    requires RrInv(ps, quantum, fin) && Unfinished(fin.rem) == 0
    ensures forall a :: 0 <= a < |fin.log| ==>
              var x := fin.log[a];
              x.index < |ps| && ps[x.index].arrival <= x.start < x.end <= fin.completion[x.index]
    ensures forall i :: 0 <= i < |ps| ==>
              EndsAt(fin.log, i, fin.completion[i])
  {
    UnfinishedExists(fin.rem);
    forall a | 0 <= a < |fin.log|
      ensures var x := fin.log[a];
              x.index < |ps| && ps[x.index].arrival <= x.start < x.end <= fin.completion[x.index]
    {
      assert SliceOk(ps, quantum, fin, fin.log[a]);
    }
    forall i | 0 <= i < |ps|
      ensures EndsAt(fin.log, i, fin.completion[i])
    {
      assert fin.rem[i] == 0;
    }
  }

  /** The finished run: every request is done; its slices add up to its
      burst, all lie between its arrival and its completion time, and the
      last of them ends exactly at the completion time. */
  function RrSchedule(ps: seq<Process>, quantum: int): (fin: RrState)
    requires Admissible(ps) && quantum > 0
    ensures |fin.completion| == |ps| && |fin.rem| == |ps|
    ensures forall i :: 0 <= i < |ps| ==>
              && fin.rem[i] == 0
              && SliceTotal(fin.log, i) == ps[i].burst
              && ps[i].arrival + ps[i].burst <= fin.completion[i]
    ensures forall a :: 0 <= a < |fin.log| ==>
              var x := fin.log[a];
              x.index < |ps| && ps[x.index].arrival <= x.start < x.end <= fin.completion[x.index]
    ensures forall i :: 0 <= i < |ps| ==>
              EndsAt(fin.log, i, fin.completion[i])
    ensures forall a, b :: 0 <= a < b < |fin.log| ==> fin.log[a].end <= fin.log[b].start
  {
    var fin := RrLoop(ps, quantum, RrStart(ps, quantum));
    FinishedTotals(ps, quantum, fin);
    FinishedSlices(ps, quantum, fin);
    fin
  }

  /** `round_robin`: the results table in process-number order. Every
      request appears once, at its input position, with metrics derived
      from its completion time and a non-negative waiting time. */
  function RrTable(ps: seq<Process>, quantum: int): (t: seq<Row>)
    requires Admissible(ps) && NumberedInOrder(ps) && quantum > 0
    ensures |t| == |ps|
    ensures forall j :: 0 <= j < |t| ==>
              && t[j].proc == ps[j] && RowFits(t[j])
              && t[j].completion == RrSchedule(ps, quantum).completion[j]
  {
    var fin := RrSchedule(ps, quantum);
    var t := InputOrderTable(ps, fin.completion);
    forall j | 0 <= j < |t|
      ensures t[j].proc == ps[j] && RowFits(t[j]) && t[j].completion == fin.completion[j]
    {
      assert ps[j].arrival + ps[j].burst <= fin.completion[j];
    }
    t
  }
}
