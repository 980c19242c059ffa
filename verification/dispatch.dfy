/**
 Clock and ready-set bookkeeping shared by the SJF, priority and
 round-robin dispatch loops: which processes can run now, how many are
 left, the admission scan that appends newly eligible processes to a
 ready queue, and the record of completed non-preemptive runs.
 */
module Dispatch {
  import opened Processes
  import opened Report

  /** A selection that may be empty, as the priority scan's `selected`. */
  datatype Option<T> = None | Some(value: T)

  /** Process i has arrived by `time` and still has work left. */
  predicate Eligible(sp: seq<Process>, rem: seq<int>, time: int, i: nat) {
    i < |sp| && i < |rem| && sp[i].arrival <= time && rem[i] > 0
  }

  /** Some process can run at `time`. */
  predicate AnyEligible(sp: seq<Process>, rem: seq<int>, time: int) {
    exists i :: 0 <= i < |sp| && Eligible(sp, rem, time, i)
  }

  /** Number of processes with remaining time left; `n - completed` in the source. */
  function Unfinished(rem: seq<int>): nat {
    if rem == [] then 0 else (if rem[0] > 0 then 1 else 0) + Unfinished(rem[1..])
  }

  lemma {:induction false} UnfinishedExists(rem: seq<int>)
    ensures Unfinished(rem) > 0 <==> exists i :: 0 <= i < |rem| && rem[i] > 0
  {
    if rem != [] {
      UnfinishedExists(rem[1..]);
      if rem[0] <= 0 && Unfinished(rem[1..]) == 0 {
        forall i | 0 <= i < |rem|
          ensures rem[i] <= 0
        {
          if i > 0 {
            assert rem[i] == rem[1..][i - 1];
          }
        }
      }
      if Unfinished(rem[1..]) > 0 {
        var j :| 0 <= j < |rem[1..]| && rem[1..][j] > 0;
        assert rem[j + 1] > 0;
      }
    }
  }

  /** Lowering one unfinished entry to `v >= 0` finishes it exactly when v is 0. */
  lemma {:induction false} UnfinishedUpdate(rem: seq<int>, i: nat, v: int)
    requires i < |rem| && rem[i] > 0 && v >= 0
    ensures Unfinished(rem[i := v]) == Unfinished(rem) - (if v == 0 then 1 else 0)
  {
    if i > 0 {
      assert rem[i := v][1..] == rem[1..][i - 1 := v];
      UnfinishedUpdate(rem[1..], i - 1, v);
    } else {
      assert rem[i := v][1..] == rem[1..];
    }
  }

  /** Sum of remaining times. */
  function TotalRemaining(rem: seq<int>): int {
    if rem == [] then 0 else rem[0] + TotalRemaining(rem[1..])
  }

  lemma {:induction false} TotalRemainingUpdate(rem: seq<int>, i: nat, v: int)
    requires i < |rem|
    ensures TotalRemaining(rem[i := v]) == TotalRemaining(rem) - rem[i] + v
  {
    if i > 0 {
      assert rem[i := v][1..] == rem[1..][i - 1 := v];
      TotalRemainingUpdate(rem[1..], i - 1, v);
    } else {
      assert rem[i := v][1..] == rem[1..];
    }
  }

  lemma {:induction false} TotalRemainingNonNegative(rem: seq<int>)
    requires forall i :: 0 <= i < |rem| ==> rem[i] >= 0
    ensures TotalRemaining(rem) >= 0
  {
    if rem != [] {
      assert forall i :: 0 <= i < |rem[1..]| ==> rem[1..][i] == rem[i + 1];
      TotalRemainingNonNegative(rem[1..]);
    }
  }

  /** The latest arrival time (0 for no processes): once the clock passes
      it, every unfinished process is eligible. */
  function MaxArrival(sp: seq<Process>): (m: int)
    ensures forall i :: 0 <= i < |sp| ==> sp[i].arrival <= m
  {
    if sp == [] then 0
    else
      var rest := MaxArrival(sp[1..]);
      assert forall i :: 1 <= i < |sp| ==> sp[i] == sp[1..][i - 1];
      if sp[0].arrival > rest then sp[0].arrival else rest
  }

  predicate Distinct(q: seq<nat>) {
    forall a, b :: 0 <= a < b < |q| ==> q[a] != q[b]
  }

  /** The step of the scan that appends index k: what the rest of the scan
      guarantees about the longer queue carries over to the shorter one. */
  lemma AdmitOneMore(queue: seq<nat>, want: seq<bool>, k: nat, r: seq<nat>)
    requires k < |want| && want[k] && k !in queue
    requires |r| >= |queue| + 1 && r[..|queue| + 1] == queue + [k]
    requires forall x :: x in r <==> x in queue + [k] || (k + 1 <= x < |want| && want[x])
    requires forall a :: |queue| + 1 <= a < |r| ==> k + 1 <= r[a] && r[a] !in queue + [k]
    requires forall a, b :: |queue| + 1 <= a < b < |r| ==> r[a] < r[b]
    requires Distinct(queue + [k]) ==> Distinct(r)
    ensures |r| >= |queue| && r[..|queue|] == queue
    ensures forall x :: x in r <==> x in queue || (k <= x < |want| && want[x])
    ensures forall a :: |queue| <= a < |r| ==> k <= r[a] && r[a] !in queue
    ensures forall a, b :: |queue| <= a < b < |r| ==> r[a] < r[b]
    ensures Distinct(queue) ==> Distinct(r)
  {
    assert r[..|queue|] == r[..|queue| + 1][..|queue|];
    assert r[|queue|] == (queue + [k])[|queue|] == k;
    if Distinct(queue) {
      assert Distinct(queue + [k]);
    }
  }

  /** The admission scan `for i in range(n): if want[i] and i not in queue:
      queue.append(i)`, from index k on. */
  function Admit(queue: seq<nat>, want: seq<bool>, k: nat): (r: seq<nat>)
    requires k <= |want|
    ensures |r| >= |queue| && r[..|queue|] == queue
    ensures forall x :: x in r <==> x in queue || (k <= x < |want| && want[x])
    ensures forall a :: |queue| <= a < |r| ==> k <= r[a] && r[a] !in queue
    ensures forall a, b :: |queue| <= a < b < |r| ==> r[a] < r[b]
    ensures Distinct(queue) ==> Distinct(r)
    decreases |want| - k
  {
    if k == |want| then queue
    else if want[k] && k !in queue then
      var r := Admit(queue + [k], want, k + 1);
      AdmitOneMore(queue, want, k, r);
      r
    else
      Admit(queue, want, k + 1)
  }

  /** What the admission scan appends: exactly the wanted indices not yet
      queued, in increasing index order, after the existing queue. */
  lemma AdmitAppends(queue: seq<nat>, want: seq<bool>)
    ensures var r := Admit(queue, want, 0);
            && r[..|queue|] == queue
            && (forall x :: x in r[|queue|..] <==> 0 <= x < |want| && want[x] && x !in queue)
            && (forall a, b :: 0 <= a < b < |r[|queue|..]| ==> r[|queue|..][a] < r[|queue|..][b])
  {
    var r := Admit(queue, want, 0);
    var tail := r[|queue|..];
    forall x | x in tail
      ensures 0 <= x < |want| && want[x] && x !in queue
    {
      var a :| 0 <= a < |tail| && tail[a] == x;
      assert r[|queue| + a] == x;
    }
    forall x | 0 <= x < |want| && want[x] && x !in queue
      ensures x in tail
    {
      assert x in r;
      var a :| 0 <= a < |r| && r[a] == x;
      assert tail[a - |queue|] == x;
    }
    forall a, b | 0 <= a < b < |tail|
      ensures tail[a] < tail[b]
    {
      assert tail[a] == r[|queue| + a] && tail[b] == r[|queue| + b];
    }
  }

  /** Every wanted index already queued: the scan leaves the queue as is. */
  lemma {:induction false} AdmitNothing(queue: seq<nat>, want: seq<bool>, k: nat)
    requires k <= |want|
    requires forall x :: k <= x < |want| && want[x] ==> x in queue
    ensures Admit(queue, want, k) == queue
    decreases |want| - k
  {
    if k < |want| {
      AdmitNothing(queue, want, k + 1);
    }
  }

  /** The state of the completed non-preemptive runs at clock `time`: each
      process is either untouched (its whole burst left, completion still 0)
      or finished, having run once over [completion - burst, completion),
      after its arrival and by the clock; no two runs overlap. */
  predicate RunsConsistent(sp: seq<Process>, time: int, rem: seq<int>, completion: seq<int>) {
    && |rem| == |sp| && |completion| == |sp|
    && time >= 0
    && (forall i :: 0 <= i < |sp| ==>
          || (rem[i] == sp[i].burst && completion[i] == 0)
          || (rem[i] == 0 && sp[i].arrival + sp[i].burst <= completion[i] <= time))
    && (forall i, j :: 0 <= i < |sp| && 0 <= j < |sp| && i != j && rem[i] == 0 && rem[j] == 0 ==>
          completion[i] <= completion[j] - sp[j].burst || completion[j] <= completion[i] - sp[i].burst)
  }

  /** The state the dispatchers start from: every burst left, no completion. */
  function Fresh(sp: seq<Process>): (rem: seq<int>)
    requires Admissible(sp)
    ensures RunsConsistent(sp, 0, rem, seq(|sp|, _ => 0))
    ensures Unfinished(rem) == |sp|
  {
    var rem := seq(|sp|, i requires 0 <= i < |sp| => sp[i].burst);
    assert Unfinished(rem) == |sp| by {
      FreshUnfinished(rem);
    }
    rem
  }

  lemma {:induction false} FreshUnfinished(rem: seq<int>)
    requires forall i :: 0 <= i < |rem| ==> rem[i] > 0
    ensures Unfinished(rem) == |rem|
  {
    if rem != [] {
      assert forall i :: 0 <= i < |rem[1..]| ==> rem[1..][i] == rem[i + 1];
      FreshUnfinished(rem[1..]);
    }
  }

  /** Running eligible process i to completion from `time` keeps the record
      consistent and finishes exactly one more process. */
  lemma RunToCompletion(sp: seq<Process>, time: int, rem: seq<int>, completion: seq<int>, i: nat)
    requires Admissible(sp) && RunsConsistent(sp, time, rem, completion)
    requires Eligible(sp, rem, time, i)
    ensures RunsConsistent(sp, time + sp[i].burst, rem[i := 0], completion[i := time + sp[i].burst])
    ensures Unfinished(rem[i := 0]) == Unfinished(rem) - 1
  {
    UnfinishedUpdate(rem, i, 0);
  }

  /** With no process left unfinished, every process finished no earlier
      than its arrival plus its burst. */
  lemma NoneLeft(sp: seq<Process>, time: int, rem: seq<int>, completion: seq<int>)
    requires Admissible(sp) && RunsConsistent(sp, time, rem, completion) && Unfinished(rem) == 0
    ensures forall i :: 0 <= i < |sp| ==> rem[i] == 0 && sp[i].arrival + sp[i].burst <= completion[i]
  {
    UnfinishedExists(rem);
    forall i | 0 <= i < |sp|
      ensures rem[i] == 0
    {
      assert rem[i] <= 0;
    }
  }

  /** The results rows for the given completion times, one per process, in
      the order of `sp`. */
  function FinishedRows(sp: seq<Process>, completion: seq<int>): (rows: seq<Row>)
    requires |completion| == |sp|
    ensures |rows| == |sp|
    ensures forall k :: 0 <= k < |sp| ==> rows[k].proc == sp[k] && rows[k].completion == completion[k]
  {
    seq(|sp|, k requires 0 <= k < |sp| => MakeRow(sp[k], completion[k]))
  }

  /** When the loop has finished every process, the rows have consistent
      metrics with waiting never negative, and no two runs overlap. */
  lemma FinishedRowsFit(sp: seq<Process>, time: int, rem: seq<int>, completion: seq<int>)
    requires Admissible(sp) && RunsConsistent(sp, time, rem, completion) && Unfinished(rem) == 0
    ensures var rows := FinishedRows(sp, completion);
            && (forall k :: 0 <= k < |rows| ==> RowFits(rows[k]))
            && RunsDisjoint(rows)
  {
    NoneLeft(sp, time, rem, completion);
  }

  /** An idle tick keeps the record consistent. */
  lemma IdleTick(sp: seq<Process>, time: int, rem: seq<int>, completion: seq<int>)
    requires RunsConsistent(sp, time, rem, completion)
    ensures RunsConsistent(sp, time + 1, rem, completion)
  {
  }

  /** When nothing is eligible but work is left, some arrival is still
      ahead of the clock, so idle ticking cannot go on forever. */
  lemma PendingArrival(sp: seq<Process>, time: int, rem: seq<int>)
    requires |rem| == |sp|
    requires !AnyEligible(sp, rem, time) && Unfinished(rem) > 0
    ensures time < MaxArrival(sp)
  {
    UnfinishedExists(rem);
    var i :| 0 <= i < |rem| && rem[i] > 0;
    assert !Eligible(sp, rem, time, i);
  }

  /** Scan from index k for the earliest arrival among unfinished processes,
      starting from the candidate `best`. */
  function EarliestFrom(sp: seq<Process>, rem: seq<int>, k: nat, best: int): (t: int)
    requires |rem| == |sp| && k <= |sp|
    ensures t <= best
    ensures forall i :: k <= i < |sp| && rem[i] > 0 ==> t <= sp[i].arrival
    ensures t == best || exists i :: k <= i < |sp| && rem[i] > 0 && sp[i].arrival == t
    decreases |sp| - k
  {
    if k == |sp| then best
    else EarliestFrom(sp, rem, k + 1, if rem[k] > 0 && sp[k].arrival < best then sp[k].arrival else best)
  }

  /** The earliest arrival among the processes with work left: where an
      idle stretch of the clock ends. */
  function NextArrival(sp: seq<Process>, rem: seq<int>): (t: int)
    requires |rem| == |sp| && Unfinished(rem) > 0
    ensures exists i :: 0 <= i < |sp| && rem[i] > 0 && sp[i].arrival == t
    ensures forall i :: 0 <= i < |sp| && rem[i] > 0 ==> t <= sp[i].arrival
  {
    UnfinishedExists(rem);
    var i :| 0 <= i < |rem| && rem[i] > 0;
    var t := EarliestFrom(sp, rem, 0, MaxArrival(sp));
    assert t <= sp[i].arrival <= MaxArrival(sp);
    t
  }

  /** With nothing eligible now, the next arrival is strictly ahead of the
      clock, and at that arrival something is eligible. */
  lemma NextArrivalAhead(sp: seq<Process>, rem: seq<int>, time: int)
    requires |rem| == |sp| && Unfinished(rem) > 0
    requires !AnyEligible(sp, rem, time)
    ensures time < NextArrival(sp, rem)
    ensures AnyEligible(sp, rem, NextArrival(sp, rem))
  {
    var na := NextArrival(sp, rem);
    var w :| 0 <= w < |sp| && rem[w] > 0 && sp[w].arrival == na;
    assert !Eligible(sp, rem, time, w);
    assert Eligible(sp, rem, na, w);
  }

  /** Before the next arrival nothing is eligible. */
  lemma BeforeNextArrival(sp: seq<Process>, rem: seq<int>, time: int)
    requires |rem| == |sp| && Unfinished(rem) > 0
    requires time < NextArrival(sp, rem)
    ensures !AnyEligible(sp, rem, time)
  {
  }

  predicate Increasing(q: seq<nat>) {
    forall a, b :: 0 <= a < b < |q| ==> q[a] < q[b]
  }

  /** Two increasing lists with the same members are the same list. */
  lemma {:induction false} IncreasingUnique(p: seq<nat>, q: seq<nat>)
    requires Increasing(p) && Increasing(q)
    requires forall x :: x in p <==> x in q
    ensures p == q
    decreases |p|
  {
    assert p != [] ==> p[0] in q;
    assert q != [] ==> q[0] in p;
    if p != [] && q != [] {
      assert p[0] == q[0] by {
        IncreasingHeadLeast(p, q[0]);
        IncreasingHeadLeast(q, p[0]);
      }
      forall x
        ensures x in p[1..] <==> x in q[1..]
      {
        if x in p[1..] {
          var a :| 0 <= a < |p[1..]| && p[1..][a] == x;
          assert p[a + 1] == x && p[0] < x;
          assert x in q;
          var b :| 0 <= b < |q| && q[b] == x;
          assert b != 0;
          assert q[1..][b - 1] == x;
        }
        if x in q[1..] {
          var a :| 0 <= a < |q[1..]| && q[1..][a] == x;
          assert q[a + 1] == x && q[0] < x;
          assert x in p;
          var b :| 0 <= b < |p| && p[b] == x;
          assert b != 0;
          assert p[1..][b - 1] == x;
        }
      }
      IncreasingUnique(p[1..], q[1..]);
    }
  }

  lemma IncreasingHeadLeast(q: seq<nat>, x: nat)
    requires Increasing(q) && x in q
    ensures q[0] <= x
  {
    var a :| 0 <= a < |q| && q[a] == x;
    assert a == 0 || q[0] < q[a];
  }

  /** The processes from index k on that arrive in (lo, hi], in index
      order: who the clock passes over when it moves from lo to hi. */
  function ArrivalsFrom(sp: seq<Process>, lo: int, hi: int, k: nat): (r: seq<nat>)
    requires k <= |sp|
    ensures Increasing(r)
    ensures forall x :: x in r <==> k <= x < |sp| && lo < sp[x].arrival <= hi
    decreases |sp| - k
  {
    if k == |sp| then []
    else if lo < sp[k].arrival <= hi then
      var rest := ArrivalsFrom(sp, lo, hi, k + 1);
      assert forall a :: 0 <= a < |rest| ==> rest[a] in rest;
      [k] + rest
    else ArrivalsFrom(sp, lo, hi, k + 1)
  }

  function Arrivals(sp: seq<Process>, lo: int, hi: int): (r: seq<nat>)
    ensures Increasing(r)
    ensures forall x :: x in r <==> 0 <= x < |sp| && lo < sp[x].arrival <= hi
  {
    ArrivalsFrom(sp, lo, hi, 0)
  }
}
