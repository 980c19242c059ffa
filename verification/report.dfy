/**
 The last step of the SJF, priority and round-robin dispatchers: the rows
 computed in scheduling order are sorted back by the number in the process
 name "P<n>", which restores the order of the input form.
 */
module Report {
  import opened Sorting
  import opened Processes
  import opened Orders

  /** The positions of `rows` in order of process number. */
  function PidOrder(rows: seq<Row>): (o: seq<nat>)
    ensures |o| == |rows|
    ensures forall a :: 0 <= a < |o| ==> o[a] < |rows|
    ensures forall a, b :: 0 <= a < b < |o| ==> o[a] != o[b]
  {
    OrderOf(ByPid, Procs(rows))
  }

  lemma PidOrderSorted(rows: seq<Row>)
    ensures var o := PidOrder(rows);
            forall a, b :: 0 <= a < b < |o| ==> rows[o[a]].proc.pid <= rows[o[b]].proc.pid
  {
    var o := PidOrder(rows);
    var keys := KeysOf(ByPid, Procs(rows));
    forall a, b | 0 <= a < b < |o|
      ensures rows[o[a]].proc.pid <= rows[o[b]].proc.pid
    {
      assert Before(keys, o[a], o[b]);
    }
  }

  /** `sorted(zip(...), key=lambda x: int(x[0][0][1:]))`. */
  function ReorderByPid(rows: seq<Row>): (out: seq<Row>)
    ensures |out| == |rows|
    ensures forall a :: 0 <= a < |out| ==> out[a] == rows[PidOrder(rows)[a]]
    ensures forall a, b :: 0 <= a < b < |out| ==> out[a].proc.pid <= out[b].proc.pid
  {
    PidOrderSorted(rows);
    Permute(rows, PidOrder(rows))
  }

  lemma {:induction false} IncreasingGap(v: seq<int>, a: nat, b: nat)
    requires forall i, j :: 0 <= i < j < |v| ==> v[i] < v[j]
    requires a <= b < |v|
    ensures v[b] >= v[a] + (b - a)
    decreases b - a
  {
    if a < b {
      IncreasingGap(v, a, b - 1);
    }
  }

  /** A strictly increasing list of n values drawn from 1..n is 1, 2, ..., n. */
  lemma IncreasingFillsRange(v: seq<int>)
    requires forall i, j :: 0 <= i < j < |v| ==> v[i] < v[j]
    requires forall i :: 0 <= i < |v| ==> 1 <= v[i] <= |v|
    ensures forall i :: 0 <= i < |v| ==> v[i] == i + 1
  {
    forall i | 0 <= i < |v|
      ensures v[i] == i + 1
    {
      IncreasingGap(v, 0, i);
      IncreasingGap(v, i, |v| - 1);
    }
  }

  /** When row k is about request o[k], o listing each position once, the
      process numbers in the reordered rows strictly increase. */
  lemma ReorderedPidsIncrease(ps: seq<Process>, rows: seq<Row>, o: seq<nat>)
    requires NumberedInOrder(ps)
    requires |o| == |ps| && |rows| == |ps|
    requires forall a, b :: 0 <= a < b < |o| ==> o[a] != o[b]
    requires forall k :: 0 <= k < |rows| ==> o[k] < |ps| && rows[k].proc == ps[o[k]]
    ensures var out := ReorderByPid(rows);
            forall a, b :: 0 <= a < b < |out| ==> out[a].proc.pid < out[b].proc.pid
  {
    var out := ReorderByPid(rows);
    var p := PidOrder(rows);
    forall a, b | 0 <= a < b < |out|
      ensures out[a].proc.pid < out[b].proc.pid
    {
      assert p[a] != p[b];
      assert o[p[a]] != o[p[b]] by {
        if p[a] < p[b] {
          assert o[p[a]] != o[p[b]];
        } else {
          assert o[p[b]] != o[p[a]];
        }
      }
      assert out[a].proc.pid == o[p[a]] + 1 && out[b].proc.pid == o[p[b]] + 1;
    }
  }

  /** Rows whose process numbers strictly increase and lie in 1..n are
      numbered 1, 2, ..., n in order. */
  lemma PidsFillRange(out: seq<Row>)
    requires forall a, b :: 0 <= a < b < |out| ==> out[a].proc.pid < out[b].proc.pid
    requires forall a :: 0 <= a < |out| ==> 1 <= out[a].proc.pid <= |out|
    ensures forall a :: 0 <= a < |out| ==> out[a].proc.pid == a + 1
  {
    var v := seq(|out|, a requires 0 <= a < |out| => out[a].proc.pid as int);
    assert forall a :: 0 <= a < |v| ==> v[a] == out[a].proc.pid;
    IncreasingFillsRange(v);
  }

  /** When the rows describe the input requests in some scheduling order
      (row k is about request o[k], o listing each position once), sorting
      them by process number puts the row about request j at position j. */
  lemma ReorderRestoresInputOrder(ps: seq<Process>, rows: seq<Row>, o: seq<nat>)
    requires NumberedInOrder(ps)
    requires |o| == |ps| && |rows| == |ps|
    requires forall a, b :: 0 <= a < b < |o| ==> o[a] != o[b]
    requires forall k :: 0 <= k < |rows| ==> o[k] < |ps| && rows[k].proc == ps[o[k]]
    ensures var out := ReorderByPid(rows);
            forall j :: 0 <= j < |out| ==> out[j].proc == ps[j] && out[j] == rows[PidOrder(rows)[j]]
  {
    var out := ReorderByPid(rows);
    var p := PidOrder(rows);
    ReorderedPidsIncrease(ps, rows, o);
    forall a | 0 <= a < |out|
      ensures out[a].proc == ps[o[p[a]]] && 1 <= out[a].proc.pid <= |out|
    {
      assert out[a] == rows[p[a]];
    }
    PidsFillRange(out);
    forall j | 0 <= j < |out|
      ensures out[j].proc == ps[j] && out[j] == rows[p[j]]
    {
      assert o[p[j]] == j;
    }
  }

  /** Rows already in input order are left where they are. */
  lemma ReorderInInputOrder(ps: seq<Process>, rows: seq<Row>)
    requires NumberedInOrder(ps) && |rows| == |ps|
    requires forall k :: 0 <= k < |rows| ==> rows[k].proc == ps[k]
    ensures ReorderByPid(rows) == rows
  {
    var o := seq(|ps|, k requires 0 <= k < |ps| => k);
    ReorderRestoresInputOrder(ps, rows, o);
    var out := ReorderByPid(rows);
    var p := PidOrder(rows);
    forall j | 0 <= j < |out|
      ensures out[j] == rows[j]
    {
      assert ps[p[j]].pid == out[j].proc.pid == ps[j].pid;
    }
  }

  /** The table built from per-request completion times given in input
      order: sorting by process number leaves row j about request j. */
  function InputOrderTable(ps: seq<Process>, completion: seq<int>): (t: seq<Row>)
    requires NumberedInOrder(ps) && |completion| == |ps|
    ensures |t| == |ps|
    ensures forall j :: 0 <= j < |t| ==> t[j] == MakeRow(ps[j], completion[j])
  {
    var rows := seq(|ps|, k requires 0 <= k < |ps| => MakeRow(ps[k], completion[k]));
    ReorderInInputOrder(ps, rows);
    ReorderByPid(rows)
  }

  /** A row's metrics follow from its completion time, and the request did
      not finish before it could have run its whole burst from its arrival,
      so waiting time is never negative. */
  predicate RowFits(r: Row) {
    && r.turnaround == r.completion - r.proc.arrival
    && r.waiting == r.turnaround - r.proc.burst
    && r.waiting >= 0
  }

  /** The rows describe non-preemptive runs [completion - burst, completion)
      no two of which overlap. */
  predicate RunsDisjoint(rows: seq<Row>) {
    forall j, k :: 0 <= j < |rows| && 0 <= k < |rows| && j != k ==>
      || rows[j].completion <= rows[k].completion - rows[k].proc.burst
      || rows[k].completion <= rows[j].completion - rows[j].proc.burst
  }

  /** Reordering the table by process number keeps every row intact, so it
      keeps both properties. */
  lemma ReorderKeeps(rows: seq<Row>)
    ensures var out := ReorderByPid(rows);
            && ((forall k :: 0 <= k < |rows| ==> RowFits(rows[k])) ==> forall j :: 0 <= j < |out| ==> RowFits(out[j]))
            && (RunsDisjoint(rows) ==> RunsDisjoint(out))
  {
    var out := ReorderByPid(rows);
    var p := PidOrder(rows);
    if RunsDisjoint(rows) {
      forall j, k | 0 <= j < |out| && 0 <= k < |out| && j != k
        ensures || out[j].completion <= out[k].completion - out[k].proc.burst
                || out[k].completion <= out[j].completion - out[j].proc.burst
      {
        if j < k {
          assert p[j] != p[k];
        } else {
          assert p[k] != p[j];
        }
      }
    }
  }

  /** The table a dispatcher shows: rows computed in scheduling order (row k
      about request o[k]), once sorted back by process number, list request
      j at position j, and keep the formulas and the non-overlap of runs. */
  lemma ReorderTable(ps: seq<Process>, rows: seq<Row>, o: seq<nat>)
    requires NumberedInOrder(ps)
    requires |o| == |ps| && |rows| == |ps|
    requires forall a, b :: 0 <= a < b < |o| ==> o[a] != o[b]
    requires forall k :: 0 <= k < |rows| ==> o[k] < |ps| && rows[k].proc == ps[o[k]] && RowFits(rows[k])
    requires RunsDisjoint(rows)
    ensures var out := ReorderByPid(rows);
            && |out| == |ps|
            && (forall j :: 0 <= j < |out| ==> out[j].proc == ps[j] && RowFits(out[j]))
            && RunsDisjoint(out)
  {
    ReorderRestoresInputOrder(ps, rows, o);
    ReorderKeeps(rows);
  }
}
