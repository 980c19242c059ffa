/**
 The stable sorts the dispatchers apply to the request list before they
 start: by arrival (FCFS), by (arrival, burst) (SJF and the energy-aware
 variant), by (priority, arrival) (priority), and by process number (the
 final reordering of the results tables).
 */
module Orders {
  import opened Sorting
  import opened Processes

  datatype SortKey = ByArrival | ByArrivalThenBurst | ByPriorityThenArrival | ByPid

  /** The Python key tuple of each sort. */
  function KeyOf(k: SortKey, p: Process): Key {
    match k
    case ByArrival => Key(p.arrival, 0)
    case ByArrivalThenBurst => Key(p.arrival, p.burst)
    case ByPriorityThenArrival => Key(p.priority, p.arrival)
    case ByPid => Key(p.pid, 0)
  }

  function KeysOf(k: SortKey, ps: seq<Process>): (keys: seq<Key>)
    ensures |keys| == |ps|
    ensures forall i :: 0 <= i < |ps| ==> keys[i] == KeyOf(k, ps[i])
  {
    seq(|ps|, i requires 0 <= i < |ps| => KeyOf(k, ps[i]))
  }

  /** The positions of `ps` in sorted order. */
  function OrderOf(k: SortKey, ps: seq<Process>): (o: seq<nat>)
    ensures IsPermutation(o, |ps|) && |o| == |ps|
    ensures forall a :: 0 <= a < |o| ==> o[a] < |ps|
    ensures forall a, b :: 0 <= a < b < |o| ==> o[a] != o[b]
    ensures StablySorted(KeysOf(k, ps), o)
  {
    StableOrder(KeysOf(k, ps))
  }

  /** `sorted(ps, key=...)` / `ps.sort(key=...)`: the same requests,
      ordered by key. */
  function SortBy(k: SortKey, ps: seq<Process>): (sp: seq<Process>)
    ensures |sp| == |ps| && multiset(sp) == multiset(ps)
    ensures forall a :: 0 <= a < |sp| ==> sp[a] == ps[OrderOf(k, ps)[a]]
    ensures forall a, b :: 0 <= a < b < |sp| ==> !KeyLess(KeyOf(k, sp[b]), KeyOf(k, sp[a]))
  {
    var o := OrderOf(k, ps);
    PermuteMultiset(ps, o);
    var sp := Permute(ps, o);
    assert forall a, b :: 0 <= a < b < |sp| ==> Before(KeysOf(k, ps), o[a], o[b]);
    sp
  }

  /** The sort is stable: requests with equal keys keep their input
      (P1, P2, ...) order. */
  lemma SortByStable(k: SortKey, ps: seq<Process>)
    requires NumberedInOrder(ps)
    ensures var sp := SortBy(k, ps);
            forall a, b :: 0 <= a < b < |sp| ==>
              || KeyLess(KeyOf(k, sp[a]), KeyOf(k, sp[b]))
              || (KeyOf(k, sp[a]) == KeyOf(k, sp[b]) && sp[a].pid < sp[b].pid)
  {
    var o := OrderOf(k, ps);
    var sp := SortBy(k, ps);
    forall a, b | 0 <= a < b < |sp|
      ensures || KeyLess(KeyOf(k, sp[a]), KeyOf(k, sp[b]))
              || (KeyOf(k, sp[a]) == KeyOf(k, sp[b]) && sp[a].pid < sp[b].pid)
    {
      assert Before(KeysOf(k, ps), o[a], o[b]);
    }
  }

  /** Sorting numbered requests never repeats one: equal entries of the
      sorted list sit at the same position. */
  lemma SortByInjective(k: SortKey, ps: seq<Process>, x: nat, y: nat)
    requires NumberedInOrder(ps) && x < |ps| && y < |ps|
    requires SortBy(k, ps)[x] == SortBy(k, ps)[y]
    ensures x == y
  {
    var o := OrderOf(k, ps);
    assert o[x] + 1 == ps[o[x]].pid == ps[o[y]].pid == o[y] + 1;
  }

  /** Any listing of the positions in stable key order is the one the
      sort applies. */
  lemma SortByIs(k: SortKey, ps: seq<Process>, o: seq<nat>)
    requires IsPermutation(o, |ps|) && StablySorted(KeysOf(k, ps), o)
    ensures |o| == |ps|
    ensures SortBy(k, ps) == Permute(ps, o)
  {
    StableOrderIsTheStableSort(KeysOf(k, ps), o);
  }

  /** Sorting a list already in key order leaves it unchanged; in
      particular sorting twice is sorting once. */
  lemma SortBySorted(k: SortKey, ps: seq<Process>)
    requires forall a, b :: 0 <= a < b < |ps| ==> !KeyLess(KeyOf(k, ps[b]), KeyOf(k, ps[a]))
    ensures SortBy(k, ps) == ps
  {
    var keys := KeysOf(k, ps);
    var id := Range(|ps|);
    forall a, b | 0 <= a < b < |id|
      ensures Before(keys, id[a], id[b])
    {
      assert !KeyLess(keys[b], keys[a]);
    }
    SortByIs(k, ps, id);
  }

  lemma SortTwice(k: SortKey, ps: seq<Process>)
    ensures SortBy(k, SortBy(k, ps)) == SortBy(k, ps)
  {
    SortBySorted(k, SortBy(k, ps));
  }

  /** Sorting keeps the requests admissible. */
  lemma SortByAdmissible(k: SortKey, ps: seq<Process>)
    requires Admissible(ps)
    ensures Admissible(SortBy(k, ps))
  {
    var sp := SortBy(k, ps);
    var o := OrderOf(k, ps);
    assert forall a :: 0 <= a < |sp| ==> sp[a] == ps[o[a]];
  }
}
