/**
 Stable sorting, as Python's `sorted` and `list.sort` perform it.

 A stable sort by a key is characterised here by the permutation of
 positions it applies: positions are ordered by key, and positions whose
 keys are equal keep their original relative order. That order on
 positions is a strict total order, so exactly one permutation is sorted
 by it (`SortedUnique`), and `StableOrder` computes that permutation by
 insertion.
 */
module Sorting {

  /** A sort key of up to two integers, compared lexicographically the way
      Python compares the tuples `(x[1], x[2])` and `(x[3], x[1])`. A
      single-component key uses `minor == 0`. */
  datatype Key = Key(major: int, minor: int)

  predicate KeyLess(a: Key, b: Key) {
    a.major < b.major || (a.major == b.major && a.minor < b.minor)
  }

  /** Position i goes before position j in the stable order of `keys`:
      a smaller key, or an equal key and an earlier position. */
  predicate Before(keys: seq<Key>, i: nat, j: nat) {
    && i < |keys|
    && j < |keys|
    && (KeyLess(keys[i], keys[j]) || (keys[i] == keys[j] && i < j))
  }

  /** `order` lists positions of `keys` in strictly increasing stable order. */
  predicate StablySorted(keys: seq<Key>, order: seq<nat>) {
    && (forall a :: 0 <= a < |order| ==> order[a] < |keys|)
    && (forall a, b :: 0 <= a < b < |order| ==> Before(keys, order[a], order[b]))
  }

  /** The positions 0, 1, ..., n-1. */
  function Range(n: nat): (r: seq<nat>)
    ensures |r| == n
    ensures forall i :: 0 <= i < n ==> r[i] == i
  {
    if n == 0 then [] else Range(n - 1) + [n - 1]
  }

  /** `order` lists each of the positions 0..n-1 exactly once. */
  predicate IsPermutation(order: seq<nat>, n: nat) {
    multiset(order) == multiset(Range(n))
  }

  lemma InRange(n: nat, x: nat)
    ensures x in multiset(Range(n)) <==> x < n
  {
    if x < n {
      assert Range(n)[x] == x;
    }
  }

  lemma PermutationFacts(order: seq<nat>, n: nat)
    requires IsPermutation(order, n)
    ensures |order| == n
    ensures forall a :: 0 <= a < |order| ==> order[a] < n
    ensures forall x :: 0 <= x < n ==> x in order
  {
    assert |multiset(order)| == |multiset(Range(n))|;
    forall a | 0 <= a < |order|
      ensures order[a] < n
    {
      assert order[a] in multiset(order);
      InRange(n, order[a]);
    }
    forall x | 0 <= x < n
      ensures x in order
    {
      InRange(n, x);
      assert x in multiset(order);
    }
  }

  lemma BeforeTransitive(keys: seq<Key>, i: nat, j: nat, k: nat)
    requires Before(keys, i, j) && Before(keys, j, k)
    ensures Before(keys, i, k)
  {
  }

  /** Putting a position in front of a stably sorted list that it goes
      before keeps the list sorted. */
  lemma ConsSorted(keys: seq<Key>, x: nat, order: seq<nat>)
    requires x < |keys| && StablySorted(keys, order)
    requires forall b :: 0 <= b < |order| ==> Before(keys, x, order[b])
    ensures StablySorted(keys, [x] + order)
  {
    var r := [x] + order;
    forall a, b | 0 <= a < b < |r|
      ensures Before(keys, r[a], r[b])
    {
      assert r[b] == order[b - 1];
      if a > 0 {
        assert r[a] == order[a - 1];
      }
    }
  }

  /** A position that goes before the head of a stably sorted list goes
      before all of it. */
  lemma BeforeHead(keys: seq<Key>, i: nat, order: seq<nat>)
    requires StablySorted(keys, order) && (order == [] || Before(keys, i, order[0]))
    ensures forall b :: 0 <= b < |order| ==> Before(keys, i, order[b])
  {
    forall b | 0 <= b < |order|
      ensures Before(keys, i, order[b])
    {
      if b > 0 {
        BeforeTransitive(keys, i, order[0], order[b]);
      }
    }
  }

  /** The head of a stably sorted list goes before every other position of
      the list with i inserted, when it goes before i. */
  lemma HeadBeforeInserted(keys: seq<Key>, i: nat, order: seq<nat>, rest: seq<nat>)
    requires StablySorted(keys, order) && |order| > 0 && Before(keys, order[0], i)
    requires multiset(rest) == multiset(order[1..]) + multiset{i}
    ensures forall b :: 0 <= b < |rest| ==> Before(keys, order[0], rest[b])
  {
    forall b | 0 <= b < |rest|
      ensures Before(keys, order[0], rest[b])
    {
      assert rest[b] in multiset(rest);
      if rest[b] != i {
        assert rest[b] in multiset(order[1..]);
        var c :| 0 <= c < |order[1..]| && order[1..][c] == rest[b];
        assert order[c + 1] == rest[b];
      }
    }
  }

  /** Inserts position i into a stably sorted list of other positions. */
  function Insert(keys: seq<Key>, i: nat, order: seq<nat>): (r: seq<nat>)
    requires i < |keys| && i !in order
    requires StablySorted(keys, order)
    ensures multiset(r) == multiset(order) + multiset{i}
    ensures StablySorted(keys, r)
  {
    if order == [] || Before(keys, i, order[0]) then
      BeforeHead(keys, i, order);
      ConsSorted(keys, i, order);
      [i] + order
    else
      SortedTail(keys, order);
      var rest := Insert(keys, i, order[1..]);
      assert order == [order[0]] + order[1..];
      assert order[0] != i;
      HeadBeforeInserted(keys, i, order, rest);
      ConsSorted(keys, order[0], rest);
      [order[0]] + rest
  }

  /** Stable insertion sort of the positions 0..n-1. */
  function Build(keys: seq<Key>, n: nat): (r: seq<nat>)
    requires n <= |keys|
    ensures IsPermutation(r, n)
    ensures StablySorted(keys, r)
  {
    if n == 0 then []
    else
      var prefix := Build(keys, n - 1);
      assert n - 1 !in prefix by {
        InRange(n - 1, n - 1);
        assert n - 1 !in multiset(prefix);
      }
      assert Range(n) == Range(n - 1) + [n - 1];
      Insert(keys, n - 1, prefix)
  }

  /** The permutation of positions a stable sort by `keys` applies:
      `sorted(xs, key=k)` is `xs[o[0]], xs[o[1]], ...` with o = StableOrder(keys). */
  function StableOrder(keys: seq<Key>): (o: seq<nat>)
    ensures IsPermutation(o, |keys|)
    ensures |o| == |keys|
    ensures forall a :: 0 <= a < |o| ==> o[a] < |keys|
    ensures forall x :: 0 <= x < |keys| ==> x in o
    ensures StablySorted(keys, o)
  {
    var o := Build(keys, |keys|);
    PermutationFacts(o, |keys|);
    o
  }

  lemma SortedTail(keys: seq<Key>, o: seq<nat>)
    requires StablySorted(keys, o) && |o| > 0
    ensures StablySorted(keys, o[1..])
  {
    forall a, b | 0 <= a < b < |o[1..]|
      ensures Before(keys, o[1..][a], o[1..][b])
    {
      assert o[1..][a] == o[a + 1] && o[1..][b] == o[b + 1];
    }
  }

  /** Two stably sorted lists of the same positions start with the same one. */
  lemma SortedSameHead(keys: seq<Key>, o1: seq<nat>, o2: seq<nat>)
    requires StablySorted(keys, o1) && StablySorted(keys, o2)
    requires multiset(o1) == multiset(o2) && |o1| > 0
    ensures |o2| > 0 && o1[0] == o2[0]
  {
    assert o1[0] in multiset(o2);
    assert o2[0] in multiset(o1);
    var a :| 0 <= a < |o1| && o1[a] == o2[0];
    var b :| 0 <= b < |o2| && o2[b] == o1[0];
    assert a == 0 || Before(keys, o1[0], o2[0]);
    assert b == 0 || Before(keys, o2[0], o1[0]);
  }

  /** Dropping equal heads from two lists with the same elements leaves
      tails with the same elements. */
  lemma SameTails(o1: seq<nat>, o2: seq<nat>)
    requires multiset(o1) == multiset(o2) && |o1| > 0 && |o2| > 0 && o1[0] == o2[0]
    ensures multiset(o1[1..]) == multiset(o2[1..])
  {
    assert o1 == [o1[0]] + o1[1..] && o2 == [o2[0]] + o2[1..];
    assert multiset(o1[1..]) == multiset(o1) - multiset{o1[0]};
    assert multiset(o2[1..]) == multiset(o2) - multiset{o2[0]};
  }

  /** The stable order is the only arrangement of the positions that is
      sorted by key with ties in original order: any sort that is stable
      computes exactly `StableOrder`. */
  lemma {:induction false} SortedUnique(keys: seq<Key>, o1: seq<nat>, o2: seq<nat>)
    requires StablySorted(keys, o1) && StablySorted(keys, o2)
    requires multiset(o1) == multiset(o2)
    ensures o1 == o2
    decreases |o1|
  {
    assert |o1| == |multiset(o1)| == |multiset(o2)| == |o2|;
    if |o1| > 0 {
      SortedSameHead(keys, o1, o2);
      SameTails(o1, o2);
      SortedTail(keys, o1);
      SortedTail(keys, o2);
      SortedUnique(keys, o1[1..], o2[1..]);
      assert o1 == [o1[0]] + o1[1..] && o2 == [o2[0]] + o2[1..];
    }
  }

  /** Any permutation that is stably sorted by `keys` is the stable order. */
  lemma StableOrderIsTheStableSort(keys: seq<Key>, o: seq<nat>)
    requires IsPermutation(o, |keys|) && StablySorted(keys, o)
    ensures o == StableOrder(keys)
  {
    SortedUnique(keys, o, StableOrder(keys));
  }

  /** Elements of `s` taken in the order of the positions `order`. */
  function Permute<T>(s: seq<T>, order: seq<nat>): (r: seq<T>)
    requires forall a :: 0 <= a < |order| ==> order[a] < |s|
    ensures |r| == |order|
    ensures forall a :: 0 <= a < |order| ==> r[a] == s[order[a]]
  {
    seq(|order|, a requires 0 <= a < |order| => s[order[a]])
  }

  /** Removing the entry at p from a list of positions that selects the
      last element leaves the permutation of the shorter list with that
      element put back at p. */
  lemma PermuteDrop<T>(s: seq<T>, order: seq<nat>, p: nat)
    requires p < |order|
    requires forall a :: 0 <= a < |order| ==> order[a] < |s|
    requires order[p] == |s| - 1
    requires forall a :: 0 <= a < |order| && a != p ==> order[a] < |s| - 1
    ensures var part := Permute(s[..|s| - 1], order[..p] + order[p + 1..]);
            Permute(s, order) == part[..p] + [s[|s| - 1]] + part[p..]
  {
    var n := |s| - 1;
    var rest := order[..p] + order[p + 1..];
    var whole := Permute(s, order);
    var part := Permute(s[..n], rest);
    forall a | 0 <= a < |whole|
      ensures whole[a] == (part[..p] + [s[n]] + part[p..])[a]
    {
      if a < p {
        assert rest[a] == order[a];
      } else if a > p {
        assert rest[a - 1] == order[a];
      }
    }
  }

  lemma MultisetInsertAt<T>(part: seq<T>, p: nat, x: T)
    requires p <= |part|
    ensures multiset(part[..p] + [x] + part[p..]) == multiset(part) + multiset{x}
  {
    assert part == part[..p] + part[p..];
  }

  /** Removing the entry at p from a list of positions removes the element
      it selects from the permuted list. */
  lemma PermuteSplit<T>(s: seq<T>, order: seq<nat>, p: nat)
    requires p < |order|
    requires forall a :: 0 <= a < |order| ==> order[a] < |s|
    requires order[p] == |s| - 1
    requires forall a :: 0 <= a < |order| && a != p ==> order[a] < |s| - 1
    ensures var rest := order[..p] + order[p + 1..];
            var part := Permute(s[..|s| - 1], rest);
            multiset(Permute(s, order)) == multiset(part) + multiset{s[|s| - 1]}
  {
    PermuteDrop(s, order, p);
    MultisetInsertAt(Permute(s[..|s| - 1], order[..p] + order[p + 1..]), p, s[|s| - 1]);
  }

  /** Dropping the entry that holds the last position from a permutation of
      0..n leaves a permutation of 0..n-1. */
  lemma DropLast(order: seq<nat>, n: nat, p: nat)
    requires IsPermutation(order, n + 1)
    requires p < |order| && order[p] == n
    ensures IsPermutation(order[..p] + order[p + 1..], n)
  {
    var rest := order[..p] + order[p + 1..];
    assert order == order[..p] + [n] + order[p + 1..];
    assert Range(n + 1) == Range(n) + [n];
    assert multiset(order) == multiset(rest) + multiset{n};
    assert multiset(Range(n + 1)) == multiset(Range(n)) + multiset{n};
    assert multiset(rest) == multiset(order) - multiset{n};
  }

  /** In a permutation of 0..n, every entry but the one holding n is below n. */
  lemma OthersBelow(order: seq<nat>, n: nat, p: nat)
    requires IsPermutation(order, n + 1)
    requires p < |order| && order[p] == n
    ensures forall a :: 0 <= a < |order| ==> order[a] < n + 1
    ensures forall a :: 0 <= a < |order| && a != p ==> order[a] < n
  {
    var rest := order[..p] + order[p + 1..];
    PermutationFacts(order, n + 1);
    DropLast(order, n, p);
    PermutationFacts(rest, n);
    forall a | 0 <= a < |order| && a != p
      ensures order[a] < n
    {
      if a < p {
        assert order[a] == rest[a];
      } else {
        assert order[a] == rest[a - 1];
      }
    }
  }

  /** The inductive step of `PermuteMultiset`: if dropping the entry that
      holds the last position preserves the elements of the shorter list,
      the whole permutation preserves those of the whole list. */
  lemma PutLastBack<T>(s: seq<T>, order: seq<nat>, p: nat)
    requires |s| > 0 && IsPermutation(order, |s|)
    requires p < |order| && order[p] == |s| - 1
    requires forall a :: 0 <= a < |order| ==> order[a] < |s|
    requires var rest := order[..p] + order[p + 1..];
             && (forall a :: 0 <= a < |rest| ==> rest[a] < |s| - 1)
             && multiset(Permute(s[..|s| - 1], rest)) == multiset(s[..|s| - 1])
    ensures multiset(Permute(s, order)) == multiset(s)
  {
    var n := |s| - 1;
    OthersBelow(order, n, p);
    PermuteSplit(s, order, p);
    assert s == s[..n] + [s[n]];
  }

  /** Applying a permutation of positions rearranges the elements and
      neither loses nor duplicates any. */
  lemma {:induction false} PermuteMultiset<T>(s: seq<T>, order: seq<nat>)
    requires IsPermutation(order, |s|)
    ensures forall a :: 0 <= a < |order| ==> order[a] < |s|
    ensures multiset(Permute(s, order)) == multiset(s)
    decreases |s|
  {
    PermutationFacts(order, |s|);
    if |s| > 0 {
      var n := |s| - 1;
      assert n in order;
      var p :| 0 <= p < |order| && order[p] == n;
      var rest := order[..p] + order[p + 1..];
      DropLast(order, n, p);
      PermuteMultiset(s[..n], rest);
      PutLastBack(s, order, p);
    }
  }
}
