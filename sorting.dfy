/** `_sortWorkouts` orders the list with `Array.prototype.sort`, which ECMAScript 2019 and later
    require to be stable, under the comparator `a.distance - b.distance` (ascending) or
    `b.distance - a.distance` (descending) (script.js:535-539). The sort is specified by an
    insertion sort of the list's positions on their distances; the lemmas show that the
    positions form a permutation, that distances come out in order and that workouts of
    equal distance keep their relative order. */
module Sorting {
  import opened Workouts

  /** The comparator lets a workout of distance `a` stay in front of one of distance `b`. */
  predicate InOrder(a: real, b: real, ascending: bool): (r: bool)
    ensures r <==> (if ascending then a - b else b - a) <= 0.0
  {
    if ascending then a <= b else a >= b
  }

  /** No position occurs twice. */
  predicate Injective(order: seq<nat>) {
    forall p, q :: 0 <= p < q < |order| ==> order[p] != order[q]
  }

  /** Puts position `i` in front of the first position whose key it may precede. */
  function Insert(i: nat, order: seq<nat>, keys: seq<real>, ascending: bool): (r: seq<nat>)
    requires i < |keys|
    requires forall p :: 0 <= p < |order| ==> order[p] < |keys|
    ensures |r| == |order| + 1
    ensures forall j :: j in r <==> j == i || j in order
    ensures forall p :: 0 <= p < |r| ==> r[p] < |keys|
  {
    if order == [] then [i]
    else if InOrder(keys[i], keys[order[0]], ascending) then [i] + order
    else [order[0]] + Insert(i, order[1..], keys, ascending)
  }

  /** The positions `from .. |keys| - 1` in the order the stable sort puts them. */
  function SortFrom(keys: seq<real>, from: nat, ascending: bool): (r: seq<nat>)
    requires from <= |keys|
    ensures |r| == |keys| - from
    ensures forall j :: j in r <==> from <= j < |keys|
    ensures forall p :: 0 <= p < |r| ==> from <= r[p] < |keys|
    decreases |keys| - from
  {
    if from == |keys| then []
    else
      var r := Insert(from, SortFrom(keys, from + 1, ascending), keys, ascending);
      assert forall p :: 0 <= p < |r| ==> r[p] in r;
      r
  }

  /** The stable sort of a list with distances `keys`: `r[k]` is the position in the old
      list of the workout that ends at position `k`. */
  function SortedOrder(keys: seq<real>, ascending: bool): (r: seq<nat>)
    ensures |r| == |keys|
    ensures forall k :: 0 <= k < |r| ==> r[k] < |keys|
  {
    SortFrom(keys, 0, ascending)
  }

  lemma {:induction false} InsertInjective(i: nat, order: seq<nat>, keys: seq<real>, ascending: bool)
    requires i < |keys| && i !in order
    requires forall p :: 0 <= p < |order| ==> order[p] < |keys|
    requires Injective(order)
    ensures Injective(Insert(i, order, keys, ascending))
  {
    if order != [] && !InOrder(keys[i], keys[order[0]], ascending) {
      InsertInjective(i, order[1..], keys, ascending);
      var t := Insert(i, order[1..], keys, ascending);
      assert order[0] !in t by {
        assert order[0] !in order[1..];
      }
    }
  }

  lemma {:induction false} SortFromInjective(keys: seq<real>, from: nat, ascending: bool)
    requires from <= |keys|
    ensures Injective(SortFrom(keys, from, ascending))
    decreases |keys| - from
  {
    if from < |keys| {
      SortFromInjective(keys, from + 1, ascending);
      InsertInjective(from, SortFrom(keys, from + 1, ascending), keys, ascending);
    }
  }

  /** Every position of the old list occurs exactly once: the sort is a permutation. */
  lemma SortedOrderPermutation(keys: seq<real>, ascending: bool)
    ensures Injective(SortedOrder(keys, ascending))
    ensures forall j :: 0 <= j < |keys| ==> j in SortedOrder(keys, ascending)
  {
    SortFromInjective(keys, 0, ascending);
  }

  /** Keys along `order` may each stay in front of every later one. */
  predicate OrderedBy(order: seq<nat>, keys: seq<real>, ascending: bool)
    requires forall p :: 0 <= p < |order| ==> order[p] < |keys|
  {
    forall p, q :: 0 <= p < q < |order| ==> InOrder(keys[order[p]], keys[order[q]], ascending)
  }

  lemma {:induction false} InsertOrdered(i: nat, order: seq<nat>, keys: seq<real>, ascending: bool)
    requires i < |keys|
    requires forall p :: 0 <= p < |order| ==> order[p] < |keys|
    requires OrderedBy(order, keys, ascending)
    ensures OrderedBy(Insert(i, order, keys, ascending), keys, ascending)
  {
    if order != [] && !InOrder(keys[i], keys[order[0]], ascending) {
      InsertOrdered(i, order[1..], keys, ascending);
      var t := Insert(i, order[1..], keys, ascending);
      forall q | 0 <= q < |t| ensures InOrder(keys[order[0]], keys[t[q]], ascending) {
        assert t[q] in t;
      }
    }
  }

  lemma {:induction false} SortFromOrdered(keys: seq<real>, from: nat, ascending: bool)
    requires from <= |keys|
    ensures OrderedBy(SortFrom(keys, from, ascending), keys, ascending)
    decreases |keys| - from
  {
    if from < |keys| {
      SortFromOrdered(keys, from + 1, ascending);
      InsertOrdered(from, SortFrom(keys, from + 1, ascending), keys, ascending);
    }
  }

  /** Along the sorted order, distances are non-decreasing when ascending and
      non-increasing otherwise. */
  lemma SortedOrderOrdered(keys: seq<real>, ascending: bool)
    ensures OrderedBy(SortedOrder(keys, ascending), keys, ascending)
  {
    SortFromOrdered(keys, 0, ascending);
  }

  /** Positions of equal keys appear in increasing order. */
  predicate StableBy(order: seq<nat>, keys: seq<real>)
    requires forall p :: 0 <= p < |order| ==> order[p] < |keys|
  {
    forall p, q :: 0 <= p < q < |order| && keys[order[p]] == keys[order[q]] ==> order[p] < order[q]
  }

  lemma {:induction false} InsertStable(i: nat, order: seq<nat>, keys: seq<real>, ascending: bool)
    requires i < |keys|
    requires forall p :: 0 <= p < |order| ==> i < order[p] < |keys|
    requires StableBy(order, keys)
    ensures StableBy(Insert(i, order, keys, ascending), keys)
  {
    if order != [] && !InOrder(keys[i], keys[order[0]], ascending) {
      InsertStable(i, order[1..], keys, ascending);
      var t := Insert(i, order[1..], keys, ascending);
      forall q | 0 <= q < |t| && keys[order[0]] == keys[t[q]] ensures order[0] < t[q] {
        assert t[q] in t;
        if t[q] != i {
          var q' :| 0 <= q' < |order[1..]| && order[1..][q'] == t[q];
          assert order[q' + 1] == t[q];
        }
      }
    }
  }

  lemma {:induction false} SortFromStable(keys: seq<real>, from: nat, ascending: bool)
    requires from <= |keys|
    ensures StableBy(SortFrom(keys, from, ascending), keys)
    decreases |keys| - from
  {
    if from < |keys| {
      var rest := SortFrom(keys, from + 1, ascending);
      SortFromStable(keys, from + 1, ascending);
      assert forall p :: 0 <= p < |rest| ==> rest[p] in rest;
      InsertStable(from, rest, keys, ascending);
    }
  }

  /** Workouts of equal distance keep their relative order: their old positions increase. */
  lemma SortedOrderStable(keys: seq<real>, ascending: bool)
    ensures StableBy(SortedOrder(keys, ascending), keys)
  {
    SortFromStable(keys, 0, ascending);
  }

  /** The distances of the list, read from the workout objects. */
  function Distances(ws: seq<Workout>): (keys: seq<real>)
    reads set w | w in ws
    ensures |keys| == |ws|
    ensures forall k :: 0 <= k < |ws| ==> keys[k] == ws[k].distance
  {
    if ws == [] then [] else [ws[0].distance] + Distances(ws[1..])
  }

  /** The list as `_sortWorkouts` leaves it: the workouts rearranged along `SortedOrder`. */
  function SortByDistance(ws: seq<Workout>, ascending: bool): (r: seq<Workout>)
    reads set w | w in ws
    ensures |r| == |ws|
    ensures forall k :: 0 <= k < |ws| ==> r[k] == ws[SortedOrder(Distances(ws), ascending)[k]]
  {
    var order := SortedOrder(Distances(ws), ascending);
    seq(|ws|, k requires 0 <= k < |ws| => ws[order[k]])
  }

  /** The sorted list runs through the distances in the requested direction. */
  lemma SortByDistanceOrdered(ws: seq<Workout>, ascending: bool)
    ensures forall i, j :: 0 <= i < j < |ws| ==>
      InOrder(SortByDistance(ws, ascending)[i].distance, SortByDistance(ws, ascending)[j].distance, ascending)
  {
    SortedOrderOrdered(Distances(ws), ascending);
  }

  /** The sorted list holds exactly the workouts of the old list. */
  lemma SortByDistanceSameWorkouts(ws: seq<Workout>, ascending: bool)
    ensures forall w :: w in SortByDistance(ws, ascending) <==> w in ws
  {
    var order := SortedOrder(Distances(ws), ascending);
    var r := SortByDistance(ws, ascending);
    SortedOrderPermutation(Distances(ws), ascending);
    forall w | w in ws ensures w in r {
      var j :| 0 <= j < |ws| && ws[j] == w;
      assert j in order;
      var p :| 0 <= p < |order| && order[p] == j;
      assert r[p] == w;
    }
  }

  /** Two workouts of equal distance come out in the order they had before the sort. */
  lemma SortByDistanceStable(ws: seq<Workout>, ascending: bool)
    ensures forall i, j ::
      0 <= i < j < |ws| && SortByDistance(ws, ascending)[i].distance == SortByDistance(ws, ascending)[j].distance
      ==> SortedOrder(Distances(ws), ascending)[i] < SortedOrder(Distances(ws), ascending)[j]
  {
    SortedOrderStable(Distances(ws), ascending);
  }

  /** The elements of `s` at the positions `order`, in that order. */
  function Pick<T>(s: seq<T>, order: seq<nat>): (r: seq<T>)
    requires forall p :: 0 <= p < |order| ==> order[p] < |s|
    ensures |r| == |order|
    ensures forall k :: 0 <= k < |order| ==> r[k] == s[order[k]]
  {
    if order == [] then [] else [s[order[0]]] + Pick(s, order[1..])
  }

  lemma {:induction false} PickInsert<T>(s: seq<T>, i: nat, order: seq<nat>, keys: seq<real>, ascending: bool)
    requires |s| == |keys| && i < |keys|
    requires forall p :: 0 <= p < |order| ==> order[p] < |keys|
    ensures multiset(Pick(s, Insert(i, order, keys, ascending))) == multiset(Pick(s, order)) + multiset{s[i]}
  {
    if order != [] && !InOrder(keys[i], keys[order[0]], ascending) {
      PickInsert(s, i, order[1..], keys, ascending);
      var t := Insert(i, order[1..], keys, ascending);
      assert Insert(i, order, keys, ascending) == [order[0]] + t;
      assert ([order[0]] + t)[1..] == t;
    } else if order != [] {
      assert ([i] + order)[1..] == order;
    }
  }

  lemma {:induction false} PickSortFrom<T>(s: seq<T>, keys: seq<real>, from: nat, ascending: bool)
    requires |s| == |keys| && from <= |keys|
    ensures multiset(Pick(s, SortFrom(keys, from, ascending))) == multiset(s[from..])
    decreases |keys| - from
  {
    if from < |keys| {
      var rest := SortFrom(keys, from + 1, ascending);
      PickSortFrom(s, keys, from + 1, ascending);
      PickInsert(s, from, rest, keys, ascending);
      MultisetOfSuffix(s, from);
    }
  }

  lemma MultisetOfSuffix<T>(s: seq<T>, from: nat)
    requires from < |s|
    ensures multiset(s[from..]) == multiset{s[from]} + multiset(s[from + 1..])
  {
    assert s[from..] == [s[from]] + s[from + 1..];
  }

  /** The sorted list holds the workouts of the old list, each as often as before. */
  lemma SortByDistancePermutation(ws: seq<Workout>, ascending: bool)
    ensures multiset(SortByDistance(ws, ascending)) == multiset(ws)
  {
    var order := SortedOrder(Distances(ws), ascending);
    PickSortFrom(ws, Distances(ws), 0, ascending);
    assert SortByDistance(ws, ascending) == Pick(ws, order);
    assert ws[0..] == ws;
  }
}
