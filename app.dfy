/** The list state of `App` (script.js:88-95): the ordered workouts, the sort direction and
    the snapshot stored under the key `'workouts'`, with the operations that change them. */
module Mapty {
  import opened Wrappers
  import opened Validation
  import opened Workouts
  import opened Sorting

  /** No workout object occurs twice in the list. */
  ghost predicate Distinct<T>(s: seq<T>) {
    forall i, j :: 0 <= i < j < |s| ==> s[i] != s[j]
  }

  lemma DistinctAppend<T>(s: seq<T>, x: T)
    requires Distinct(s) && x !in s
    ensures Distinct(s + [x])
  {
    forall i, j | 0 <= i < j < |s + [x]| ensures (s + [x])[i] != (s + [x])[j] {
      assert (s + [x])[i] == s[i];
      if j == |s| {
        assert s[i] in s;
      }
    }
  }

  lemma DistinctRemoveAt<T>(s: seq<T>, i: nat)
    requires Distinct(s) && i < |s|
    ensures Distinct(RemoveAt(s, i))
  {
  }

  /** Concatenation regroups freely. */
  lemma AppendAssociative<T>(a: seq<T>, b: seq<T>, c: seq<T>)
    ensures a + b + c == a + (b + c)
  {
  }

  /** A list read along an injective choice of positions keeps its elements distinct. */
  lemma DistinctRearranged<T>(s: seq<T>, order: seq<nat>, t: seq<T>)
    requires Distinct(s) && Injective(order) && |t| == |order|
    requires forall k :: 0 <= k < |order| ==> order[k] < |s| && t[k] == s[order[k]]
    ensures Distinct(t)
  {
    forall p, q | 0 <= p < q < |t| ensures t[p] != t[q] {
      if order[p] < order[q] {
      } else {
        assert order[q] < order[p];
      }
    }
  }

  /** Sorting a list without repeats gives a list without repeats. */
  lemma SortByDistanceDistinct(ws: seq<Workout>, ascending: bool)
    requires Distinct(ws)
    ensures Distinct(SortByDistance(ws, ascending))
  {
    SortedOrderPermutation(Distances(ws), ascending);
    DistinctRearranged(ws, SortedOrder(Distances(ws), ascending), SortByDistance(ws, ascending));
  }

  /** The checks of `_newWorkout` (script.js:233-236, 245-248): all three numbers finite, and
      positive except a cycling workout's elevation gain. */
  function Accepted(kind: Kind, distance: Num, duration: Num, extra: Num): (r: bool)
    ensures r ==> IsFinite(distance) && IsFinite(duration) && IsFinite(extra)
    ensures r ==> IsPositive(distance) && IsPositive(duration)
  {
    assert [distance, duration, extra][0] == distance && [distance, duration, extra][1] == duration;
    assert [distance, duration, extra][2] == extra && [distance, duration][1] == duration;
    ValidIn([distance, duration, extra])
      && IsAllPositive(if kind == Running then [distance, duration, extra] else [distance, duration])
  }

  lemma AcceptedRunning(distance: Num, duration: Num, cadence: Num)
    ensures Accepted(Running, distance, duration, cadence)
        <==> distance.Finite? && duration.Finite? && cadence.Finite?
             && distance.value > 0.0 && duration.value > 0.0 && cadence.value > 0.0
  {
    var inputs := [distance, duration, cadence];
    assert inputs[0] == distance && inputs[1] == duration && inputs[2] == cadence;
  }

  lemma AcceptedCycling(distance: Num, duration: Num, elevation: Num)
    ensures Accepted(Cycling, distance, duration, elevation)
        <==> distance.Finite? && duration.Finite? && elevation.Finite?
             && distance.value > 0.0 && duration.value > 0.0
  {
    var inputs := [distance, duration, elevation];
    assert inputs[0] == distance && inputs[1] == duration && inputs[2] == elevation;
    assert [distance, duration][0] == distance && [distance, duration][1] == duration;
  }

  /** Sample forms: a negative distance is rejected for both variants, a negative elevation
      gain is accepted for cycling but a negative cadence is not, and NaN or Infinity is
      rejected. */
  lemma AcceptedExamples()
    ensures !Accepted(Running, Finite(-1.0), Finite(30.0), Finite(150.0))
    ensures !Accepted(Cycling, Finite(-1.0), Finite(30.0), Finite(100.0))
    ensures Accepted(Cycling, Finite(5.0), Finite(10.0), Finite(-5.0))
    ensures !Accepted(Running, Finite(5.0), Finite(10.0), Finite(-5.0))
    ensures !Accepted(Cycling, Finite(5.0), Finite(10.0), NaN)
    ensures !Accepted(Running, PositiveInfinity, Finite(10.0), Finite(150.0))
  {
    AcceptedRunning(Finite(-1.0), Finite(30.0), Finite(150.0));
    AcceptedCycling(Finite(-1.0), Finite(30.0), Finite(100.0));
    AcceptedCycling(Finite(5.0), Finite(10.0), Finite(-5.0));
    AcceptedRunning(Finite(5.0), Finite(10.0), Finite(-5.0));
    AcceptedCycling(Finite(5.0), Finite(10.0), NaN);
    AcceptedRunning(PositiveInfinity, Finite(10.0), Finite(150.0));
  }

  /** `splice(i, 1)`: element `i` removed, the others in their order. */
  function RemoveAt<T>(s: seq<T>, i: nat): (r: seq<T>)
    requires i < |s|
    ensures |r| == |s| - 1
    ensures forall k :: 0 <= k < i ==> r[k] == s[k]
    ensures forall k :: i <= k < |r| ==> r[k] == s[k + 1]
    ensures multiset(r) + multiset{s[i]} == multiset(s)
  {
    assert s == s[..i] + [s[i]] + s[i + 1..];
    s[..i] + s[i + 1..]
  }

  /** `s[i] = x` on a JavaScript array: replaces element `i`, or appends when `i` is the length. */
  function AssignAt<T>(s: seq<T>, i: nat, x: T): (r: seq<T>)
    requires i <= |s|
    ensures |r| == if i < |s| then |s| else |s| + 1
    ensures r[i] == x
    ensures forall k :: 0 <= k < |s| && k != i ==> r[k] == s[k]
  {
    if i < |s| then s[i := x] else s + [x]
  }

  /** What one stored record turns into on load: a fresh workout of the same variant built
      from its coordinates, distance, duration and cadence or elevation gain; nothing if its
      type is neither running nor cycling. */
  function Rebuilt(r: Record, stamp: Stamp): seq<Record> {
    match KindOf(r.tag)
    case Some(kind) => [FreshRecord(kind, r.coords, r.distance, r.duration, r.extra, stamp)]
    case None => []
  }

  /** A record gives one workout exactly when its type is known, a fresh one of that type. */
  lemma RebuiltShape(r: Record, stamp: Stamp)
    ensures |Rebuilt(r, stamp)| <= 1
    ensures |Rebuilt(r, stamp)| == 1 <==> KindOf(r.tag).Some?
    ensures |Rebuilt(r, stamp)| == 1 ==>
      KindOf(Rebuilt(r, stamp)[0].tag) == KindOf(r.tag) && Rebuilt(r, stamp)[0].clicks == 0
  {
  }

  /** `f` applied to the first `n` pairs `xs[k], ys[k]`, the results joined in order. */
  function Joined<A, B, C>(f: (A, B) -> seq<C>, xs: seq<A>, ys: seq<B>, n: nat): seq<C>
    requires n <= |xs| && n <= |ys|
  {
    if n == 0 then [] else Joined(f, xs, ys, n - 1) + f(xs[n - 1], ys[n - 1])
  }

  /** When each pair gives at most one element, the first `n` pairs give at most `n`. */
  lemma {:induction false} JoinedBound<A, B, C>(f: (A, B) -> seq<C>, xs: seq<A>, ys: seq<B>, n: nat)
    requires n <= |xs| && n <= |ys|
    requires forall a, b :: |f(a, b)| <= 1
    ensures |Joined(f, xs, ys, n)| <= n
  {
    if n > 0 {
      JoinedBound(f, xs, ys, n - 1);
    }
  }

  /** Only the first `n` elements of `xs` matter. */
  lemma {:induction false} JoinedPrefix<A, B, C>(f: (A, B) -> seq<C>, xs: seq<A>, zs: seq<A>, ys: seq<B>, n: nat)
    requires n <= |xs| && n <= |zs| && n <= |ys|
    requires forall i :: 0 <= i < n ==> xs[i] == zs[i]
    ensures Joined(f, xs, ys, n) == Joined(f, zs, ys, n)
  {
    if n > 0 {
      JoinedPrefix(f, xs, zs, ys, n - 1);
    }
  }

  lemma {:induction false} JoinedAppend<A, B, C>(f: (A, B) -> seq<C>, a: seq<A>, b: seq<A>, ys: seq<B>, m: nat)
    requires m <= |b| && |a| + |b| <= |ys|
    ensures Joined(f, a + b, ys, |a| + m) == Joined(f, a, ys, |a|) + Joined(f, b, ys[|a|..], m)
  {
    if m == 0 {
      JoinedPrefix(f, a + b, a, ys, |a|);
    } else {
      JoinedAppend(f, a, b, ys, m - 1);
      assert (a + b)[|a| + m - 1] == b[m - 1];
      assert ys[|a|..][m - 1] == ys[|a| + m - 1];
    }
  }

  /** When each pair gives exactly one element, the joined list holds those elements in order. */
  lemma {:induction false} JoinedSingletons<A, B, C>(f: (A, B) -> seq<C>, xs: seq<A>, ys: seq<B>, n: nat)
    requires n <= |xs| && n <= |ys|
    requires forall k :: 0 <= k < n ==> |f(xs[k], ys[k])| == 1
    ensures |Joined(f, xs, ys, n)| == n
    ensures forall k :: 0 <= k < n ==> Joined(f, xs, ys, n)[k] == f(xs[k], ys[k])[0]
  {
    if n > 0 {
      JoinedSingletons(f, xs, ys, n - 1);
    }
  }

  /** The workouts `_getLocalStorage` builds from the stored records, in order; the record at
      position `k` gets the id and date `stamps[k]`. */
  function Loaded(data: seq<Record>, stamps: seq<Stamp>): (rs: seq<Record>)
    requires |data| <= |stamps|
    ensures |rs| <= |data|
  {
    JoinedBound(Rebuilt, data, stamps, |data|);
    Joined(Rebuilt, data, stamps, |data|)
  }

  /** Loading is record by record: the records of `a + b` load as those of `a` followed by
      those of `b`, with the stamps that follow. */
  lemma LoadedAppend(a: seq<Record>, b: seq<Record>, stamps: seq<Stamp>)
    requires |a| + |b| <= |stamps|
    ensures Loaded(a + b, stamps) == Loaded(a, stamps) + Loaded(b, stamps[|a|..])
  {
    JoinedAppend(Rebuilt, a, b, stamps, |b|);
  }

  /** A record whose type is neither running nor cycling is skipped. */
  lemma LoadedSkipsUnknown(data: seq<Record>, r: Record, stamps: seq<Stamp>)
    requires |data| + 1 <= |stamps|
    requires KindOf(r.tag) == None
    ensures Loaded(data + [r], stamps) == Loaded(data, stamps)
  {
    JoinedPrefix(Rebuilt, data + [r], data, stamps, |data|);
  }

  /** Records that all carry a known type load one for one, each as a fresh workout of that
      type with the same coordinates, distance, duration and cadence or elevation gain. */
  lemma LoadedTyped(data: seq<Record>, stamps: seq<Stamp>)
    requires |data| <= |stamps|
    requires forall k :: 0 <= k < |data| ==> KindOf(data[k].tag).Some?
    ensures |Loaded(data, stamps)| == |data|
    ensures forall k :: 0 <= k < |data| ==>
      Loaded(data, stamps)[k]
        == FreshRecord(KindOf(data[k].tag).value, data[k].coords, data[k].distance,
                       data[k].duration, data[k].extra, stamps[k])
  {
    JoinedSingletons(Rebuilt, data, stamps, |data|);
  }

  /** Saving a list and loading it back gives the same variants, in the same order, with the
      same coordinates, distance, duration and cadence or elevation gain; the metric is
      recomputed, the clicks start again at zero and the id and date are new. */
  lemma SaveThenLoad(ws: seq<Workout>, stamps: seq<Stamp>)
    requires |ws| <= |stamps|
    ensures |Loaded(Snapshots(ws), stamps)| == |ws|
    ensures forall k :: 0 <= k < |ws| ==>
      var r := Loaded(Snapshots(ws), stamps)[k];
      r.tag == TypeName(ws[k].kind) && r.coords == ws[k].coords
      && r.distance == ws[k].distance && r.duration == ws[k].duration && r.extra == ws[k].extra
      && r.metric == Derived(ws[k].kind, ws[k].distance, ws[k].duration)
      && r.clicks == 0 && r.id == stamps[k].id && r.date == stamps[k].date
  {
    SnapshotsElementwise(ws);
    LoadedTyped(Snapshots(ws), stamps);
  }

  class App {
    /** `#workouts`. */
    var workouts: seq<Workout>
    /** `isAscending`: the direction of the next sort. */
    var isAscending: bool
    /** `localStorage.getItem('workouts')`: absent, or the list as it was last saved. */
    var stored: Option<seq<Record>>

    ghost predicate Valid()
      reads this
    {
      Distinct(workouts)
    }

    /** `new App()`: an empty list sorting descending first, then filled from storage. */
    constructor (storage: Option<seq<Record>>, stamps: seq<Stamp>)
      requires storage.Some? ==> |storage.value| <= |stamps|
      ensures Valid()
      ensures isAscending == false && stored == storage
      ensures forall w :: w in workouts ==> fresh(w)
      ensures Snapshots(workouts) == if storage.None? then [] else Loaded(storage.value, stamps)
    {
      workouts := [];
      isAscending := false;
      stored := storage;
      new;
      GetLocalStorage(stamps);
    }

    /** `_getLocalStorage`: appends one fresh workout per stored record of a known type. */
    method GetLocalStorage(stamps: seq<Stamp>)
      requires stored.Some? ==> |stored.value| <= |stamps|
      modifies this`workouts
      ensures old(Valid()) ==> Valid()
      ensures |workouts| >= |old(workouts)| && workouts[..|old(workouts)|] == old(workouts)
      ensures forall k :: |old(workouts)| <= k < |workouts| ==> fresh(workouts[k])
      ensures Snapshots(workouts)
           == old(Snapshots(workouts)) + if stored.None? then [] else Loaded(stored.value, stamps)
    {
      if stored.None? {
        assert Snapshots(workouts) + [] == Snapshots(workouts);
        return;
      }
      var added := RestoreAll(stored.value, stamps);
      SnapshotsAppend(old(workouts), added);
      assert workouts[..|old(workouts)|] == old(workouts);
      forall j | |old(workouts)| <= j < |workouts| ensures fresh(workouts[j]) {
        assert workouts[j] == added[j - |old(workouts)|] && added[j - |old(workouts)|] in added;
      }
    }

    /** The `forEach` of `_getLocalStorage` over the parsed records. */
    method RestoreAll(data: seq<Record>, stamps: seq<Stamp>) returns (added: seq<Workout>)
      requires |data| <= |stamps|
      modifies this`workouts
      ensures old(Valid()) ==> Valid()
      ensures workouts == old(workouts) + added
      ensures forall w :: w in added ==> fresh(w)
      ensures Snapshots(added) == Loaded(data, stamps)
    {
      added := [];
      var k := 0;
      while k < |data|
        invariant 0 <= k <= |data|
        invariant old(Valid()) ==> Valid()
        invariant workouts == old(workouts) + added
        invariant forall w :: w in added ==> fresh(w)
        invariant Snapshots(added) == Joined(Rebuilt, data, stamps, k)
      {
        ghost var done := Snapshots(added);
        var pushed := Restore(data[k], stamps[k]);
        SnapshotsAppend(added, pushed);
        AppendAssociative(old(workouts), added, pushed);
        assert Joined(Rebuilt, data, stamps, k + 1) == done + Rebuilt(data[k], stamps[k]);
        added := added + pushed;
        k := k + 1;
      }
    }

    /** The body of the `forEach` in `_getLocalStorage`: a record of type running or cycling
        is pushed as a new workout of that variant, any other record is skipped. */
    method Restore(r: Record, stamp: Stamp) returns (pushed: seq<Workout>)
      modifies this`workouts
      ensures old(Valid()) ==> Valid()
      ensures workouts == old(workouts) + pushed
      ensures forall w :: w in pushed ==> fresh(w)
      ensures Snapshots(pushed) == Rebuilt(r, stamp)
    {
      var kind := KindOf(r.tag);
      if kind.Some? {
        var w := new Workout(kind.value, r.coords, r.distance, r.duration, r.extra, stamp);
        if Valid() {
          DistinctAppend(workouts, w);
        }
        pushed := [w];
      } else {
        pushed := [];
      }
      workouts := workouts + pushed;
    }

    /** `_setLocalStorage`: the whole list, serialised, under the key. */
    method SetLocalStorage()
      modifies this`stored
      ensures stored == Some(Snapshots(workouts))
    {
      stored := Some(Snapshots(workouts));
    }

    /** `_resetLocalStorage`: the key removed. */
    method ResetLocalStorage()
      modifies this`stored
      ensures stored == None
    {
      stored := None;
    }

    /** `_updateLocalStorage`: a removal followed by a save, which leaves what one save leaves. */
    method UpdateLocalStorage()
      modifies this`stored
      ensures stored == Some(Snapshots(workouts))
    {
      ResetLocalStorage();
      SetLocalStorage();
    }

    /** The list part of `_newWorkout`: validates the submitted numbers, and when they pass
        appends one new workout at the end and saves. A rejected form changes nothing. */
    method NewWorkout(kind: Kind, coords: Coords, distance: Num, duration: Num, extra: Num, stamp: Stamp)
      returns (accepted: bool)
      modifies this`workouts, this`stored
      ensures old(Valid()) ==> Valid()
      ensures accepted == Accepted(kind, distance, duration, extra)
      ensures !accepted ==> workouts == old(workouts) && stored == old(stored)
      ensures accepted ==> distance.Finite? && duration.Finite? && extra.Finite?
      ensures accepted ==> |workouts| == |old(workouts)| + 1 && workouts[..|old(workouts)|] == old(workouts)
      ensures accepted ==> fresh(workouts[|old(workouts)|])
      ensures accepted ==>
                Snapshot(workouts[|old(workouts)|])
                == FreshRecord(kind, coords, distance.value, duration.value, extra.value, stamp)
      ensures accepted ==> stored == Some(Snapshots(workouts))
    {
      if !Accepted(kind, distance, duration, extra) {
        return false;
      }
      if kind == Running {
        AcceptedRunning(distance, duration, extra);
      } else {
        AcceptedCycling(distance, duration, extra);
      }
      var w := new Workout(kind, coords, distance.value, duration.value, extra.value, stamp);
      if Valid() {
        DistinctAppend(workouts, w);
      }
      workouts := workouts + [w];
      assert workouts[..|old(workouts)|] == old(workouts);
      SetLocalStorage();
      return true;
    }

    /** The model side of `_moveToPopup`: the clicked workout counts one more click. The
        stored snapshot is not written, so it keeps the old count. */
    method FocusWorkout(i: nat)
      requires i < |workouts|
      modifies {workouts[i]}`clicks
      ensures workouts[i].clicks == old(workouts[i].clicks) + 1
      ensures workouts == old(workouts) && stored == old(stored)
    {
      workouts[i].Click();
    }

    /** `_deleteWorkout` at the index the click resolved to: that workout removed, storage updated. */
    method DeleteWorkout(i: nat)
      requires i < |workouts|
      modifies this`workouts, this`stored
      ensures old(Valid()) ==> Valid()
      ensures workouts == RemoveAt(old(workouts), i)
      ensures stored == Some(Snapshots(workouts))
    {
      if Valid() {
        DistinctRemoveAt(workouts, i);
      }
      workouts := RemoveAt(workouts, i);
      UpdateLocalStorage();
    }

    /** `_deleteAll`: an empty list and no stored key; the sort direction is kept. */
    method DeleteAll()
      modifies this`workouts, this`stored
      ensures Valid()
      ensures workouts == [] && stored == None
      ensures isAscending == old(isAscending)
    {
      workouts := [];
      ResetLocalStorage();
    }

    /** `_sortWorkouts`: sorts by distance in the current direction, flips the direction for
        the next call and saves. */
    method SortWorkouts()
      modifies this`workouts, this`isAscending, this`stored
      ensures old(Valid()) ==> Valid()
      ensures workouts == old(SortByDistance(workouts, isAscending))
      ensures isAscending == !old(isAscending)
      ensures stored == Some(Snapshots(workouts))
    {
      var sorted := SortByDistance(workouts, isAscending);
      if Valid() {
        SortByDistanceDistinct(workouts, isAscending);
      }
      isAscending := !isAscending;
      workouts := sorted;
      UpdateLocalStorage();
    }

    /** `_saveEdit` with the write-back left out: the edited workout takes the new values and
        its metric is recomputed; the list itself is unchanged and is saved. */
    method SaveEdit(w: Workout, distance: real, duration: real, extra: real)
      modifies w`distance, w`duration, w`extra, w`metric, this`stored
      ensures old(Valid()) ==> Valid()
      ensures workouts == old(workouts)
      ensures w.distance == distance && w.duration == duration && w.extra == extra
      ensures w.metric == Derived(w.kind, distance, duration)
      ensures w.clicks == old(w.clicks)
      ensures stored == Some(Snapshots(workouts))
    {
      w.Update(distance, duration, extra);
      if w.kind == Running {
        var _ := w.CalcPace();
      } else {
        var _ := w.CalcSpeed();
      }
      UpdateLocalStorage();
    }

    /** `_saveEdit` as written: it also stores the edited object back at the index captured
        when editing began, which may no longer be its position. */
    method SaveEditAsWritten(w: Workout, i: nat, distance: real, duration: real, extra: real)
      requires i <= |workouts|
      modifies w`distance, w`duration, w`extra, w`metric, this`workouts, this`stored
      ensures workouts == AssignAt(old(workouts), i, w)
      ensures w.distance == distance && w.duration == duration && w.extra == extra
      ensures w.metric == Derived(w.kind, distance, duration)
      ensures w.clicks == old(w.clicks)
      ensures stored == Some(Snapshots(workouts))
    {
      w.Update(distance, duration, extra);
      if w.kind == Running {
        var _ := w.CalcPace();
      } else {
        var _ := w.CalcSpeed();
      }
      workouts := AssignAt(workouts, i, w);
      UpdateLocalStorage();
    }
  }

  /** Editing the second of two workouts, deleting the first and then saving the edit leaves
      the edited workout in the list twice. */
  lemma StaleIndexDuplicates<T>(a: T, b: T)
    requires a != b
    ensures AssignAt(RemoveAt([a, b], 0), 1, b) == [b, b]
    ensures !Distinct(AssignAt(RemoveAt([a, b], 0), 1, b))
  {
    assert AssignAt(RemoveAt([a, b], 0), 1, b)[0] == b;
  }
}
