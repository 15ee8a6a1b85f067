/**
  The `workouts` table as an append-only log held in memory, with the four queries
  the application issues against it.
 */
module WorkoutStore {
  import opened LexOrder
  import opened Timestamps

  /** One row as the queries return it: exercise name, repetitions, local timestamp. */
  datatype WorkoutRecord = WorkoutRecord(exerciseType: string, count: int, timestamp: Timestamp)

  /** The rows in insertion order. */
  type Store = seq<WorkoutRecord>

  /** `add_workout`: one row stamped with the clock reading `now`. */
  function AddWorkout(store: Store, exerciseType: string, count: int, now: Timestamp): (r: Store)
    ensures |r| == |store| + 1 && r[..|store|] == store
    ensures r[|store|] == WorkoutRecord(exerciseType, count, now)
  {
    store + [WorkoutRecord(exerciseType, count, now)]
  }

  /** The rows of one day (`WHERE date(timestamp) = date(?1)`), in insertion order. */
  function OnDate(store: Store, date: string): (r: Store)
    ensures |r| <= |store|
  {
    if |store| == 0 then []
    else
      var n := |store|;
      var prev := OnDate(store[..n - 1], date);
      var last := store[n - 1];
      if DateOf(last.timestamp) == date then prev + [last] else prev
  }

  /** The day's rows are exactly the stored rows of that day, each as often as it is stored. */
  lemma {:induction false} OnDateMultiset(store: Store, date: string)
    ensures forall x ::
      multiset(OnDate(store, date))[x] == if DateOf(x.timestamp) == date then multiset(store)[x] else 0
    decreases |store|
  {
    if |store| > 0 {
      var n := |store|;
      var last := store[n - 1];
      OnDateMultiset(store[..n - 1], date);
      assert store == store[..n - 1] + [last];
    }
  }

  /** `ORDER BY timestamp DESC`: no row is older than a row after it. */
  predicate NewestFirst(s: Store) {
    forall i, j :: 0 <= i < j < |s| ==> !Below(s[i].timestamp, s[j].timestamp)
  }

  function InsertNewestFirst(x: WorkoutRecord, s: Store): (r: Store)
    requires NewestFirst(s)
    ensures NewestFirst(r)
    ensures multiset(r) == multiset(s) + multiset{x}
  {
    if |s| == 0 then [x]
    else if !Below(x.timestamp, s[0].timestamp) then
      PrependNewest(x, s);
      [x] + s
    else
      var tail := InsertNewestFirst(x, s[1..]);
      assert s == [s[0]] + s[1..];
      KeepHeadNewest(s[0], s[1..], x, tail);
      assert multiset([s[0]] + tail) == multiset([s[0]]) + multiset(tail);
      [s[0]] + tail
  }

  /** A row no older than the first of a newest-first sequence can go in front of it. */
  lemma PrependNewest(x: WorkoutRecord, s: Store)
    requires NewestFirst(s) && |s| > 0 && !Below(x.timestamp, s[0].timestamp)
    ensures NewestFirst([x] + s)
  {
    var r := [x] + s;
    forall j | 1 < j < |r| ensures !Below(x.timestamp, r[j].timestamp) {
      NotBelowTransitive(x.timestamp, s[0].timestamp, s[j - 1].timestamp);
    }
  }

  /** The head stays first when an older row is inserted somewhere behind it. */
  lemma KeepHeadNewest(h: WorkoutRecord, rest: Store, x: WorkoutRecord, tail: Store)
    requires NewestFirst([h] + rest) && Below(x.timestamp, h.timestamp)
    requires NewestFirst(tail) && multiset(tail) == multiset(rest) + multiset{x}
    ensures NewestFirst([h] + tail)
  {
    var r := [h] + tail;
    forall j | 0 < j < |r| ensures !Below(h.timestamp, r[j].timestamp) {
      var y := r[j];
      assert y in multiset(tail);
      if y == x {
        BelowAsymmetric(x.timestamp, h.timestamp);
      } else {
        assert y in multiset(rest);
        var k :| 0 <= k < |rest| && rest[k] == y;
        var s := [h] + rest;
        assert s[0] == h && s[k + 1] == y;
        assert !Below(s[0].timestamp, s[k + 1].timestamp);
      }
    }
  }

  /** Sorting by timestamp, newest first; rows with equal timestamps keep their insertion order. */
  function SortNewestFirst(s: Store): (r: Store)
    ensures NewestFirst(r)
    ensures multiset(r) == multiset(s)
  {
    if |s| == 0 then []
    else
      assert s == [s[0]] + s[1..];
      InsertNewestFirst(s[0], SortNewestFirst(s[1..]))
  }

  /** `get_workouts_by_date`: the day's rows, each as often as it is stored, newest first. */
  function WorkoutsByDate(store: Store, date: string): (r: Store)
    ensures NewestFirst(r)
    ensures multiset(r) == multiset(OnDate(store, date))
    ensures forall x :: x in r <==> x in store && DateOf(x.timestamp) == date
  {
    var r := SortNewestFirst(OnDate(store, date));
    OnDateMultiset(store, date);
    assert forall x :: x in r <==> x in multiset(r);
    r
  }

  /** `get_today_workouts`: the same query for the day `today` read from the clock. */
  function TodayWorkouts(store: Store, today: string): (r: Store)
    ensures NewestFirst(r)
    ensures multiset(r) == multiset(OnDate(store, today))
    ensures forall x :: x in r <==> x in store && DateOf(x.timestamp) == today
  {
    WorkoutsByDate(store, today)
  }

  /** Some stored row falls on `date`. */
  predicate HasDate(store: Store, date: string) {
    exists i :: 0 <= i < |store| && DateOf(store[i].timestamp) == date
  }

  /** Strictly descending: most recent day first, each day once. */
  predicate StrictlyNewestFirst(ds: seq<string>) {
    forall i, j :: 0 <= i < j < |ds| ==> Below(ds[j], ds[i])
  }

  function InsertDate(d: string, ds: seq<string>): (r: seq<string>)
    requires StrictlyNewestFirst(ds)
    ensures StrictlyNewestFirst(r)
    ensures forall e :: e in r <==> e == d || e in ds
    ensures |r| == if d in ds then |ds| else |ds| + 1
  {
    if |ds| == 0 then [d]
    else if d == ds[0] then ds
    else if Below(ds[0], d) then
      var r := [d] + ds;
      assert forall j :: 0 < j < |r| ==> Below(r[j], d) by {
        forall j | 1 < j < |r| ensures Below(r[j], d) {
          BelowTransitive(ds[j - 1], ds[0], d);
        }
      }
      assert d !in ds by {
        if d in ds {
          var k :| 0 <= k < |ds| && ds[k] == d;
          if k > 0 { BelowAsymmetric(ds[0], d); }
        }
      }
      r
    else
      BelowTotal(d, ds[0]);
      var tail := InsertDate(d, ds[1..]);
      var r := [ds[0]] + tail;
      assert ds == [ds[0]] + ds[1..];
      assert forall j :: 0 < j < |r| ==> Below(r[j], ds[0]) by {
        forall j | 0 < j < |r| ensures Below(r[j], ds[0]) {
          var e := r[j];
          assert e in tail;
          if e != d {
            var k :| 0 <= k < |ds[1..]| && ds[1..][k] == e;
            assert ds[k + 1] == e;
          }
        }
      }
      assert d in ds <==> d in ds[1..];
      r
  }

  /** `get_unique_dates`: `SELECT DISTINCT date(timestamp) ... ORDER BY workout_date DESC`. */
  function UniqueDates(store: Store): (r: seq<string>)
    ensures StrictlyNewestFirst(r)
    ensures forall d :: d in r <==> HasDate(store, d)
  {
    if |store| == 0 then []
    else
      var n := |store|;
      var prev := store[..n - 1];
      var r := InsertDate(DateOf(store[n - 1].timestamp), UniqueDates(prev));
      assert forall d :: HasDate(store, d) <==> HasDate(prev, d) || d == DateOf(store[n - 1].timestamp) by {
        forall d ensures HasDate(store, d) <==> HasDate(prev, d) || d == DateOf(store[n - 1].timestamp) {
          if HasDate(store, d) {
            var i :| 0 <= i < n && DateOf(store[i].timestamp) == d;
            if i < n - 1 { assert prev[i] == store[i]; }
          }
          if HasDate(prev, d) {
            var i :| 0 <= i < n - 1 && DateOf(prev[i].timestamp) == d;
            assert store[i] == prev[i];
          }
        }
      }
      r
  }

  /** No day is listed twice. */
  lemma UniqueDatesDistinct(store: Store)
    ensures var ds := UniqueDates(store);
      forall i, j :: 0 <= i < j < |ds| ==> ds[i] != ds[j]
  {
    var ds := UniqueDates(store);
    forall i, j | 0 <= i < j < |ds| ensures ds[i] != ds[j] {
      BelowIrreflexive(ds[i]);
    }
  }

  /**
    Appending a row adds it to its own day's rows and lists that day; every other day's
    rows are returned exactly as before.
   */
  lemma AddWorkoutQueries(store: Store, exerciseType: string, count: int, now: Timestamp)
    ensures var after := AddWorkout(store, exerciseType, count, now);
      var today := DateOf(now);
      && multiset(WorkoutsByDate(after, today)) ==
           multiset(WorkoutsByDate(store, today)) + multiset{WorkoutRecord(exerciseType, count, now)}
      && (forall d :: d != today ==> WorkoutsByDate(after, d) == WorkoutsByDate(store, d))
      && (forall d :: d in UniqueDates(after) <==> d in UniqueDates(store) || d == today)
      && |UniqueDates(after)| == if today in UniqueDates(store) then |UniqueDates(store)| else |UniqueDates(store)| + 1
  {
    var after := AddWorkout(store, exerciseType, count, now);
    assert after[..|after| - 1] == store;
  }
}
