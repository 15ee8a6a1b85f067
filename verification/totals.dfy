/** The "Today's Stats" summary of the main screen: repetitions per exercise and row count. */
module Totals {
  import opened Decimal
  import opened Timestamps
  import opened WorkoutStore

  datatype Summary = Summary(squats: int, pushUps: int, workouts: nat)

  function Plus(a: Summary, b: Summary): Summary {
    Summary(a.squats + b.squats, a.pushUps + b.pushUps, a.workouts + b.workouts)
  }

  /**
    One iteration of the summary loop with unbounded accumulators: a "squats" row adds to
    the squat total, a "push-ups" row to the push-up total, any other name to neither.
   */
  function Add(t: Summary, w: WorkoutRecord): Summary {
    if w.exerciseType == "squats" then Summary(t.squats + w.count, t.pushUps, t.workouts + 1)
    else if w.exerciseType == "push-ups" then Summary(t.squats, t.pushUps + w.count, t.workouts + 1)
    else Summary(t.squats, t.pushUps, t.workouts + 1)
  }

  /** The summary loop over the rows, front to back, with unbounded accumulators. */
  function Tally(ws: Store): Summary {
    if |ws| == 0 then Summary(0, 0, 0) else Add(Tally(ws[..|ws| - 1]), ws[|ws| - 1])
  }

  /** One iteration as written: `i32` accumulators that wrap on overflow, as release builds do. */
  function AddI32(t: Summary, w: WorkoutRecord): Summary {
    if w.exerciseType == "squats" then Summary(WrapI32(t.squats + w.count), t.pushUps, t.workouts + 1)
    else if w.exerciseType == "push-ups" then Summary(t.squats, WrapI32(t.pushUps + w.count), t.workouts + 1)
    else Summary(t.squats, t.pushUps, t.workouts + 1)
  }

  /** The summary loop as written. */
  function TallyI32(ws: Store): Summary {
    if |ws| == 0 then Summary(0, 0, 0) else AddI32(TallyI32(ws[..|ws| - 1]), ws[|ws| - 1])
  }

  /** Sum of the repetitions of `kind` recorded on `date`. */
  function SumCounts(store: Store, date: string, kind: string): int {
    if |store| == 0 then 0
    else
      var w := store[|store| - 1];
      SumCounts(store[..|store| - 1], date, kind) +
        (if DateOf(w.timestamp) == date && w.exerciseType == kind then w.count else 0)
  }

  /** Number of rows recorded on `date`. */
  function CountOn(store: Store, date: string): nat {
    if |store| == 0 then 0
    else
      var w := store[|store| - 1];
      CountOn(store[..|store| - 1], date) + (if DateOf(w.timestamp) == date then 1 else 0)
  }

  lemma AddPlus(a: Summary, b: Summary, w: WorkoutRecord)
    ensures Add(Plus(a, b), w) == Plus(a, Add(b, w))
  {
  }

  lemma {:induction false} TallyAppend(u: Store, v: Store)
    ensures Tally(u + v) == Plus(Tally(u), Tally(v))
    decreases |v|
  {
    if |v| == 0 {
      assert u + v == u;
    } else {
      var n := |v|;
      var x := v[n - 1];
      assert (u + v)[..|u + v| - 1] == u + v[..n - 1];
      assert (u + v)[|u + v| - 1] == x;
      calc {
        Tally(u + v);
        Add(Tally(u + v[..n - 1]), x);
        { TallyAppend(u, v[..n - 1]); }
        Add(Plus(Tally(u), Tally(v[..n - 1])), x);
        { AddPlus(Tally(u), Tally(v[..n - 1]), x); }
        Plus(Tally(u), Add(Tally(v[..n - 1]), x));
        Plus(Tally(u), Tally(v));
      }
    }
  }

  /** The summary does not depend on the order the query returns the rows in. */
  lemma {:induction false} TallyPermutation(a: Store, b: Store)
    requires multiset(a) == multiset(b)
    ensures Tally(a) == Tally(b)
    decreases |a|
  {
    if |a| == 0 {
      assert |b| == |multiset(b)| == 0;
    } else {
      var n := |a|;
      var x := a[n - 1];
      var front := a[..n - 1];
      assert a == front + [x];
      assert x in multiset(b);
      var k :| 0 <= k < |b| && b[k] == x;
      var b1, b2 := b[..k], b[k + 1..];
      RemoveMatching(a, b, k);
      TallyPermutation(front, b1 + b2);
      TallyAppend(front, [x]);
      SplitTally(b, k);
    }
  }

  /** Taking the last row off `a` and a matching row off `b` keeps the two multisets equal. */
  lemma RemoveMatching(a: Store, b: Store, k: nat)
    requires |a| > 0 && k < |b| && b[k] == a[|a| - 1]
    requires multiset(a) == multiset(b)
    ensures multiset(a[..|a| - 1]) == multiset(b[..k] + b[k + 1..])
  {
    var front, x := a[..|a| - 1], a[|a| - 1];
    assert a == front + [x];
    assert multiset(a) == multiset(front) + multiset{x};
    SplitAt(b, k);
    var rest := b[..k] + b[k + 1..];
    forall y ensures multiset(front)[y] == multiset(rest)[y] {
      assert multiset(a)[y] == multiset(b)[y];
    }
  }

  lemma SplitAt(b: Store, k: nat)
    requires k < |b|
    ensures b == b[..k] + [b[k]] + b[k + 1..]
    ensures multiset(b) == multiset(b[..k] + b[k + 1..]) + multiset{b[k]}
  {
    assert b == b[..k] + [b[k]] + b[k + 1..];
  }

  lemma PlusSwap(a: Summary, b: Summary, c: Summary)
    ensures Plus(Plus(a, b), c) == Plus(Plus(a, c), b)
  {
  }

  lemma SplitTally(b: Store, k: nat)
    requires k < |b|
    ensures Tally(b) == Plus(Tally(b[..k] + b[k + 1..]), Tally([b[k]]))
  {
    SplitAt(b, k);
    SplitTally3(b[..k], [b[k]], b[k + 1..], b);
  }

  lemma SplitTally3(b1: Store, one: Store, b2: Store, whole: Store)
    requires whole == (b1 + one) + b2
    ensures Tally(whole) == Plus(Tally(b1 + b2), Tally(one))
  {
    var t1, t2, t := Tally(b1), Tally(b2), Tally(one);
    calc {
      Tally((b1 + one) + b2);
      { TallyAppend(b1 + one, b2); }
      Plus(Tally(b1 + one), t2);
      { TallyAppend(b1, one); }
      Plus(Plus(t1, t), t2);
      { PlusSwap(t1, t, t2); }
      Plus(Plus(t1, t2), t);
      { TallyAppend(b1, b2); }
      Plus(Tally(b1 + b2), t);
    }
  }

  /** Over one day's rows, the summary is the per-exercise sums and the row count of that day. */
  lemma {:induction false} TallyOnDate(store: Store, date: string)
    ensures Tally(OnDate(store, date)) ==
      Summary(SumCounts(store, date, "squats"), SumCounts(store, date, "push-ups"), CountOn(store, date))
    decreases |store|
  {
    if |store| > 0 {
      var n := |store|;
      TallyOnDate(store[..n - 1], date);
      var w := store[n - 1];
      var prev := OnDate(store[..n - 1], date);
      if DateOf(w.timestamp) == date {
        assert OnDate(store, date) == prev + [w];
        assert (prev + [w])[..|prev|] == prev;
        assert Tally(prev + [w]) == Add(Tally(prev), w);
      } else {
        assert OnDate(store, date) == prev;
      }
    }
  }

  /**
    The main screen's summary for `today`: the squat and push-up totals are the sums of the
    day's repetitions of each exercise, and the workout count is the number of the day's rows.
   */
  function TodayTotals(store: Store, today: string): (t: Summary)
    ensures t.squats == SumCounts(store, today, "squats")
    ensures t.pushUps == SumCounts(store, today, "push-ups")
    ensures t.workouts == CountOn(store, today)
  {
    var ws := TodayWorkouts(store, today);
    TallyPermutation(ws, OnDate(store, today));
    TallyOnDate(store, today);
    Tally(ws)
  }

  /** The true totals reduced to 32 bits. */
  function Wrapped(t: Summary): Summary {
    Summary(WrapI32(t.squats), WrapI32(t.pushUps), t.workouts)
  }

  lemma AddI32Wraps(t: Summary, w: WorkoutRecord)
    ensures AddI32(Wrapped(t), w) == Wrapped(Add(t, w))
  {
    WrapAdd(t.squats, w.count);
    WrapAdd(t.pushUps, w.count);
  }

  /** The as-written loop computes the true totals reduced to 32 bits. */
  lemma {:induction false} TallyI32Wraps(ws: Store)
    ensures TallyI32(ws) == Wrapped(Tally(ws))
    decreases |ws|
  {
    if |ws| > 0 {
      var n := |ws|;
      TallyI32Wraps(ws[..n - 1]);
      AddI32Wraps(Tally(ws[..n - 1]), ws[n - 1]);
    }
  }

  /**
    Two saves of the largest count the input accepts on one day: the as-written loop shows
    -2 squats, the true total is 4294967294.
   */
  lemma TallyI32Overflows(now: Timestamp)
    ensures var w := WorkoutRecord("squats", I32Max, now);
      && TallyI32([w, w]).squats == -2
      && Tally([w, w]).squats == 2 * I32Max
  {
    var w := WorkoutRecord("squats", I32Max, now);
    assert [w, w][..1] == [w];
    assert [w][..0] == [];
    assert TallyI32([w]) == Summary(I32Max, 0, 1);
    assert TallyI32([w, w]) == AddI32(Summary(I32Max, 0, 1), w);
    assert WrapI32(I32Max + I32Max) == -2;
    assert Tally([w]) == Summary(I32Max, 0, 1);
    assert Tally([w, w]) == Add(Summary(I32Max, 0, 1), w);
  }

  /** The worked example: 10 and 15 squats and 5 push-ups on one day. */
  lemma TotalsExample(t1: Timestamp, t2: Timestamp, t3: Timestamp)
    requires DateOf(t1) == DateOf(t2) == DateOf(t3)
    ensures var store := [WorkoutRecord("squats", 10, t1), WorkoutRecord("squats", 15, t2), WorkoutRecord("push-ups", 5, t3)];
      TodayTotals(store, DateOf(t1)) == Summary(25, 5, 3)
  {
    var store := [WorkoutRecord("squats", 10, t1), WorkoutRecord("squats", 15, t2), WorkoutRecord("push-ups", 5, t3)];
    var d := DateOf(t1);
    assert store[..2] == [store[0], store[1]];
    assert store[..2][..1] == [store[0]];
    assert store[..2][..1][..0] == [];
    assert SumCounts(store[..1], d, "squats") == 10;
    assert SumCounts(store[..2], d, "squats") == 25;
    assert SumCounts(store, d, "squats") == 25;
    assert SumCounts(store[..1], d, "push-ups") == 0;
    assert SumCounts(store[..2], d, "push-ups") == 0;
    assert SumCounts(store, d, "push-ups") == 5;
    assert CountOn(store[..1], d) == 1;
    assert CountOn(store[..2], d) == 2;
  }
}
