/**
  Sequences of key presses fed through `handle_input` as the event loop does, stopping at
  quit or at a storage failure, and the facts that hold in every state such a run reaches.
 */
module Sessions {
  import opened Wrappers
  import opened Decimal
  import opened Timestamps
  import opened Tracker
  import opened Totals
  import Db = WorkoutStore
  import TrackerProperties

  /** One key press, with the clock reading and whether the store fails at that moment. */
  datatype Input = Input(key: Key, now: Timestamp, storeFails: bool)

  datatype Halt = Running | Quit | Crashed

  datatype State = State(app: App, store: Db.Store, halt: Halt)

  /** Feed the key presses one by one until one quits or a store call fails. */
  function Replay(app: App, store: Db.Store, inputs: seq<Input>): State
    decreases |inputs|
  {
    if |inputs| == 0 then State(app, store, Running)
    else
      match HandleInput(app, store, inputs[0].key, inputs[0].now, inputs[0].storeFails)
      case Err(_) => State(app, store, Crashed)
      case Ok(t) => if t.quit then State(t.app, t.store, Quit) else Replay(t.app, t.store, inputs[1..])
  }

  lemma {:induction false} ReplayAppend(app: App, store: Db.Store, xs: seq<Input>, ys: seq<Input>)
    ensures var s := Replay(app, store, xs);
      Replay(app, store, xs + ys) == if s.halt == Running then Replay(s.app, s.store, ys) else s
    decreases |xs|
  {
    if |xs| == 0 {
      assert xs + ys == ys;
    } else {
      assert (xs + ys)[0] == xs[0] && (xs + ys)[1..] == xs[1..] + ys;
      var r := HandleInput(app, store, xs[0].key, xs[0].now, xs[0].storeFails);
      if r.Ok? && !r.value.quit {
        ReplayAppend(r.value.app, r.value.store, xs[1..], ys);
      }
    }
  }

  /** What every stored record satisfies when only this program wrote the log. */
  predicate ValidRecord(w: Db.WorkoutRecord) {
    0 < w.count <= I32Max && (w.exerciseType == "squats" || w.exerciseType == "push-ups")
  }

  predicate ValidLog(store: Db.Store) {
    forall i :: 0 <= i < |store| ==> ValidRecord(store[i])
  }

  /**
    The buffer holds only digits; the cursor is within the date list (or 0 when it is
    empty); a selected day is only set on the history screen and is a day that has records.
   */
  predicate Invariant(app: App, store: Db.Store) {
    && AllDigits(app.inputCount)
    && app.historySelected <= SaturatingPred(|Db.UniqueDates(store)|)
    && (app.selectedDate.Some? ==> app.screen == History && Db.HasDate(store, app.selectedDate.value))
  }

  /** `App::new` starts in the invariant whatever valid clock readings the log already holds. */
  lemma InitInvariant(store: Db.Store)
    ensures Invariant(Init(), store)
  {
  }

  /** Every key press keeps the invariant and the log's validity, and only appends to the log. */
  lemma StepInvariant(app: App, store: Db.Store, key: Key, now: Timestamp, storeFails: bool)
    requires Invariant(app, store)
    ensures var r := HandleInput(app, store, key, now, storeFails);
      r.Ok? ==>
        && Invariant(r.value.app, r.value.store)
        && (ValidLog(store) ==> ValidLog(r.value.store))
        && store <= r.value.store
  {
    var r := HandleInput(app, store, key, now, storeFails);
    if r.Ok? {
      if app.screen == AddWorkout && key == Enter && SavedCount(app.inputCount).Some? && !storeFails {
        SaveStepInvariant(app, store, now);
      } else {
        assert r.value.store == store;
        match app.screen
        case Main => MainStepInvariant(app, store, key);
        case AddWorkout => EditStepInvariant(app, store, key, now, storeFails);
        case History => HistoryStepInvariant(app, store, key, storeFails);
      }
    }
  }

  lemma EditStepInvariant(app: App, store: Db.Store, key: Key, now: Timestamp, storeFails: bool)
    requires Invariant(app, store) && app.screen == AddWorkout
    requires !(key == Enter && SavedCount(app.inputCount).Some? && !storeFails)
    ensures var r := HandleAddWorkoutInput(app, store, key, now, storeFails);
      r.Ok? ==> Invariant(r.value.app, r.value.store) && r.value.store == store
  {
  }

  lemma MainStepInvariant(app: App, store: Db.Store, key: Key)
    requires Invariant(app, store) && app.screen == Main
    ensures Invariant(HandleMainInput(app, store, key).value.app, store)
  {
  }

  lemma SaveStepInvariant(app: App, store: Db.Store, now: Timestamp)
    requires Invariant(app, store) && app.screen == AddWorkout && SavedCount(app.inputCount).Some?
    ensures var r := HandleInput(app, store, Enter, now, false);
      && r.Ok?
      && Invariant(r.value.app, r.value.store)
      && (ValidLog(store) ==> ValidLog(r.value.store))
      && store <= r.value.store
  {
    var n := SavedCount(app.inputCount).value;
    TrackerProperties.EnterSaves(app, store, now, false);
    var e := ExerciseName(app.selectedExercise);
    var w := Db.WorkoutRecord(e, n, now);
    Db.AddWorkoutQueries(store, e, n, now);
    var after := store + [w];
    var app' := app.(inputCount := "", message := Some("Added " + NatToDecimal(n) + " " + e + "!"));
    assert HandleInput(app, store, Enter, now, false) == Ok(Transition(app', after, false));
    assert |Db.UniqueDates(after)| >= |Db.UniqueDates(store)|;
    assert Invariant(app', after);
    assert ValidRecord(w);
    assert forall i :: 0 <= i < |store| ==> after[i] == store[i];
  }

  lemma HistoryStepInvariant(app: App, store: Db.Store, key: Key, storeFails: bool)
    requires Invariant(app, store) && app.screen == History
    ensures var r := HandleHistoryInput(app, store, key, storeFails);
      r.Ok? ==> Invariant(r.value.app, r.value.store) && r.value.store == store
  {
    if key == Enter && app.selectedDate.None? && !storeFails {
      var dates := Db.UniqueDates(store);
      if app.historySelected < |dates| {
        assert dates[app.historySelected] in dates;
      }
    }
  }

  /** Every state a run reaches keeps the invariant, and the log only grows. */
  lemma {:induction false} ReplayInvariant(app: App, store: Db.Store, inputs: seq<Input>)
    requires Invariant(app, store)
    ensures var s := Replay(app, store, inputs);
      Invariant(s.app, s.store) && store <= s.store
    decreases |inputs|
  {
    if |inputs| > 0 {
      var x := inputs[0];
      StepInvariant(app, store, x.key, x.now, x.storeFails);
      var r := HandleInput(app, store, x.key, x.now, x.storeFails);
      if r.Ok? && !r.value.quit {
        ReplayInvariant(r.value.app, r.value.store, inputs[1..]);
      }
    }
  }

  /** A run that starts from a valid log leaves a valid log: every row it adds is well formed. */
  lemma {:induction false} ReplayKeepsValidLog(app: App, store: Db.Store, inputs: seq<Input>)
    requires Invariant(app, store) && ValidLog(store)
    ensures ValidLog(Replay(app, store, inputs).store)
    decreases |inputs|
  {
    if |inputs| > 0 {
      var x := inputs[0];
      StepInvariant(app, store, x.key, x.now, x.storeFails);
      var r := HandleInput(app, store, x.key, x.now, x.storeFails);
      if r.Ok? && !r.value.quit {
        ReplayKeepsValidLog(r.value.app, r.value.store, inputs[1..]);
      }
    }
  }

  /** From start-up, whatever valid clock readings the log holds, the history cursor never leaves `0 ..= max(0, dates - 1)`. */
  lemma CursorInRangeFromStart(store: Db.Store, inputs: seq<Input>)
    ensures var s := Replay(Init(), store, inputs);
      && s.app.historySelected <= SaturatingPred(|Db.UniqueDates(s.store)|)
      && AllDigits(s.app.inputCount)
      && (s.app.selectedDate.Some? ==> s.app.selectedDate.value in Db.UniqueDates(s.store))
  {
    InitInvariant(store);
    ReplayInvariant(Init(), store, inputs);
  }

  /** The key presses that type `s` on the keyboard. */
  function Typing(s: string, now: Timestamp): (keys: seq<Input>)
    ensures |keys| == |s|
    ensures forall i :: 0 <= i < |s| ==> keys[i] == Input(Char(s[i]), now, false)
  {
    seq(|s|, i requires 0 <= i < |s| => Input(Char(s[i]), now, false))
  }

  /** Typing digits on the add-workout screen appends them to the buffer and nothing else. */
  lemma {:induction false} TypingDigits(app: App, store: Db.Store, s: string, now: Timestamp)
    requires app.screen == AddWorkout && AllDigits(s)
    ensures Replay(app, store, Typing(s, now)) == State(app.(inputCount := app.inputCount + s), store, Running)
    decreases |s|
  {
    if |s| == 0 {
      assert app.inputCount + s == app.inputCount;
      assert app.(inputCount := app.inputCount) == app;
    } else {
      var keys := Typing(s, now);
      var app' := app.(inputCount := app.inputCount + [s[0]]);
      assert keys[0] == Input(Char(s[0]), now, false);
      TrackerProperties.CharKey(app, store, s[0], now, false);
      assert keys[1..] == Typing(s[1..], now);
      assert Replay(app, store, keys) == Replay(app', store, keys[1..]);
      assert AllDigits(s[1..]) by {
        forall i | 0 <= i < |s| - 1 ensures IsDigit(s[1..][i]) { assert s[1..][i] == s[i + 1]; }
      }
      TypingDigits(app', store, s[1..], now);
      assert app'.inputCount + s[1..] == app.inputCount + s;
    }
  }

  /** Typing a count on an empty buffer and pressing Enter saves it and reports it. */
  lemma TypeAndSave(app: App, store: Db.Store, s: string, now: Timestamp)
    requires app.screen == AddWorkout && app.inputCount == "" && AllDigits(s)
    requires SavedCount(s).Some?
    ensures var n := SavedCount(s).value;
      var e := app.selectedExercise;
      Replay(app, store, Typing(s, now) + [Input(Enter, now, false)]) ==
        State(app.(message := Some(SavedMessage(n, ExerciseName(e)))), store + [NewRecord(e, n, now)], Running)
  {
    var enter := [Input(Enter, now, false)];
    TypingDigits(app, store, s, now);
    ReplayAppend(app, store, Typing(s, now), enter);
    var typed := app.(inputCount := app.inputCount + s);
    assert app.inputCount + s == s;
    TrackerProperties.EnterSaves(typed, store, now, false);
    assert typed.(inputCount := "") == app;
  }

  /** Saving a workout adds its count to the day's total for its exercise and one to the day's count. */
  lemma SaveUpdatesTotals(app: App, store: Db.Store, now: Timestamp)
    requires app.screen == AddWorkout && SavedCount(app.inputCount).Some?
    ensures var r := HandleInput(app, store, Enter, now, false);
      var n := SavedCount(app.inputCount).value;
      var today := DateOf(now);
      var before, after := TodayTotals(store, today), TodayTotals(r.value.store, today);
      && r.Ok?
      && after.squats == before.squats + (if app.selectedExercise == Squats then n else 0)
      && after.pushUps == before.pushUps + (if app.selectedExercise == PushUps then n else 0)
      && after.workouts == before.workouts + 1
      && (forall d :: d != today ==> TodayTotals(r.value.store, d) == TodayTotals(store, d))
  {
    TrackerProperties.EnterSaves(app, store, now, false);
    var n := SavedCount(app.inputCount).value;
    var w := NewRecord(app.selectedExercise, n, now);
    var after := store + [w];
    assert HandleInput(app, store, Enter, now, false).value.store == after;
    forall d ensures TodayTotals(after, d) == Plus(TodayTotals(store, d), if DateOf(now) == d then Summary(
        if app.selectedExercise == Squats then n else 0, if app.selectedExercise == PushUps then n else 0, 1) else Summary(0, 0, 0)) {
      SummaryAppend(store, w, d);
    }
  }

  lemma SummaryAppend(store: Db.Store, w: Db.WorkoutRecord, d: string)
    ensures TodayTotals(store + [w], d) == Plus(TodayTotals(store, d), if DateOf(w.timestamp) == d then Summary(
        if w.exerciseType == "squats" then w.count else 0, if w.exerciseType == "push-ups" then w.count else 0, 1)
        else Summary(0, 0, 0))
  {
    assert (store + [w])[..|store|] == store;
  }

  /**
    The walk-through: in an empty log, `a`, `2`, `0`, Enter saves 20 squats and reports it;
    Esc, `h` list exactly that day; Enter opens it, showing exactly that record.
   */
  lemma Walkthrough(now: Timestamp)
    ensures var s0 := Init();
      var t1 := HandleInput(s0, [], Char('a'), now, false).value;
      var t2 := HandleInput(t1.app, t1.store, Char('2'), now, false).value;
      var t3 := HandleInput(t2.app, t2.store, Char('0'), now, false).value;
      var t4 := HandleInput(t3.app, t3.store, Enter, now, false).value;
      var t5 := HandleInput(t4.app, t4.store, Esc, now, false).value;
      var t6 := HandleInput(t5.app, t5.store, Char('h'), now, false).value;
      var t7 := HandleInput(t6.app, t6.store, Enter, now, false).value;
      var w := Db.WorkoutRecord("squats", 20, now);
      && t4.store == [w]
      && t4.app.message == Some("Added 20 squats!")
      && t7.store == [w]
      && Db.UniqueDates(t7.store) == [DateOf(now)]
      && t6.app.screen == History && t6.app.historySelected == 0
      && t7.app.selectedDate == Some(DateOf(now))
      && Db.WorkoutsByDate(t7.store, DateOf(now)) == [w]
  {
    var s0 := Init();
    TrackerProperties.MainAdd(s0, [], now, false);
    var t1 := HandleInput(s0, [], Char('a'), now, false).value;
    TrackerProperties.CharKey(t1.app, t1.store, '2', now, false);
    var t2 := HandleInput(t1.app, t1.store, Char('2'), now, false).value;
    TrackerProperties.CharKey(t2.app, t2.store, '0', now, false);
    var t3 := HandleInput(t2.app, t2.store, Char('0'), now, false).value;
    assert t3.app.inputCount == "20";
    TrackerProperties.SaveLeadingZeros();
    TrackerProperties.EnterSaves(t3.app, t3.store, now, false);
    var t4 := HandleInput(t3.app, t3.store, Enter, now, false).value;
    var w := Db.WorkoutRecord("squats", 20, now);
    assert NatToDecimal(20) == "20";
    assert t3.app.selectedExercise == Squats;
    assert "Added " + "20" + " " + "squats" + "!" == "Added 20 squats!";
    assert t4.app.message == Some("Added " + NatToDecimal(20) + " " + "squats" + "!");
    assert t4.store == [w];
    TrackerProperties.AddEsc(t4.app, t4.store, now, false);
    var t5 := HandleInput(t4.app, t4.store, Esc, now, false).value;
    TrackerProperties.MainHistory(t5.app, t5.store, now, false);
    var t6 := HandleInput(t5.app, t5.store, Char('h'), now, false).value;
    assert [w][..0] == [];
    assert Db.UniqueDates([w]) == [DateOf(now)];
    TrackerProperties.HistoryEnter(t6.app, t6.store, now);
    var t7 := HandleInput(t6.app, t6.store, Enter, now, false).value;
    assert Db.OnDate([w], DateOf(now)) == [w];
    assert t4.app.message == Some("Added 20 squats!");
    assert t7.store == [w];
    assert t6.app.screen == History && t6.app.historySelected == 0;
    assert t7.app.selectedDate == Some(DateOf(now));
    assert Db.WorkoutsByDate(t7.store, DateOf(now)) == [w];
  }

  /**
    Saving the largest accepted count twice on one day, then returning to the main screen:
    the true squat total is 4294967294, while the summary loop as written shows -2.
   */
  lemma TwoMaximalSaves(now: Timestamp)
    ensures var save := Typing("2147483647", now) + [Input(Enter, now, false)];
      var s := Replay(Init(), [], [Input(Char('a'), now, false)] + save + save + [Input(Esc, now, false)]);
      var w := Db.WorkoutRecord("squats", I32Max, now);
      && s.halt == Running && s.app.screen == Main
      && s.store == [w, w]
      && TodayTotals(s.store, DateOf(now)).squats == 2 * I32Max
      && TallyI32(Db.TodayWorkouts(s.store, DateOf(now))).squats == -2
  {
    TwoMaximalSavesReplay(now);
    MaximalSummary(now);
  }

  lemma TwoMaximalSavesReplay(now: Timestamp)
    ensures var save := Typing("2147483647", now) + [Input(Enter, now, false)];
      var s := Replay(Init(), [], [Input(Char('a'), now, false)] + save + save + [Input(Esc, now, false)]);
      var w := Db.WorkoutRecord("squats", I32Max, now);
      s.halt == Running && s.app.screen == Main && s.store == [w, w]
  {
    var save := Typing("2147483647", now) + [Input(Enter, now, false)];
    var open := [Input(Char('a'), now, false)];
    var esc := [Input(Esc, now, false)];
    var w := Db.WorkoutRecord("squats", I32Max, now);
    var a1 := Init().(screen := AddWorkout);
    var a2 := a1.(message := Some(SavedMessage(I32Max, "squats")));
    assert Replay(Init(), [], open) == State(a1, [], Running);
    ReplayAppend(Init(), [], open, save);
    MaximalSave(a1, [], now);
    assert Replay(Init(), [], open + save) == State(a2, [w], Running);
    ReplayAppend(Init(), [], open + save, save);
    MaximalSave(a2, [w], now);
    assert [w] + [w] == [w, w];
    assert Replay(Init(), [], open + save + save) == State(a2, [w, w], Running);
    ReplayAppend(Init(), [], open + save + save, esc);
    MainAfterEsc(a2, [w, w], now);
  }

  lemma MainAfterEsc(app: App, store: Db.Store, now: Timestamp)
    requires app.screen == AddWorkout
    ensures Replay(app, store, [Input(Esc, now, false)]) == State(app.(screen := Main, inputCount := ""), store, Running)
  {
    TrackerProperties.AddEsc(app, store, now, false);
  }

  /** Typing 2147483647 on the squat form and pressing Enter saves one maximal row. */
  lemma MaximalSave(app: App, store: Db.Store, now: Timestamp)
    requires app.screen == AddWorkout && app.inputCount == "" && app.selectedExercise == Squats
    ensures var save := Typing("2147483647", now) + [Input(Enter, now, false)];
      Replay(app, store, save) ==
        State(app.(message := Some(SavedMessage(I32Max, "squats"))), store + [Db.WorkoutRecord("squats", I32Max, now)], Running)
  {
    var digits := "2147483647";
    TrackerProperties.ValuesAtI32Limit();
    TrackerProperties.SavedCountOfDigits(digits);
    TypeAndSave(app, store, digits, now);
  }

  /** The true and the as-written squat totals of a day holding two maximal saves. */
  lemma MaximalSummary(now: Timestamp)
    ensures var w := Db.WorkoutRecord("squats", I32Max, now);
      && TodayTotals([w, w], DateOf(now)).squats == 2 * I32Max
      && TallyI32(Db.TodayWorkouts([w, w], DateOf(now))).squats == -2
  {
    var w := Db.WorkoutRecord("squats", I32Max, now);
    var today := DateOf(now);
    TwoSquatSums(w, today);
    var ws := Db.TodayWorkouts([w, w], today);
    var t := TodayTotals([w, w], today);
    assert t.squats == 2 * I32Max;
    assert t == Tally(ws);
    TallyI32Wraps(ws);
    assert TallyI32(ws).squats == WrapI32(t.squats);
    DoubleMaxWraps();
  }

  lemma DoubleMaxWraps()
    ensures WrapI32(2 * I32Max) == -2
  {
  }

  lemma TwoSquatSums(w: Db.WorkoutRecord, today: string)
    requires w.exerciseType == "squats" && w.count == I32Max && DateOf(w.timestamp) == today
    ensures SumCounts([w, w], today, "squats") == 2 * I32Max
  {
    assert [w, w][..1] == [w] && [w][..0] == [];
    assert SumCounts([w], today, "squats") == I32Max;
  }
}
