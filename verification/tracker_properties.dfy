/** Per-key properties of the state machine, one screen at a time. */
module TrackerProperties {
  import opened Wrappers
  import opened Decimal
  import opened Timestamps
  import opened Tracker
  import Db = WorkoutStore

  // ---- Main screen ----

  /** `q` asks to quit and changes nothing. */
  lemma MainQuit(app: App, store: Db.Store, now: Timestamp, storeFails: bool)
    requires app.screen == Main
    ensures HandleInput(app, store, Char('q'), now, storeFails) == Ok(Transition(app, store, true))
  {
  }

  /** `a` opens the add-workout screen with an empty buffer and no message; nothing else changes. */
  lemma MainAdd(app: App, store: Db.Store, now: Timestamp, storeFails: bool)
    requires app.screen == Main
    ensures var r := HandleInput(app, store, Char('a'), now, storeFails);
      && r.Ok? && !r.value.quit && r.value.store == store
      && r.value.app == app.(screen := AddWorkout, inputCount := "", message := None)
  {
  }

  /** `h` opens the date list at its first entry and clears the message; nothing else changes. */
  lemma MainHistory(app: App, store: Db.Store, now: Timestamp, storeFails: bool)
    requires app.screen == Main
    ensures var r := HandleInput(app, store, Char('h'), now, storeFails);
      && r.Ok? && !r.value.quit && r.value.store == store
      && r.value.app == app.(screen := History, historySelected := 0, selectedDate := None, message := None)
  {
  }

  /** Every other key on the main screen does nothing. */
  lemma MainOtherKeys(app: App, store: Db.Store, key: Key, now: Timestamp, storeFails: bool)
    requires app.screen == Main
    requires key !in {Char('q'), Char('a'), Char('h')}
    ensures HandleInput(app, store, key, now, storeFails) == Ok(Transition(app, store, false))
  {
  }

  // ---- Add-workout screen ----

  /** Tab changes the exercise and nothing else; a second Tab restores the state. */
  lemma TabToggles(app: App, store: Db.Store, now: Timestamp, f1: bool, f2: bool)
    requires app.screen == AddWorkout
    ensures var r := HandleInput(app, store, Tab, now, f1);
      && r.Ok? && !r.value.quit && r.value.store == store
      && r.value.app.selectedExercise != app.selectedExercise
      && r.value.app == app.(selectedExercise := r.value.app.selectedExercise)
      && HandleInput(r.value.app, store, Tab, now, f2) == Ok(Transition(app, store, false))
  {
  }

  /** A digit key appends that digit; any other character key does nothing. */
  lemma CharKey(app: App, store: Db.Store, c: char, now: Timestamp, storeFails: bool)
    requires app.screen == AddWorkout
    ensures var r := HandleInput(app, store, Char(c), now, storeFails);
      && r.Ok? && r.value.store == store && !r.value.quit
      && r.value.app == if IsDigit(c) then app.(inputCount := app.inputCount + [c]) else app
  {
  }

  /** Backspace drops the last character of the buffer, and does nothing to an empty one. */
  lemma BackspaceKey(app: App, store: Db.Store, now: Timestamp, storeFails: bool)
    requires app.screen == AddWorkout
    ensures var r := HandleInput(app, store, Backspace, now, storeFails);
      && r.Ok? && r.value.store == store && !r.value.quit
      && (|app.inputCount| == 0 ==> r.value.app == app)
      && (|app.inputCount| > 0 ==>
            r.value.app == app.(inputCount := app.inputCount[..|app.inputCount| - 1]))
  {
  }

  /** Esc returns to the main screen and empties the buffer, keeping the exercise and the message. */
  lemma AddEsc(app: App, store: Db.Store, now: Timestamp, storeFails: bool)
    requires app.screen == AddWorkout
    ensures var r := HandleInput(app, store, Esc, now, storeFails);
      && r.Ok? && r.value.store == store && !r.value.quit
      && r.value.app == app.(screen := Main, inputCount := "")
  {
  }

  /** No key on the add-workout screen puts anything but digits into a digit buffer. */
  lemma BufferStaysDigits(app: App, store: Db.Store, key: Key, now: Timestamp, storeFails: bool)
    requires AllDigits(app.inputCount)
    ensures var r := HandleInput(app, store, key, now, storeFails);
      r.Ok? ==> AllDigits(r.value.app.inputCount)
  {
  }

  /**
    On a buffer of digits, a count is saved exactly when the buffer is non-empty and its
    value lies in 1 ..= 2147483647 (leading zeros allowed); that value is the count.
   */
  lemma SavedCountOfDigits(buffer: string)
    requires AllDigits(buffer)
    ensures SavedCount(buffer).Some? <==> |buffer| > 0 && 0 < Value(buffer) <= I32Max
    ensures SavedCount(buffer).Some? ==> SavedCount(buffer).value == Value(buffer)
  {
    if |buffer| > 0 {
      ParseDigits(buffer);
    }
  }

  /**
    Enter appends exactly one record (selected exercise, parsed count, `now`), empties the
    buffer and reports the save, exactly when the buffer holds a positive `i32`; otherwise
    nothing changes. A failing store turns the save into a storage failure.
   */
  lemma EnterSaves(app: App, store: Db.Store, now: Timestamp, storeFails: bool)
    requires app.screen == AddWorkout
    ensures var r := HandleInput(app, store, Enter, now, storeFails);
      match SavedCount(app.inputCount)
      case None => r == Ok(Transition(app, store, false))
      case Some(n) =>
        if storeFails then r == Err(StorageFailure)
        else
          var e := ExerciseName(app.selectedExercise);
          && r.Ok? && !r.value.quit
          && r.value.store == store + [Db.WorkoutRecord(e, n, now)]
          && r.value.app == app.(inputCount := "", message := Some("Added " + NatToDecimal(n) + " " + e + "!"))
          && 0 < n <= I32Max
          && e in {"squats", "push-ups"}
  {
    match ParseI32(app.inputCount)
    case Some(n) => ParseI32Correct(app.inputCount);
    case None =>
  }

  /** The count in the status message reads back as the count that was saved. */
  lemma MessageReportsCount(n: nat, e: ExerciseType)
    requires 0 < n <= I32Max
    ensures var m := SavedMessage(n, ExerciseName(e));
      var digits := m[6..|m| - |ExerciseName(e)| - 2];
      && m[..6] == "Added " && m[|m| - 1] == '!'
      && ParseI32(digits) == Some(n)
  {
    var m := SavedMessage(n, ExerciseName(e));
    var d := NatToDecimal(n);
    assert m == "Added " + d + " " + ExerciseName(e) + "!";
    assert m[6..|m| - |ExerciseName(e)| - 2] == d;
    DisplayParseRoundTrip(n);
  }

  /** Worked examples of what Enter accepts: leading zeros are allowed. */
  lemma SaveLeadingZeros()
    ensures SavedCount("007") == Some(7)
    ensures SavedCount("20") == Some(20)
  {
    ValueSnoc("", '0');
    ValueSnoc("0", '0');
    ValueSnoc("00", '7');
    assert "" + ['0'] == "0" && "0" + ['0'] == "00" && "00" + ['7'] == "007";
    SavedCountOfDigits("007");
    ValueSnoc("", '2');
    ValueSnoc("2", '0');
    assert "" + ['2'] == "2" && "2" + ['0'] == "20";
    SavedCountOfDigits("20");
  }

  /** Worked examples of what Enter ignores: nothing typed, and zero. */
  lemma SaveIgnoresEmptyAndZero()
    ensures SavedCount("") == None
    ensures SavedCount("0") == None
  {
    SavedCountOfDigits("0");
  }

  /** The largest `i32` is saved. */
  lemma SaveAtI32Limit()
    ensures SavedCount("2147483647") == Some(2147483647)
  {
    ValuesAtI32Limit();
    SavedCountOfDigits("2147483647");
  }

  /** One more than the largest `i32` overflows the parse and is ignored. */
  lemma SaveAboveI32Limit()
    ensures SavedCount("2147483648") == None
  {
    ValuesAtI32Limit();
    SavedCountOfDigits("2147483648");
  }

  lemma ValuesAtI32Limit()
    ensures AllDigits("2147483647") && Value("2147483647") == I32Max
    ensures AllDigits("2147483648") && Value("2147483648") == I32Max + 1
  {
    ValueOfLimitPrefix();
    ValueSnoc("214748364", '7');
    ValueSnoc("214748364", '8');
    assert "214748364" + ['7'] == "2147483647";
    assert "214748364" + ['8'] == "2147483648";
  }

  lemma ValueOfLimitPrefix()
    ensures AllDigits("214748364") && Value("214748364") == 214748364
  {
    ValueSnoc("", '2');
    assert "" + ['2'] == "2";
    ValueSnoc("2", '1');
    assert "2" + ['1'] == "21";
    ValueSnoc("21", '4');
    assert "21" + ['4'] == "214";
    ValueSnoc("214", '7');
    assert "214" + ['7'] == "2147";
    ValueSnoc("2147", '4');
    assert "2147" + ['4'] == "21474";
    ValueSnoc("21474", '8');
    assert "21474" + ['8'] == "214748";
    ValueSnoc("214748", '3');
    assert "214748" + ['3'] == "2147483";
    ValueSnoc("2147483", '6');
    assert "2147483" + ['6'] == "21474836";
    ValueSnoc("21474836", '4');
    assert "21474836" + ['4'] == "214748364";
  }

  // ---- History screen ----

  /** Up moves the cursor one entry up only in the date list and only above the first entry. */
  lemma HistoryUp(app: App, store: Db.Store, now: Timestamp, storeFails: bool)
    requires app.screen == History
    ensures var r := HandleInput(app, store, Up, now, storeFails);
      && r.Ok? && r.value.store == store && !r.value.quit
      && r.value.app == app.(historySelected := r.value.app.historySelected)
      && (r.value.app.historySelected == app.historySelected - 1 <==>
            app.selectedDate.None? && app.historySelected > 0)
      && (r.value.app.historySelected == app.historySelected <==>
            !(app.selectedDate.None? && app.historySelected > 0))
  {
  }

  /**
    Down moves the cursor one entry down only in the date list and only above the last
    listed date (an empty list counts as having its last entry at 0).
   */
  lemma HistoryDown(app: App, store: Db.Store, now: Timestamp)
    requires app.screen == History
    ensures var r := HandleInput(app, store, Down, now, false);
      var last := if |Db.UniqueDates(store)| == 0 then 0 else |Db.UniqueDates(store)| - 1;
      && r.Ok? && r.value.store == store && !r.value.quit
      && r.value.app == app.(historySelected := r.value.app.historySelected)
      && (r.value.app.historySelected == app.historySelected + 1 <==>
            app.selectedDate.None? && app.historySelected < last)
      && (r.value.app.historySelected == app.historySelected <==>
            !(app.selectedDate.None? && app.historySelected < last))
  {
  }

  /** Cursor moves keep a cursor that starts in range within `0 ..= max(0, dates - 1)`. */
  lemma CursorStaysInRange(app: App, store: Db.Store, key: Key, now: Timestamp, storeFails: bool)
    requires app.screen == History
    requires app.historySelected <= SaturatingPred(|Db.UniqueDates(store)|)
    ensures var r := HandleInput(app, store, key, now, storeFails);
      r.Ok? ==> r.value.app.historySelected <= SaturatingPred(|Db.UniqueDates(store)|)
  {
  }

  /**
    Enter opens the day under the cursor, when the date list is shown and the cursor is on
    a listed date; otherwise it does nothing.
   */
  lemma HistoryEnter(app: App, store: Db.Store, now: Timestamp)
    requires app.screen == History
    ensures var r := HandleInput(app, store, Enter, now, false);
      var dates := Db.UniqueDates(store);
      && r.Ok? && r.value.store == store && !r.value.quit
      && (if app.selectedDate.None? && app.historySelected < |dates|
          then r.value.app == app.(selectedDate := Some(dates[app.historySelected]))
          else r.value.app == app)
  {
  }

  /** Esc leaves a day's detail for the date list, and the date list for the main screen. */
  lemma HistoryEsc(app: App, store: Db.Store, now: Timestamp, storeFails: bool)
    requires app.screen == History
    ensures var r := HandleInput(app, store, Esc, now, storeFails);
      && r.Ok? && r.value.store == store && !r.value.quit
      && (app.selectedDate.Some? ==> r.value.app == app.(selectedDate := None))
      && (app.selectedDate.None? ==> r.value.app == app.(screen := Main))
  {
  }

  /** From a day's detail, two presses of Esc lead back to the main screen. */
  lemma BackTwice(app: App, store: Db.Store, now: Timestamp, f1: bool, f2: bool)
    requires app.screen == History && app.selectedDate.Some?
    ensures var r1 := HandleInput(app, store, Esc, now, f1);
      && r1.Ok? && r1.value.app.screen == History && r1.value.app.selectedDate == None
      && var r2 := HandleInput(r1.value.app, store, Esc, now, f2);
      && r2.Ok? && r2.value.app == app.(screen := Main, selectedDate := None)
  {
  }

  /** In a day's detail only Esc does anything. */
  lemma DetailIgnoresOtherKeys(app: App, store: Db.Store, key: Key, now: Timestamp, storeFails: bool)
    requires app.screen == History && app.selectedDate.Some? && key != Esc
    ensures HandleInput(app, store, key, now, storeFails) == Ok(Transition(app, store, false))
  {
  }

  // ---- All screens ----

  /** Only a save writes to the log; no other key on any screen changes it. */
  lemma OnlySaveWrites(app: App, store: Db.Store, key: Key, now: Timestamp, storeFails: bool)
    requires !(app.screen == AddWorkout && key == Enter)
    ensures var r := HandleInput(app, store, key, now, storeFails);
      r.Ok? ==> r.value.store == store
  {
  }

  /** A key that makes no store call behaves the same whether or not the store is failing. */
  lemma FailureNeedsStoreCall(app: App, store: Db.Store, key: Key, now: Timestamp)
    requires !TouchesStore(app, key)
    ensures HandleInput(app, store, key, now, true) == HandleInput(app, store, key, now, false)
    ensures HandleInput(app, store, key, now, true).Ok?
  {
  }
}
