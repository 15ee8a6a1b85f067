/**
  The application state machine: one key press takes the screen state and the workout
  log to the next screen state and log, or to a storage failure, and says whether to quit.
 */
module Tracker {
  import opened Wrappers
  import opened Decimal
  import opened Timestamps
  import Db = WorkoutStore

  datatype Screen = Main | AddWorkout | History

  datatype ExerciseType = Squats | PushUps

  /** The key codes the handlers tell apart; `Other` stands for every remaining key code. */
  datatype Key = Char(c: char) | Esc | Tab | Backspace | Enter | Up | Down | Other

  /**
    The fields of `App` other than its database handle. `historySelected` is the cursor of
    the date list; `selectedDate` is set while one day's rows are shown.
   */
  datatype App = App(
    screen: Screen,
    selectedExercise: ExerciseType,
    inputCount: string,
    historySelected: nat,
    selectedDate: Option<string>,
    message: Option<string>)

  /** A store call that did not complete; `handle_input` passes it on and the program exits. */
  datatype StorageFailure = StorageFailure

  /** The state after a key press, the log after it, and whether the program should quit. */
  datatype Transition = Transition(app: App, store: Db.Store, quit: bool)

  type Outcome = Result<Transition, StorageFailure>

  /** `App::new`: the main screen, squats selected, nothing typed, nothing selected. */
  function Init(): (a: App)
    ensures a.screen == Main && a.selectedExercise == Squats
    ensures a.inputCount == [] && a.historySelected == 0
    ensures a.selectedDate == None && a.message == None
  {
    App(Main, Squats, "", 0, None, None)
  }

  /** Tab on the add-workout screen. */
  function Toggle(e: ExerciseType): (r: ExerciseType)
    ensures r != e
  {
    match e
    case Squats => PushUps
    case PushUps => Squats
  }

  /** The name stored in `exercise_type` and shown in the status message. */
  function ExerciseName(e: ExerciseType): string {
    match e
    case Squats => "squats"
    case PushUps => "push-ups"
  }

  /** `String::pop`: drop the last character, if any. */
  function Pop(s: string): string {
    if |s| == 0 then s else s[..|s| - 1]
  }

  /** `usize::saturating_sub(1)`. */
  function SaturatingPred(n: nat): nat {
    if n == 0 then 0 else n - 1
  }

  /** The count Enter saves: the buffer must parse as an `i32` and be positive. */
  function SavedCount(buffer: string): Option<nat> {
    match ParseI32(buffer)
    case Some(n) => if n > 0 then Some(n) else None
    case None => None
  }

  /** `format!("Added {} {}!", count, exercise)`. */
  function SavedMessage(count: nat, exercise: string): string {
    "Added " + NatToDecimal(count) + " " + exercise + "!"
  }

  /** The record Enter appends for `count` at clock reading `now`. */
  function NewRecord(e: ExerciseType, count: int, now: Timestamp): Db.WorkoutRecord {
    Db.WorkoutRecord(ExerciseName(e), count, now)
  }

  /** A key that makes the current handler call the store (and so can fail). */
  predicate TouchesStore(app: App, key: Key) {
    || (app.screen == AddWorkout && key == Enter && SavedCount(app.inputCount).Some?)
    || (app.screen == History && app.selectedDate.None? && (key == Down || key == Enter))
  }

  function Stay(app: App, store: Db.Store): Outcome {
    Ok(Transition(app, store, false))
  }

  /** `handle_main_input`. */
  function HandleMainInput(app: App, store: Db.Store, key: Key): (r: Outcome)
    ensures r.Ok? && r.value.store == store
    ensures r.value.quit <==> key == Char('q')
    ensures r.value.quit ==> r.value.app == app
  {
    if key == Char('q') then Ok(Transition(app, store, true))
    else if key == Char('a') then
      Stay(app.(screen := AddWorkout, inputCount := "", message := None), store)
    else if key == Char('h') then
      Stay(app.(screen := History, historySelected := 0, selectedDate := None, message := None), store)
    else Stay(app, store)
  }

  /** `handle_add_workout_input`; `storeFails` says whether the `add_workout` call fails. */
  function HandleAddWorkoutInput(app: App, store: Db.Store, key: Key, now: Timestamp, storeFails: bool): (r: Outcome)
    ensures r.Err? <==> key == Enter && SavedCount(app.inputCount).Some? && storeFails
    ensures r.Ok? ==> !r.value.quit
    ensures r.Ok? && r.value.store != store ==>
      && key == Enter && SavedCount(app.inputCount).Some?
      && r.value.store == store + [NewRecord(app.selectedExercise, SavedCount(app.inputCount).value, now)]
  {
    match key
    case Esc => Stay(app.(screen := Main, inputCount := ""), store)
    case Tab => Stay(app.(selectedExercise := Toggle(app.selectedExercise)), store)
    case Char(c) =>
      if IsDigit(c) then Stay(app.(inputCount := app.inputCount + [c]), store) else Stay(app, store)
    case Backspace => Stay(app.(inputCount := Pop(app.inputCount)), store)
    case Enter =>
      (match SavedCount(app.inputCount)
       case Some(count) =>
         if storeFails then Err(StorageFailure)
         else
           var exercise := ExerciseName(app.selectedExercise);
           Stay(app.(message := Some(SavedMessage(count, exercise)), inputCount := ""),
                Db.AddWorkout(store, exercise, count, now))
       case None => Stay(app, store))
    case _ => Stay(app, store)
  }

  /** `handle_history_input`; `storeFails` says whether the `get_unique_dates` call fails. */
  function HandleHistoryInput(app: App, store: Db.Store, key: Key, storeFails: bool): (r: Outcome)
    ensures r.Err? <==> storeFails && app.selectedDate.None? && (key == Down || key == Enter)
    ensures r.Ok? ==> r.value.store == store && !r.value.quit
  {
    match key
    case Esc =>
      if app.selectedDate.Some? then Stay(app.(selectedDate := None), store)
      else Stay(app.(screen := Main), store)
    case Up =>
      if app.selectedDate.None? && app.historySelected > 0 then
        Stay(app.(historySelected := app.historySelected - 1), store)
      else Stay(app, store)
    case Down =>
      if app.selectedDate.None? then
        if storeFails then Err(StorageFailure)
        else
          var dates := Db.UniqueDates(store);
          if app.historySelected < SaturatingPred(|dates|) then
            Stay(app.(historySelected := app.historySelected + 1), store)
          else Stay(app, store)
      else Stay(app, store)
    case Enter =>
      if app.selectedDate.None? then
        if storeFails then Err(StorageFailure)
        else
          var dates := Db.UniqueDates(store);
          if app.historySelected < |dates| then
            Stay(app.(selectedDate := Some(dates[app.historySelected])), store)
          else Stay(app, store)
      else Stay(app, store)
    case _ => Stay(app, store)
  }

  /**
    `handle_input`: dispatch on the screen. Only the store calls can fail; only the main
    screen can quit; only a save changes the log, and then by one appended record.
   */
  function HandleInput(app: App, store: Db.Store, key: Key, now: Timestamp, storeFails: bool): (r: Outcome)
    ensures r.Err? <==> storeFails && TouchesStore(app, key)
    ensures r.Ok? && r.value.quit ==> app.screen == Main && key == Char('q') && r.value.app == app
    ensures r.Ok? ==> (r.value.store == store ||
      (app.screen == AddWorkout && key == Enter && SavedCount(app.inputCount).Some? &&
       r.value.store == store + [NewRecord(app.selectedExercise, SavedCount(app.inputCount).value, now)]))
  {
    match app.screen
    case Main => HandleMainInput(app, store, key)
    case AddWorkout => HandleAddWorkoutInput(app, store, key, now, storeFails)
    case History => HandleHistoryInput(app, store, key, storeFails)
  }
}
