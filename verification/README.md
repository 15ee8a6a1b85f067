# Fitness tracker TUI: the `App` state machine

This project models the keyboard-driven core of a small terminal fitness tracker written in Rust
(`src/main.rs`). The program keeps a log of workouts. Each workout is a row with an exercise name
(`"squats"` or `"push-ups"`), a repetition count and a local timestamp formatted
`%Y-%m-%d %H:%M:%S`. The user moves between three screens:

- **Main**: `q` quits, `a` opens the add-workout form and `h` opens the history. The screen
  shows today's totals per exercise and the number of today's workouts.
- **AddWorkout**: Tab switches the exercise. Digit keys append to a count buffer, Backspace
  deletes the last character, and Esc goes back. Enter saves the buffer when it parses as a
  positive `i32`.
- **History**: a list of the days that have workouts, newest first, with a cursor (Up/Down).
  Enter opens the day under the cursor. Esc goes back one level at a time.

The SQLite database becomes an in-memory append-only `seq<WorkoutRecord>`. Its four queries
(`add_workout`, `get_today_workouts`, `get_workouts_by_date`, `get_unique_dates`) become pure
functions over that sequence. The step function `handle_input` becomes
`Tracker.HandleInput(app, store, key, now, storeFails)`, with the following parameters:

- `now` is the clock reading that `Local::now()` would give.
- `storeFails` says whether the store call made by this key press fails.

The result is either the next state, the next log and the quit flag, or `StorageFailure`.
Only the calls the handlers propagate with `?` can fail: `add_workout` on a save, and
`get_unique_dates` on Down and Enter in the date list.

Modules, in dependency order:

- `Wrappers`: `Option` and `Result`.
- `Decimal`: ASCII digits and their values. `ParseI32` models `str::parse::<i32>`: an optional
  sign, then checked multiply-and-add digit by digit. `NatToDecimal` models the `Display` of a
  count. `WrapI32` is 32-bit two's-complement wrap-around.
- `LexOrder`: the byte-wise text order SQLite's default collation uses for `ORDER BY`.
- `Timestamps`: the stored timestamp format as a subset type, and `date(timestamp)` as its first
  ten characters. Text order on timestamps is proved to be the order of the wall-clock readings
  they spell.
- `WorkoutStore`: the log and its queries.
- `Totals`: the "Today's Stats" fold of `render_main_screen`, both with unbounded integers and
  as written with `i32` accumulators.
- `Tracker`: `App`, `App::new` and the three key handlers.
- `TrackerProperties`: per-key lemmas, one screen at a time.
- `Sessions`: sequences of key presses fed through the step function as the event loop does
  it. Covers invariants of every reachable state and worked runs.

## Model

| member | source | states |
|---|---|---|
| Tracker.Init | src/main.rs:132-142 | start-up is the main screen with squats selected, an empty buffer, cursor 0, no selected day and no message |
| Tracker.Toggle | src/main.rs:177-181 | Tab always changes the exercise (of the two, to the other one) |
| Tracker.HandleMainInput | src/main.rs:152-169 | the main screen never fails and never writes; it asks to quit exactly on `q`, and then with the state unchanged |
| Tracker.HandleAddWorkoutInput | src/main.rs:171-205 | the form fails exactly on Enter over a savable buffer when the store fails; it never quits; when the log changes, the key was Enter over a savable buffer and the log gained exactly the record (exercise, parsed count, now) |
| Tracker.HandleHistoryInput | src/main.rs:207-240 | the history fails exactly on Down or Enter in the date list when the store fails; otherwise it never writes and never quits |
| Tracker.HandleInput | src/main.rs:144-150 | a key press fails exactly when its handler calls the store and the store fails; quitting only happens on the main screen on `q`, with nothing changed; the log is unchanged or has one appended record from a save |
| TrackerProperties.MainQuit | src/main.rs:154 | `q` on the main screen returns quit with state and log unchanged |
| TrackerProperties.MainAdd | src/main.rs:155-159 | `a` opens the form and clears the buffer and the message; no other field changes |
| TrackerProperties.MainHistory | src/main.rs:160-165 | `h` opens the date list with cursor 0, no selected day and no message; no other field changes |
| TrackerProperties.MainOtherKeys | src/main.rs:166-168 | every key other than `q`, `a`, `h` leaves the main screen exactly as it was |
| TrackerProperties.TabToggles | src/main.rs:177-181 | Tab changes only the exercise, and a second Tab restores the original state |
| TrackerProperties.CharKey | src/main.rs:183-185 | a digit key appends that digit to the buffer; any other character key changes nothing |
| TrackerProperties.BackspaceKey | src/main.rs:186-188 | Backspace removes exactly the last character of the buffer and does nothing on an empty buffer |
| TrackerProperties.AddEsc | src/main.rs:173-176 | Esc returns to the main screen and empties the buffer, keeping the exercise and the message |
| TrackerProperties.BufferStaysDigits | src/main.rs:173-188 | no key on any screen puts a non-digit into a buffer of digits |
| TrackerProperties.SavedCountOfDigits | src/main.rs:190-191 | a digit buffer is saved exactly when it is non-empty and its value is in 1..=2147483647, and the saved count is that value |
| TrackerProperties.EnterSaves | src/main.rs:189-200 | Enter appends exactly one record (exercise name, n, now), empties the buffer and sets the message "Added n exercise!" exactly when the buffer parses to an `i32` n > 0; otherwise nothing changes; with a failing store it is a storage failure |
| TrackerProperties.MessageReportsCount | src/main.rs:197 | the count in the status message parses back to the saved count |
| TrackerProperties.SaveLeadingZeros | src/main.rs:190 | "007" is saved as 7 and "20" as 20 |
| TrackerProperties.SaveIgnoresEmptyAndZero | src/main.rs:190-191 | "" and "0" are not saved |
| TrackerProperties.SaveAtI32Limit | src/main.rs:190 | "2147483647" is saved |
| TrackerProperties.SaveAboveI32Limit | src/main.rs:190 | "2147483648" overflows the parse and is not saved |
| TrackerProperties.HistoryUp | src/main.rs:216-220 | Up decrements the cursor exactly when no day is selected and the cursor is above 0, and otherwise keeps it; nothing else changes |
| TrackerProperties.HistoryDown | src/main.rs:221-228 | Down increments the cursor exactly when no day is selected and the cursor is below max(0, dates - 1), and otherwise keeps it; nothing else changes |
| TrackerProperties.CursorStaysInRange | src/main.rs:216-228 | on the History screen, a cursor within 0..=max(0, dates - 1) stays there after any key |
| TrackerProperties.HistoryEnter | src/main.rs:229-236 | Enter selects the day under the cursor when no day is selected and the cursor is on a listed day, and otherwise changes nothing |
| TrackerProperties.HistoryEsc | src/main.rs:209-215 | Esc in a day's detail clears the selected day and stays on History; Esc in the date list goes to the main screen |
| TrackerProperties.BackTwice | src/main.rs:209-215 | from a day's detail, two Escs lead to the main screen with no day selected |
| TrackerProperties.DetailIgnoresOtherKeys | src/main.rs:216-236 | in a day's detail every key except Esc leaves state and log unchanged |
| TrackerProperties.OnlySaveWrites | src/main.rs:144-240 | no key press other than Enter on the form changes the log |
| TrackerProperties.FailureNeedsStoreCall | src/main.rs:144-240 | a key press that makes no store call succeeds, with the same result whether or not the store is failing |
| Decimal.ParseI32Correct | src/main.rs:190 | `parse::<i32>` succeeds exactly on an optional sign followed by one or more digits whose value lies in the `i32` range, and yields that value |
| Decimal.AccumulateCorrect | src/main.rs:190 | the checked digit loop yields the exact value when no intermediate step leaves the `i32` range, and fails otherwise |
| Decimal.ParseDigits | src/main.rs:190 | on a non-empty digit string, parsing succeeds exactly when the value is at most 2147483647 |
| Decimal.LeadingZero | src/main.rs:190 | a leading zero does not change the value of a digit string |
| Decimal.NatToDecimal | src/main.rs:197 | the displayed count is a non-empty digit string without leading zeros whose value is the count |
| Decimal.DisplayParseRoundTrip | src/main.rs:190-197 | displaying then parsing gives back every count up to 2147483647 |
| Decimal.WrapI32 | src/main.rs:277-278 | 32-bit wrap-around lands in the `i32` range, differs from the true value by a multiple of 2^32, and changes nothing already in range |
| Decimal.WrapAdd | src/main.rs:277-278 | wrapping after every addition equals wrapping once at the end |
| LexOrder.BelowIrreflexive | src/main.rs:99 | no text sorts before itself |
| LexOrder.BelowTransitive | src/main.rs:99 | the text order is transitive |
| LexOrder.BelowTotal | src/main.rs:99 | any two different texts are ordered one way or the other |
| LexOrder.BelowDecidedByPrefix | src/main.rs:59 | when two texts differ within their first k characters, those characters decide their order |
| Timestamps.DateOf | src/main.rs:58 | `date(timestamp)` is the ten-character prefix of the timestamp |
| Timestamps.DateOfIsDate | src/main.rs:55 | that prefix has the `%Y-%m-%d` shape |
| Timestamps.DateOrderAgreesWithTimestamps | src/main.rs:97-99 | two timestamps on different days compare as their days do |
| Timestamps.TimestampOrderIsChronological | src/main.rs:46 | two timestamps compare as text exactly as their YYYYMMDDhhmmss numbers compare, so `ORDER BY timestamp` is the order of the wall-clock readings |
| Timestamps.DigitsBelow | src/main.rs:46 | equal-length digit fields compare as text exactly as their numeric values do |
| WorkoutStore.AddWorkout | src/main.rs:45-52 | a save grows the log by one row at the end, stamped with the clock reading; earlier rows are untouched |
| WorkoutStore.OnDateMultiset | src/main.rs:57-58 | the `WHERE date(timestamp) = date(?1)` filter keeps each row of that day as many times as it is stored, and no other row |
| WorkoutStore.InsertNewestFirst | src/main.rs:59 | inserting into a newest-first list keeps it newest first and adds exactly that row |
| WorkoutStore.SortNewestFirst | src/main.rs:59 | `ORDER BY timestamp DESC` yields a newest-first permutation of the rows |
| WorkoutStore.WorkoutsByDate | src/main.rs:75-93 | a day's query returns a newest-first permutation of exactly that day's rows; a row appears in it exactly when it is stored with that date |
| WorkoutStore.TodayWorkouts | src/main.rs:54-73 | today's query is the same query for the day read from the clock |
| WorkoutStore.InsertDate | src/main.rs:97-99 | inserting a day into a strictly descending list keeps it strictly descending, adds the day, and grows the list only when the day was absent |
| WorkoutStore.UniqueDates | src/main.rs:95-107 | the day list is strictly descending and holds exactly the days that have at least one row |
| WorkoutStore.UniqueDatesDistinct | src/main.rs:97 | no day is listed twice |
| WorkoutStore.AddWorkoutQueries | src/main.rs:45-52 | after a save, the multiset of rows for the save's day gains exactly the new row; every other day's query is unchanged; the day list gains the save's day and nothing else, growing only if that day is new |
| Totals.TallyAppend | src/main.rs:275-281 | folding a concatenation is the sum of folding the parts |
| Totals.TallyPermutation | src/main.rs:275-281 | the fold does not depend on the order the query returns the rows in |
| Totals.TallyOnDate | src/main.rs:271-281 | over one day's rows, the fold gives that day's per-exercise repetition sums and its row count |
| Totals.TodayTotals | src/main.rs:271-305 | the squat total and push-up total are the sums of today's counts of that exercise, and "Total workouts" is the number of today's rows |
| Totals.AddI32Wraps | src/main.rs:277-278 | one step of the `i32` fold is the true step reduced to 32 bits |
| Totals.TallyI32Wraps | src/main.rs:272-281 | the fold with `i32` accumulators is the true fold wrapped to 32 bits |
| Totals.TallyI32Overflows | src/main.rs:277 | two squat rows of 2147483647 give -2 in the `i32` fold against 4294967294 in truth |
| Totals.TotalsExample | src/main.rs:271-305 | 10 and 15 squats and 5 push-ups on one day give 25 squats, 5 push-ups and 3 workouts |
| Sessions.ReplayAppend | src/main.rs:424-432 | running two sequences of key presses one after the other is running the second from where the first stopped, unless the first quit or failed |
| Sessions.InitInvariant | src/main.rs:132-142 | start-up satisfies the state invariant whatever rows of valid clock readings the log holds: the buffer is digits, the cursor is in range, a selected day is on History and has rows |
| Sessions.StepInvariant | src/main.rs:144-240 | every successful key press keeps the state invariant and the validity of the log (counts in 1..=2147483647, known exercise names), and only extends the log |
| Sessions.ReplayInvariant | src/main.rs:424-432 | every state a run of the event loop reaches keeps the invariant, whatever rows of valid clock readings the log held at start-up, and the log only grows |
| Sessions.ReplayKeepsValidLog | src/main.rs:424-432 | a run of the event loop that starts from a log of well-formed rows leaves only well-formed rows |
| Sessions.CursorInRangeFromStart | src/main.rs:216-236 | from start-up, whatever rows of valid clock readings the log already holds, the cursor never leaves 0..=max(0, dates - 1), the buffer holds only digits, and a selected day is always a listed day |
| Sessions.TypingDigits | src/main.rs:183-185 | typing digits on the form appends them to the buffer and changes nothing else |
| Sessions.TypeAndSave | src/main.rs:183-200 | typing a savable count into an empty buffer and pressing Enter appends the record, reports it and leaves the buffer empty |
| Sessions.SaveUpdatesTotals | src/main.rs:189-200 | a save adds its count to today's total of its exercise and one to today's workout count; every other day's totals are unchanged |
| Sessions.SummaryAppend | src/main.rs:271-281 | appending a row changes a day's totals by that row's contribution when it falls on the day, and not otherwise |
| Sessions.Walkthrough | src/main.rs:152-236 | in an empty log, `a`, `2`, `0`, Enter saves 20 squats with message "Added 20 squats!"; then Esc, `h` list exactly that day, and Enter opens it with exactly that record |
| Sessions.TwoMaximalSaves | src/main.rs:271-281 | a run that saves 2147483647 squats twice ends on the main screen with true total 4294967294 while the as-written fold shows -2 |
| Sessions.MaximalSave | src/main.rs:189-200 | typing "2147483647" on the squat form and pressing Enter saves one maximal squat row |
| Sessions.MaximalSummary | src/main.rs:277 | for two maximal squat rows of one day, the true summary is 4294967294 and the as-written one is -2 |

## Left out

- Rendering (`ui`, the `render_*` functions, `render_help`): widget layout and styles only. The
  totals fold of `render_main_screen` is modelled in `Totals`.
- The terminal and the event loop in `main` (raw mode, alternate screen, `event::read`). The
  loop's dispatch of key presses is `Sessions.Replay`.
- SQLite itself: the SQL text, `Connection::open`, schema creation, the `id` column and row
  mapping. The log is a sequence and the queries are functions over it.
- The wall clock. `now` is a parameter; `get_today_workouts` takes `today` as a parameter, which
  is `date(now)` in every use.
- Read failures of the queries used while rendering (today's rows, a day's rows, the day list at
  render time). The program ignores them and draws nothing, which does not affect the state.
- Key codes the handlers do not tell apart are collapsed into `Key.Other`. Key modifiers are
  not modelled, because `handle_input` only sees the key code.
- Calendar validity of timestamps (month 13, day 32) and years beyond four digits. The model
  accepts any digits in each field, since the clock's formatting always produces four-digit years
  and valid dates. Text order equals the order of the YYYYMMDDhhmmss readings for every string
  of the stored shape. For a field out of range the model and the program disagree: `DateOf`
  returns the ten-character prefix, while SQLite's `date()` is NULL (month above 12, day above
  31) or another day (a day 29 to 31 past the month's end rolls into the next month). The
  model's claims about a log hold for logs of valid clock readings, which are all the program
  itself writes.
- Rows the model cannot represent. The schema lets any text into the `timestamp` column and any
  integer into `count` (src/main.rs:37-38). A timestamp SQLite cannot read as a time value makes
  `date(timestamp)` NULL, so reading it into a `String` (src/main.rs:103) fails. That makes
  `get_unique_dates` fail on every call, and Down or Enter in the date list then ends the program
  through `?` (src/main.rs:223, src/main.rs:231). Text in another format SQLite does read as a
  time ("2024-03-09", "2024-03-09T18:05:42", "2024-03-09 18:05", a Julian day number such as
  "2460000.5") is listed under a day, and the model cannot represent such a row either. A count
  outside `i32` fails its `row.get(1)` (src/main.rs:66, src/main.rs:86). A `Timestamp` only holds
  text of the `%Y-%m-%d %H:%M:%S` shape, so the model has none of these rows, and every claim
  about "any log" means any log of valid clock readings.
- Local time is not monotonic. `add_workout` stamps the local wall-clock reading without an
  offset, so when daylight saving time ends, or the clock or time zone is changed, a later save
  can carry a smaller timestamp and is then listed as older. The model does not assume that
  successive `now` readings increase, and no lemma claims the order of the readings is the
  order in which the saves happened.
- Ties between rows with identical timestamps. SQLite leaves their order unspecified. The model
  puts the earlier-inserted row first, and no lemma depends on that choice.
- A day's rows are listed newest first, as `ORDER BY timestamp DESC` at src/main.rs:59 and
  src/main.rs:79 sorts them. The model follows that order and claims no other.
- Sessions.TwoMaximalSaves: states the release-build behaviour (wrap-around to -2). A debug build
  panics on the same overflow instead, and the model does not distinguish the two builds.

## Findings

| source | as written | input that shows it | evidently intended | confidence | as-written member | corrected member |
|---|---|---|---|---|---|---|
| src/main.rs:272-281 | today's squat and push-up totals are summed in `i32` accumulators, while each saved count can be as large as 2147483647 | save 2147483647 squats twice on one day (Enter on "2147483647" twice); the sum 4294967294 does not fit in an `i32`, so a release build shows -2 and a debug build panics | the totals are the true sums of today's counts | not executed | Totals.TallyI32Overflows | Totals.TodayTotals |
