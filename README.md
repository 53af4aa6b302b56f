# Habit tracker core, modelled in Dafny

The habit tracker is a single browser script, `app.js`. It keeps a list of named habits. Each habit has a map from a date key ("YYYY-MM-DD") to a commit count. The script draws a 26-week heat map per habit and lets the user select a past day or today and change its count. Most of the script builds DOM nodes. This project models the logic underneath:

- `levels.dfy` (module `Levels`): `commitLevel`, the five intensity buckets of the heat map, with a reference definition (the number of level thresholds a count reaches) and monotonicity.
- `text.dfy` (module `Text`): JavaScript's `String.prototype.trim`. The add-habit form uses it to reject blank names.
- `habits.dfy` (module `Habits`): a habit as a value. It also gives the value-level effect of the two count edits: `Adjusted` (move by a delta, clamped at 0) and `Cleared` (set to 0). A missing date key reads as 0.
- `storage.dfy` (module `Storage`): `loadState` over an abstract JSON value and the four shapes a stored value can take. It also gives the document that `saveState` writes, and a typed reading of a loaded document. That reading states the round trip and the legacy migration.
- `calendar.dfy` (module `Calendar`): `buildCalendarDates` (a method with nested loops), the per-cell rule of `buildGrid` (count, level, future flag, selection mark, clickability), and `buildMonths` (a method carrying the previous week's month).
- `store.dfy` (module `Store`): the mutable state. `Habit` is a class whose `commits` field the count edits change in place. `Tracker` holds the habit list, the per-habit selected date, the habit opened by the last render, and a ghost copy of what was last saved. Its methods are `SelectDate`, `ChangeCommits`, `ClearDay`, `AddHabit` and `SubmitHabit`, the form handler with the blank-name guard. `ResolveOpenId` is the open-habit default of `renderHabits`.

Dates are local day numbers counted from 1970-01-01, which was a Thursday, so `getDay()` is `(day + 4) % 7`, with 0 for Sunday. The current day, the parser, fresh ids, and the functions that turn a date into its key or its month are all parameters.

Behaviour of `app.js` that the model keeps as written:

- Habits have an id, a name and commits only. `app.js` has no icon, no theme, no rename, no delete and no normalisation of fields on load, so the model has none.
- The grid's last week is the week that contains today, and its later days are drawn as future cells (`Calendar.FutureCells`).
- `loadState` wraps any other truthy object (one without a `habits` array) as a legacy habit. That includes a JSON array (`typeof [] === "object"`) and an empty object `{}`, which loads as one habit (`Storage.EmptyObjectLoadsAsOneHabit`).

## Model

| member | source | states |
|---|---|---|
| Levels.CommitLevel | app.js:60-66 | the level of any count is between 0 and 4 |
| Levels.CommitLevelBuckets | app.js:60-66 | the five buckets as if-and-only-if: at most 0 gives 0, 1-2 give 1, 3-4 give 2, 5-7 give 3, 8 or more give 4 |
| Levels.CommitLevelIsThresholdsReached | app.js:60-66 | the level equals the number of the thresholds 1, 3, 5, 8 that the count reaches |
| Levels.ReachedMonotone | app.js:60-66 | with increasing thresholds, a larger count reaches at least as many |
| Levels.CommitLevelMonotone | app.js:60-66 | more commits never give a lower level |
| Text.TrimStart | app.js:336 | the result is a suffix of the input, everything dropped is white space, and the result does not start with white space |
| Text.TrimEnd | app.js:336 | the result is a prefix of the input, everything dropped is white space, and the result does not end with white space |
| Text.Trim | app.js:336 | the trimmed name neither starts nor ends with white space and is no longer than the input |
| Text.TrimIsSlice | app.js:336 | the trimmed name is one contiguous slice of the input, with only white space before and after it |
| Text.TrimEmptyIffBlank | app.js:336-337 | a name is rejected (trims to empty) exactly when it consists only of white space |
| Text.TrimIdempotent | app.js:336 | trimming an already trimmed name changes nothing |
| Habits.CountOf | app.js:240 | the default to 0 of the count lookup: a missing date reads as 0, a present one as its count, and the count is never negative when no stored count is |
| Habits.Adjusted | app.js:237-242 | the selected date's count becomes max(0, old + delta), with a missing key read as 0; the date gains an entry; every other date keeps its count; non-negative counts stay non-negative |
| Habits.Cleared | app.js:247-250 | the selected date's count becomes 0 and the date has an entry afterwards; every other date keeps its count |
| Habits.DecrementAtZeroStaysZero | app.js:240-241 | -1 on a date with no commits leaves it at 0, never negative |
| Habits.AdjustedAdditive | app.js:240-242 | two non-negative adjustments in a row equal one adjustment by their sum |
| Habits.ClampedAdjustIsClear | app.js:241-250 | an adjustment that would go to 0 or below gives the same commits as clearing the day |
| Habits.ClearedIdempotent | app.js:250 | clearing a cleared day changes nothing |
| Habits.AdjustRoundTrip | app.js:240-242 | subtracting at most the current count and adding it back restores the commits exactly |
| Storage.Truthy | app.js:21 | JavaScript truthiness: a value is falsy exactly when it is null, false, 0 or the empty string, so every array and object, even an empty one, is truthy |
| Storage.IsObjectLike | app.js:25 | `typeof === "object"` holds exactly for null, arrays and objects, and together with truthiness exactly for arrays and objects |
| Storage.HasHabitsArray | app.js:21 | a value with a habits array is always a truthy object, so it never reaches the legacy branch |
| Storage.LegacyDocument | app.js:26-34 | the wrapped document has a habits array of exactly one habit whose commits are the stored value itself |
| Storage.LoadState | app.js:14-41 | loading never fails: the result always has a habits array, and absent or empty stored text gives the empty list |
| Storage.LoadShapes | app.js:17-39 | a parse failure gives the empty list; a value with a habits array is returned unchanged; any other object or array becomes one legacy habit; a primitive gives the empty list |
| Storage.EmptyObjectLoadsAsOneHabit | app.js:25-35 | an empty stored object loads as one habit, not as an empty list |
| Storage.Document | app.js:43-45 | the saved document has a habits array with one entry per habit |
| Storage.DecodeCommitsJson | app.js:44 | reading back a saved commits object gives the same commits map |
| Storage.DecodeHabitsJson | app.js:44 | reading back the saved habit objects gives the same habits in the same order |
| Storage.DecodeDocumentRoundTrip | app.js:43-45 | reading back a saved document gives the same habit list |
| Storage.LoadSavedDocument | app.js:14-45 | loading what was saved returns that document unchanged and the same habit list |
| Storage.LegacyMigration | app.js:25-35 | a legacy date-to-count map loads as one habit named "Habit", with the fresh id and that map as its commits |
| Storage.LegacyExample | app.js:25-35 | {"2024-01-01": 3} loads as one habit "Habit" with 3 commits on 2024-01-01 |
| Calendar.DayOfWeek | app.js:72 | the weekday is in 0..6 |
| Calendar.GridStart | app.js:71-74 | the first cell is a Sunday, and today lies in the 26th week counted from it |
| Calendar.CalendarDates | app.js:68-88 | the grid has 26 weeks of 7 dates each |
| Calendar.BuildCalendarDates | app.js:68-88 | the nested loops produce exactly the grid of CalendarDates |
| Calendar.CalendarConsecutive | app.js:71-85 | the grid runs one day per cell from its first cell, which is a Sunday; column d of every week is weekday d |
| Calendar.TodayInLastWeek | app.js:71-74 | today is in the last week, at the column of its own weekday |
| Calendar.FutureCells | app.js:138 | a cell is after today exactly when it is in the last week and right of today's column |
| Calendar.CalendarDatesDistinct | app.js:76-85 | different cells hold different dates |
| Calendar.DayCell | app.js:133-148 | a cell shows the count of its key (0 if absent) and its level; it is future exactly when its date is after today, and selected exactly when its key is the selected one |
| Calendar.BuildGrid | app.js:124-161 | one cell per date, in the layout of the weeks |
| Calendar.ClickableCells | app.js:138-152 | in today's grid a cell gets a click handler exactly when its date is not after today: every week but the last, and the last week up to today's column |
| Calendar.AtMostOneSelected | app.js:135-148 | when distinct dates get distinct keys, at most one cell is marked selected |
| Calendar.BuildMonths | app.js:103-122 | one label per week; a week is labelled exactly when it is the first week or its month differs from the previous week's, and the label is that week's month |
| Calendar.LabelCoversFollowingWeeks | app.js:106-118 | every unlabelled week after a labelled one has the month of that label |
| Store.ResolveOpenId | app.js:296-312 | with no habits nothing opens; with no id requested (or an empty one) the first habit opens |
| Store.OpensExactlyOne | app.js:312-315 | with distinct ids and a listed or absent request, exactly one habit is open: the requested one, otherwise the first |
| Store.Tracker.constructor | app.js:11-12 | startup holds the loaded habits, no selections, nothing written to storage yet, and the first render opens the default habit |
| Store.Tracker.Selection | app.js:238-239 | `!selectedDate`: a habit has a selection exactly when its entry exists and is not empty, and the selection is that entry |
| Store.Tracker.SelectDate | app.js:232-235 | the habit's selected date becomes the key and every other habit's selection is unchanged; nothing is saved; the habit is opened |
| Store.Tracker.ChangeCommits | app.js:237-245 | without a selection nothing changes; otherwise the habit's commits become Adjusted by delta at the selected date and the list is saved; other habits, the order and the selections are unchanged; non-negative counts stay non-negative |
| Store.Tracker.ClearDay | app.js:247-253 | without a selection nothing changes; otherwise the selected date's count becomes 0, the list is saved and the habit is re-rendered open; nothing else changes |
| Store.Tracker.AddHabit | app.js:322-331 | the list grows by one, the new habit with that name and no commits is first, former habit i is now at i + 1 unchanged, the list is saved, and the new habit is the only one with its id and the one opened |
| Store.Tracker.SubmitHabit | app.js:333-339 | a name that trims to empty leaves everything unchanged; any other name is added in its trimmed form, saved and opened, and the selections are unchanged |

## Left out

- DOM construction and event wiring are not modelled: `buildDayLabels`, the markup of `renderHabit`, the summary text of `updateSummary`, tooltips, and the header click handler that toggles the open card without a render (app.js:278-286). `Tracker.openId` is the habit opened by the last `renderHabits` call.
- `localStorage` and `JSON.parse` are parameters: the stored text is an `Option<string>` and the parser is any function, with `None` for a parse that throws. `JSON.stringify` is modelled as the value `Storage.Document`. `saveState` is modelled by the ghost field `Tracker.saved`, which is `None` until the first save: startup writes nothing, so a migrated legacy map stays in storage as it was until the first edit.
- `crypto.randomUUID` is modelled as an id parameter. Adding a habit requires that the id is non-empty and not yet in use.
- `Date`, `toISOString` and `toLocaleDateString` depend on the time zone and the locale. Dates are integer day numbers; the date-to-key function (`formatDate`) and the date-to-month function (`getMonth`) are parameters. The day shift caused by applying `toISOString` (UTC) to a local midnight is not modelled. It matters: in a time zone whose offset crosses UTC+0 with daylight saving (Europe/London, say), the local midnights of the Sunday the clocks go forward and of the following Monday both fall on the Sunday's UTC date, so two cells share one key and show one count, and both can be marked selected. `formatDate` is then not injective and `Calendar.AtMostOneSelected` does not apply.
- `humanDate` and the month label text are locale text. A month label is modelled as the month number, or `None` for the empty label.
- JSON numbers and commit counts are unbounded integers. Floating point, NaN and `-0` are not modelled.
- Strings are sequences of Unicode scalar values, not UTF-16 code units.
- `selectedDates` and `habit.commits` are plain JavaScript objects in `app.js` and Dafny maps here. Habit ids and date keys are taken not to be names inherited from `Object.prototype` (`"toString"`, `"constructor"`, ...): for such an id `selectedDates[habit.id]` reads an inherited function, which is truthy, so `changeCommits` runs with no date selected, whereas `Store.Tracker.Selection` gives `None`.
- `Store.Tracker.constructor`: it takes the loaded habits as `Habit` objects. `app.js` keeps whatever object was parsed; the model reads only well-formed documents into habits (`Storage.DecodeDocument`), so a loaded habit whose fields are missing or of another type has no counterpart.
- `Storage.Document`: the saved document holds only `habits` and, per habit, `id`, `name` and `commits`. `app.js` returns a loaded document unchanged (app.js:21-22) and writes back `JSON.stringify(habitState)` (app.js:44), so any other member, such as a per-habit `icon` or a top-level `version`, goes back to storage; `Storage.DecodeDocument` ignores such members, and the model's saved document (`Tracker.saved`) drops them.
- The `selectedDates` entry set by `selectDate` may be any key. Only clickable cells call it, which `Calendar.ClickableCells` states about the grid. The model does not link the grid and the store into a single click-to-state step.
