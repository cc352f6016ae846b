# Mapty workout tracker: the workout model and the list state

Mapty is a browser workout tracker. The user clicks the map and fills a short form. The app
then records a running or cycling workout, shows it in a list and on the map, and keeps the
list in the browser's local storage. This project models the synchronous, deterministic core
of `script.js` and proves properties of it:

- the workout records `Workout`, `Running` and `Cycling`: construction, the description
  string, `click`, `update`, `calcPace` and `calcSpeed` (module `Workouts`, class `Workout`);
- the form checks `validIn` and `isAllPositive` over JavaScript numbers (module `Validation`);
- the list state of `App`: the ordered `#workouts`, the `isAscending` flag and the value
  stored under the key `'workouts'`, with add, focus (click), delete, delete-all, stable sort
  by distance, save-edit, and the storage operations (module `Mapty`, class `App`);
- the stable sort used by `_sortWorkouts` (module `Sorting`) and the decimal and
  capitalisation helpers that build a description (module `Text`).

A few modelling choices:

- One class `Workout` stands for both subclasses. Its `kind` field is the `type` tag. The
  field `extra` holds `cadence` for running and `elvGain` for cycling. The field `metric`
  holds `pace` or `speed` as last computed.
- Fields that the source never assigns after construction (`id`, `coords`, `date`, `type`,
  `description`) are constants.
- A derived metric is `Option<real>`. `None` stands for the Infinity or NaN that JavaScript
  gives when the divisor is zero. This can happen after an edit or a load, because neither
  re-validates the numbers.
- A form number is a JavaScript `Num`: a finite value, +Infinity, -Infinity or NaN. This keeps
  `Number.isFinite(x)` and `x > 0` exact; for example `Infinity > 0` is true.
- Storage is the field `stored: Option<seq<Record>>`. A `Record` is the value that
  `JSON.stringify` keeps of one workout. `None` means the key is absent.
- `Math.random()` ids and `new Date()` come in as `Stamp` parameters. A stamp is an id plus the
  month and day of the month. On load, the record at position `k` gets `stamps[k]`.

Two points where the code's behaviour is easy to misread:

- A click on a workout whose id is not in the list never reaches the deletion.
  `_HandleClickOnWorkout` calls `_moveToPopup` first (script.js:128). Its `find`
  (script.js:361-363) gives `undefined`, and `workout.coords` then throws (script.js:365).
  So `DeleteWorkout` and `FocusWorkout` take a valid index. Had the -1 from `findIndex` reached
  `_deleteWorkout`, the marker test (script.js:416) would throw once a marker is on the map,
  and `splice(-1, 1)` (script.js:423) would remove the last workout rather than nothing.
- Workouts are looked up with `find` in `_moveToPopup` and with `findIndex` in the click and
  edit handlers. The model takes the resulting index or object as given.

## Model

| member | source | states |
|---|---|---|
| `Validation.ValidIn` | script.js:210-212 | true exactly when every input is a finite number |
| `Validation.IsFinite` | script.js:211 | `Number.isFinite`: false exactly for NaN and the two infinities |
| `Validation.IsPositive` | script.js:215 | `n > 0`: false for NaN and -Infinity; for a finite number, whether its value is above zero |
| `Validation.IsAllPositive` | script.js:214-216 | true exactly when every input is `> 0` in JavaScript's sense (+Infinity counts, NaN does not) |
| `Mapty.AcceptedRunning` | script.js:230-237 | a running form is accepted iff distance, duration and cadence are all finite and positive |
| `Mapty.AcceptedCycling` | script.js:243-249 | a cycling form is accepted iff all three numbers are finite and distance and duration are positive; elevation may have any sign |
| `Mapty.Accepted` | script.js:233-248 | an accepted form has three finite numbers and a positive distance and duration |
| `Mapty.AcceptedExamples` | script.js:230-249 | distance -1 is rejected for both variants; cycling with elevation -5 is accepted, running with cadence -5 is not; NaN and Infinity are rejected |
| `Workouts.TypeName` | script.js:50 | the stored `type` string reads back as the same variant |
| `Workouts.KindOfTypeName` | script.js:385-389 | a string that loads as a variant is exactly that variant's type name |
| `Workouts.Pace` | script.js:58-62 | pace exists exactly when the distance is non-zero |
| `Workouts.PaceMeaning` | script.js:58-62 | pace × distance = duration; positive inputs give a positive pace |
| `Workouts.Speed` | script.js:77-81 | speed exists exactly when the duration is non-zero |
| `Workouts.SpeedMeaning` | script.js:77-81 | speed × duration = 60 × distance, the duration being in minutes; positive inputs give a positive speed |
| `Workouts.Derived` | script.js:58-81 | the metric exists exactly when its divisor is non-zero: the distance for running, the duration for cycling |
| `Workouts.DerivedExamples` | script.js:58-81 | distance 5 and duration 30 give pace 6; distance 20 and duration 60 give speed 20 |
| `Workouts.MonthName` | script.js:29 | a month name contains no space |
| `Workouts.Heading` | script.js:31 | the capitalised type plus " on " is 11 characters and starts with `R` for running and `C` for cycling |
| `Workouts.Description` | script.js:27-34 | the description is longer than its 11-character heading and begins with it, so with `R` for running and `C` for cycling |
| `Workouts.DescriptionInjective` | script.js:27-34 | two equal descriptions come from the same type and the same month and day |
| `Workouts.DescriptionRunningExample` | script.js:27-34 | a running workout of January 5 reads "Running on January 5" |
| `Workouts.DescriptionCyclingExample` | script.js:27-34 | a cycling workout of December 24 reads "Cycling on December 24" |
| `Text.Capitalize` | script.js:31 | same length: the first letter upper-cased, the rest unchanged |
| `Text.Decimal` | script.js:33 | the day is written as a non-empty string of decimal digits |
| `Text.ParseDecimalOfDecimal` | script.js:33 | reading the digits back gives the number |
| `Text.DecimalInjective` | script.js:33 | different days are written differently |
| `Workouts.FreshRecord` | script.js:17-86 | a newly built workout's record reads back as its variant, has zero clicks, the given id and date, and a description that begins with the variant's heading |
| `Workouts.Workout.constructor` | script.js:17-25 | type, id, coords, date and the three entered values as given; clicks 0; metric is the pace or speed of the entered values; description built from type and date |
| `Workouts.Workout.Click` | script.js:36-38 | clicks goes up by exactly one; distance, duration, extra and metric stay |
| `Workouts.Workout.Update` | script.js:63-66 | distance, duration and cadence or elevation take the new values; metric and clicks stay (and the constant fields cannot change) |
| `Workouts.Workout.CalcPace` | script.js:58-62 | on a running workout, stores and returns the pace of the current distance and duration |
| `Workouts.Workout.CalcSpeed` | script.js:77-81 | on a cycling workout, stores and returns the speed of the current distance and duration |
| `Workouts.Snapshot` | script.js:376 | the serialised record carries a type tag that reads back as the workout's variant |
| `Workouts.Snapshots` | script.js:376 | the serialised list has one record per workout |
| `Workouts.SnapshotsAppend` | script.js:376 | serialising `a + b` gives the records of `a` followed by those of `b` |
| `Sorting.InOrder` | script.js:536-538 | a workout stays in front exactly when the comparator's result is not positive |
| `Sorting.Insert` | script.js:535-539 | inserting a position keeps the old positions and adds exactly that one |
| `Sorting.SortedOrder` | script.js:535-539 | the sort gives one old position per element, each within the list |
| `Sorting.SortedOrderPermutation` | script.js:535-539 | no old position occurs twice and every one occurs: the sort is a permutation |
| `Sorting.SortedOrderOrdered` | script.js:535-539 | along the sorted positions the distances are non-decreasing when ascending and non-increasing otherwise |
| `Sorting.SortedOrderStable` | script.js:535-539 | positions with equal distances stay in increasing order: the sort is stable |
| `Sorting.Distances` | script.js:536-538 | the comparator's keys are the workouts' current distances, position by position |
| `Sorting.SortByDistance` | script.js:535-539 | the sorted list has the same length, and its element at `k` is the old element at the `k`-th sorted position |
| `Sorting.SortByDistanceOrdered` | script.js:535-539 | the sorted workouts run through their distances in the requested direction |
| `Sorting.SortByDistanceSameWorkouts` | script.js:535-539 | a workout is in the sorted list exactly when it was in the old list |
| `Sorting.SortByDistancePermutation` | script.js:535-539 | the sorted list holds the old workouts, each exactly as often as before |
| `Mapty.SortByDistanceDistinct` | script.js:535-539 | sorting a list in which no workout occurs twice gives such a list again |
| `Sorting.SortByDistanceStable` | script.js:535-539 | two sorted workouts of equal distance came from old positions in the same order |
| `Mapty.RemoveAt` | script.js:423 | `splice(i, 1)`: one element shorter, elements before `i` unchanged, later ones shifted down by one, exactly `s[i]` removed from the multiset |
| `Mapty.AssignAt` | script.js:478 | `s[i] = x`: replaces position `i`, or appends when `i` is the length; other positions unchanged |
| `Mapty.RebuiltShape` | script.js:384-393 | one record gives at most one workout, exactly one when its type is known, with that type and zero clicks |
| `Mapty.Loaded` | script.js:384-393 | loading never gives more workouts than there are records |
| `Mapty.LoadedAppend` | script.js:384-393 | loading `a + b` gives the workouts of `a` followed by those of `b`, each with its own stamp |
| `Mapty.LoadedSkipsUnknown` | script.js:384-393 | a record whose type is neither running nor cycling adds nothing |
| `Mapty.LoadedTyped` | script.js:384-393 | records with known types load one for one, in order, as fresh workouts of that type with the same coordinates, distance, duration and cadence or elevation gain |
| `Mapty.SaveThenLoad` | script.js:375-393 | saving a list and loading it back gives the same number of workouts with the same types, coordinates, distance, duration and extra value, a recomputed metric, zero clicks and the new id and date |
| `Mapty.App.constructor` | script.js:92-102 | an empty list sorting descending first, then filled from storage: the list's snapshot is what the stored records load to, or empty when the key is absent |
| `Mapty.App.GetLocalStorage` | script.js:379-400 | keeps the old list as a prefix and appends fresh workouts whose snapshot is what `Loaded` gives for the stored records; nothing when the key is absent |
| `Mapty.App.RestoreAll` | script.js:384-393 | the list grows by fresh workouts only, and the new list's snapshot is the old one followed by `Loaded` of the records |
| `Mapty.App.Restore` | script.js:385-392 | a running or cycling record pushes one fresh workout of that variant, with the record's values; any other record pushes nothing |
| `Mapty.App.SetLocalStorage` | script.js:375-377 | the key holds the snapshot of the current list |
| `Mapty.App.ResetLocalStorage` | script.js:402-404 | the key is absent |
| `Mapty.App.UpdateLocalStorage` | script.js:406-409 | removing and then setting leaves the same state as setting once |
| `Mapty.App.NewWorkout` | script.js:218-270 | accepted iff the form checks pass; a rejected form changes neither list nor storage; an accepted one appends exactly one fresh workout at the end and stores the snapshot of the new list |
| `Mapty.App.FocusWorkout` | script.js:357-373 | the clicked workout gains one click; the list and the stored snapshot are not touched |
| `Mapty.App.DeleteWorkout` | script.js:411-430 | the list loses exactly element `i`, the others keep their order, and storage holds the new list |
| `Mapty.App.DeleteAll` | script.js:486-507 | the list is empty, the key is removed rather than set to an empty list, and the sort direction is kept |
| `Mapty.App.SortWorkouts` | script.js:530-546 | the list becomes the stable sort by distance in the current direction, the direction flips, and storage holds the sorted list |
| `Mapty.App.SaveEdit` | script.js:456-484 | the edited workout takes the new values, its metric is recomputed and its clicks kept; the list stays the same and storage holds it |
| `Mapty.App.SaveEditAsWritten` | script.js:456-484 | as in the source, the edited workout is also written back at the index captured when editing began |
| `Mapty.StaleIndexDuplicates` | script.js:478 | edit the second of two workouts, delete the first, save: the edited workout is in the list twice |

The class invariant `App.Valid()` says that no workout object occurs twice in the list. The
source never checks this, so no operation requires it. The constructor and `DeleteAll`
establish it. Every other corrected operation keeps it when it held before the call.
`SaveEditAsWritten` does not keep it.

## Findings

| source | as written | input that shows it | evidently intended | confidence | as-written member | corrected member |
|---|---|---|---|---|---|---|
| script.js:478 | `_saveEdit` writes the edited object back at the index captured when the edit began | list `[A, B]`; edit B (index 1); delete A; save B. The list becomes `[B, B]` and is stored that way | the list keeps one copy of the edited workout. The object was already updated in place, so the write-back can go | high (not executed) | `Mapty.StaleIndexDuplicates` | `Mapty.App.SaveEdit` |

`Mapty.App.SaveEditAsWritten` is the as-written operation. Its contract,
`workouts == AssignAt(old(workouts), i, w)`, reduces the scenario to the list computed in
`Mapty.StaleIndexDuplicates`.

## Left out

- DOM rendering and widget toggling are markup and CSS side effects. This covers `_renderWorkout`, `_hideForm` with its `setTimeout`, `_showForm`, `_toggleElevationField`, `_showClearAll`/`_hideClearAll`, `_clearWorkoutsEle`, `alertMsg` and `_filterHandler`.
- Leaflet and geolocation are foreign library calls and asynchronous callbacks. This covers `_getPosition`, `_loadMap`, `_renderWorkoutMarker`, the `setView` in `_moveToPopup`, and marker removal in `_deleteWorkout`/`_deleteAll`.
- Click-target resolution (`_HandleClickOnWorkout`, `_editWorkout`) works through `closest`/`querySelector` on DOM elements. The model takes the resulting index or object.
- Mapty.App.DeleteWorkout: requires `i < |workouts|`. An id that is not in the list makes `_moveToPopup`, which `_HandleClickOnWorkout` calls first (script.js:128), throw at `workout.coords` (script.js:361-365), so `_deleteWorkout` is never reached with -1.
- Mapty.App.FocusWorkout: requires `i < |workouts|`. For an id that is not in the list, `find` gives `undefined` and `workout.coords` throws (script.js:361-365).
- Real `localStorage` and `JSON.stringify`/`JSON.parse` are replaced by the abstract field `stored`. This leaves out text that does not parse, and stored records with missing or non-numeric fields.
- `Math.random()` and `new Date()` are nondeterministic; ids and dates are parameters. The year and time of day are not modelled, because the description uses only month and day.
- JavaScript floating point is modelled as exact reals, and `toFixed` rounding in the rendered list is left out.
- `+input.value` (parsing the form's text into a number) is left out; the model takes the resulting number.
- String coercion in `_saveEdit` is left out. The source passes the inputs' `.value` strings to `update`, and later arithmetic coerces them; the model's `update` takes reals.
- Mapty.App.SaveEditAsWritten: requires `i <= |workouts|`. A stale index beyond the end would make a JavaScript array with holes, which a sequence cannot represent.
- Mapty.App.NewWorkout: takes the workout type as a `Kind`. The form's select offers only `running` and `cycling`, so the source's path with neither (which pushes `undefined`) is not modelled.
- The guard `if (!this.#workouts) return;` in `_sortWorkouts` never fires, because an array is always truthy; the model has no such branch.
