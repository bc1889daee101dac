# opening-times-picker in Dafny

A model of the React widget that edits a shop's weekly opening hours. The
widget keeps a list of business-day records. Each record has an id, a closed
flag, a set of weekdays (1 = Monday … 7 = Sunday) and a list of time ranges.
It shows every record as coloured blocks on a seven-column grid. A dialog
creates a record, or edits or deletes an existing one.

The model follows the components one by one:

- `Types` (types.dfy): the records. `Day` is the subset type 1..7. A time of
  day is `Clock` (minutes since midnight, or an invalid time). A time range
  keeps an optional start and end.
- `Lists` (lists.dfy): `Array.prototype.filter` as the function `Filter`,
  with the facts the handlers need about it.
- `Spans` (spans.dfy): `computeSpans`. It sorts the record's own day array
  in place, then scans it once and emits a span at the end of every run of
  consecutive days. The method works on an `array<Day>`. It is proved
  against the function `SpansOf`. On a sorted day list without duplicates,
  `SpansOf` is proved to be *the* partition into maximal runs: it is one
  such partition, and no other partition exists.
- `OpeningTimesPickerSpan` (span_block.dfy): one grid block, as a pure
  function of its props.
- `WeekdaysPicker` (weekdays.dfy): the weekday checkboxes. This is a class
  over a `map<Day, Weekday>` table with the two effects and the toggle
  handler. The toggle handler reports the checked days in ascending key
  order.
- `TimeRangePicker` (time_range_picker.dfy): the start/end editor. Both
  times start at midnight, and an accepted change leaves the start strictly
  before the end.
- `OpeningTimesDialog` (dialog.dfy): the dialog session (closed flag, ranges,
  days) and its handlers.
- `OpeningTimesPicker` (picker.dfy): the root component. It holds the
  collection, the edit-mode flag, the selected record and the dialog flag,
  plus the save/delete reconciliation and rendering. Lemmas here tie the
  components together: which days the selector lets the user pick, the
  "each weekday in at most one record" invariant, and how the rendered
  blocks tile a record's days.

Each event handler and each effect is one atomic state transition of its
class. Props (`editMode`, the edit payload, the disabled and checked day
lists) are parameters. Every id that `uuidv4()` would produce is a parameter
too: one `newId`, or a list `ids` of matching length. Freshness of an id
(not already in use) is a hypothesis of the lemmas that need it.

In edit mode the dialog passes `disabled={editModePayload && editMode === true}`
to the selector (src/lib/OpeningTimesDialog.tsx:141). That locks every
checkbox, so no day can be changed, not even the edited record's own;
`OpeningTimesPicker.EditModeFreezesDays` states it.

## Model

| member | source | states |
|---|---|---|
| Lists.Filter | src/lib/OpeningTimesPicker.tsx:71 | the filtered list is no longer than the input and holds exactly the input's elements that pass the test |
| Lists.FilterConcat | src/lib/OpeningTimesPicker.tsx:94 | filtering splits over a concatenation, so kept elements keep their relative order |
| Lists.FilterKeepsKeysDistinct | src/lib/OpeningTimesDialog.tsx:87 | filtering a list with distinct keys leaves the keys distinct |
| Spans.Scan | src/lib/OpeningTimesPicker.tsx:113-134 | the spans the loop emits from a position on, given the start of the run in progress: none exactly when no day is left, at most one per remaining day, the first starts at the run's start and the last ends at the last day |
| Spans.SpansOf | src/lib/OpeningTimesPicker.tsx:111-134 | for any day list: no spans exactly when there are no days, at most one span per day, the first span starts at the first day and the last ends at the last day |
| Spans.SortedSpansPartition | src/lib/OpeningTimesPicker.tsx:108-134 | the spans of the sorted copy of a day list without duplicates partition the original list into maximal runs |
| Spans.SortAscending | src/lib/OpeningTimesPicker.tsx:108 | the day array ends up sorted ascending and is a permutation of what it held |
| Spans.ScanRuns | src/lib/OpeningTimesPicker.tsx:111-134 | the loop over the sorted array, with `cachedStart` and the look-ahead at the next element, returns exactly `SpansOf` of the array's contents |
| Spans.ComputeSpans | src/lib/OpeningTimesPicker.tsx:104-137 | sorts the record's own day array in place (sorted, a permutation); the spans it emits are `SpansOf` of the sorted days; no span for no days; on days without duplicates the spans partition the original days into maximal runs |
| Spans.SpansPartition | src/lib/OpeningTimesPicker.tsx:111-134 | on a strictly ascending day list the scan's spans are non-empty, ascend with a gap between neighbours, cannot be extended at either end, and cover exactly the listed days; there are none only for the empty list |
| Spans.SpansOfIsTheMaximalRunPartition | src/lib/OpeningTimesPicker.tsx:113-134 | for a strictly ascending day list, a span list is a partition into maximal runs if and only if it is the one the scan emits |
| Spans.SortedDistinctIncreasing | src/lib/OpeningTimesPicker.tsx:108 | sorting a day list without duplicates gives a strictly ascending list |
| Spans.ExampleTwoRuns | src/lib/OpeningTimesPicker.tsx:113-134 | Monday–Wednesday plus Friday–Sunday give the two spans 1–3 and 5–7 |
| Spans.ExampleSingletons | src/lib/OpeningTimesPicker.tsx:113-134 | Monday, Wednesday and Friday give three one-day spans |
| Spans.ExampleRepeatedDay | src/lib/OpeningTimesPicker.tsx:113-134 | the days 1, 2, 2, 3 give the overlapping spans 1–2 and 2–3 |
| OpeningTimesPickerSpan.SpanBlock | src/lib/OpeningTimesPickerSpan.tsx:19-49 | nothing is rendered exactly when fromDay > toDay; otherwise the grid columns run from fromDay to toDay + 1 and override the caller's entries of those names while keeping the others; the block is toDay − fromDay + 1 columns wide; the label is "Geschlossen"/"Offen" by status; the background is the custom colour, else #cc3535/#a8ce51 by status; the text colour is set only with a custom colour; a click reports the record id |
| WeekdaysPicker.InitialTable | src/lib/WeekdaysPicker.tsx:35-43 | all seven days present, none checked or disabled, captioned Mo…So |
| WeekdaysPicker.WithDisabled | src/lib/WeekdaysPicker.tsx:49-51 | exactly the listed days become disabled; checked state and captions unchanged |
| WeekdaysPicker.WithChecked | src/lib/WeekdaysPicker.tsx:60-62 | exactly the listed days become checked; disabled flags and captions unchanged |
| WeekdaysPicker.CheckedFrom | src/lib/WeekdaysPicker.tsx:79-85 | the checked days from a given day on, strictly ascending, exactly the checked ones |
| WeekdaysPicker.CheckedDays | src/lib/WeekdaysPicker.tsx:79-85 | the reported list is strictly ascending, has no duplicates, and holds a day exactly when it is checked |
| WeekdaysPicker.Interactive | src/lib/WeekdaysPicker.tsx:101 | the global lock switches every checkbox off; without it exactly the days without their own disabled flag accept input |
| WeekdaysPicker.Weekdays.constructor | src/lib/WeekdaysPicker.tsx:35-43 | starts from the initial table |
| WeekdaysPicker.Weekdays.ApplyDisabledDays | src/lib/WeekdaysPicker.tsx:46-54 | the loop leaves the table equal to `WithDisabled` of the old table |
| WeekdaysPicker.Weekdays.ApplyCheckedDays | src/lib/WeekdaysPicker.tsx:57-65 | the loop leaves the table equal to `WithChecked` of the old table; an absent list changes nothing |
| WeekdaysPicker.Weekdays.DayChanged | src/lib/WeekdaysPicker.tsx:68-88 | the toggled day gets the new checked state and keeps its caption, its own disabled flag is dropped, and other days are untouched; the reported list is the new table's checked days, so it holds the toggled day iff it was checked and any other day iff it was already checked |
| TimeRangePicker.Editor.constructor | src/lib/TimeRangePicker.tsx:26-27 | both times start at midnight |
| TimeRangePicker.Editor.Seed | src/lib/TimeRangePicker.tsx:33-45 | takes the range's bounds only when both are present and valid, else changes nothing |
| TimeRangePicker.Editor.StartChanged | src/lib/TimeRangePicker.tsx:49-66 | no value is ignored; a start not strictly before the current end is rejected with nothing changed; the change is accepted iff neither happens; an accepted start is stored and then lies strictly before the end; the range is reported, with its id and the new bounds, exactly when the end is a valid time |
| TimeRangePicker.Editor.EndChanged | src/lib/TimeRangePicker.tsx:69-86 | the mirror image for the end: rejected unless strictly after the current start; reported with the current start when that is valid; an accepted end keeps start before end |
| TimeRangePicker.Editor.DeleteClicked | src/lib/TimeRangePicker.tsx:111 | reports the id of the range shown |
| OpeningTimesDialog.Reidentify | src/lib/OpeningTimesDialog.tsx:55-60 | same number of ranges, bounds kept, each under its fresh id; distinct fresh ids give distinct range ids |
| OpeningTimesDialog.Blank | src/lib/OpeningTimesDialog.tsx:80-82 | a newly added range carries only its fresh id and no bounds |
| OpeningTimesDialog.WithoutRange | src/lib/OpeningTimesDialog.tsx:86-88 | exactly the ranges with other ids remain; nothing changes when no range has the id; distinct ids stay distinct |
| OpeningTimesDialog.ReplaceRange | src/lib/OpeningTimesDialog.tsx:120-133 | same length and same id list in the same order; every range with the changed id becomes the changed range, the others are untouched |
| OpeningTimesDialog.AddKeepsIdsUnique | src/lib/OpeningTimesDialog.tsx:77-84 | appending a blank range with an unused id keeps range ids distinct |
| OpeningTimesDialog.ReplaceFindsChanged | src/lib/OpeningTimesDialog.tsx:120-133 | with distinct ids, after the update the changed range sits at its old position, is the only range with its id, and ids stay distinct |
| OpeningTimesDialog.Editing | src/lib/OpeningTimesDialog.tsx:48 | the session edits an existing record only when a record is handed over and edit mode is on; edit mode without a record, or a record outside edit mode, is a create session (the same test recurs at lines 95, 114, 141 and 143) |
| OpeningTimesDialog.Dialog.constructor | src/lib/OpeningTimesDialog.tsx:41-43 | a session starts closed, with no ranges and no days |
| OpeningTimesDialog.Dialog.Seed | src/lib/OpeningTimesDialog.tsx:45-63 | editing a given record copies its closed flag and days and its ranges under fresh ids; otherwise a fresh session |
| OpeningTimesDialog.Dialog.Reset | src/lib/OpeningTimesDialog.tsx:66-70 | back to the fresh-session state |
| OpeningTimesDialog.Dialog.ClosedChanged | src/lib/OpeningTimesDialog.tsx:73-75 | only the closed flag changes |
| OpeningTimesDialog.Dialog.AddTimeRange | src/lib/OpeningTimesDialog.tsx:77-84 | one blank range with the fresh id is appended; nothing else changes |
| OpeningTimesDialog.Dialog.RemoveTimeRange | src/lib/OpeningTimesDialog.tsx:86-88 | every range with the id is dropped, the rest keep their order |
| OpeningTimesDialog.Dialog.DaysChanged | src/lib/OpeningTimesDialog.tsx:90-92 | only the days change, to the reported list |
| OpeningTimesDialog.Dialog.TimeRangeChanged | src/lib/OpeningTimesDialog.tsx:120-133 | the ranges become `ReplaceRange` of the old ones; nothing else changes |
| OpeningTimesDialog.Dialog.Save | src/lib/OpeningTimesDialog.tsx:94-106 | with no days selected (button disabled, line 190) nothing happens and nothing is reported; otherwise it reports the record built from the session (the edited record's id in edit mode, else the fresh id) and resets the session |
| OpeningTimesDialog.Dialog.Close | src/lib/OpeningTimesDialog.tsx:108-111 | resets the session |
| OpeningTimesDialog.Dialog.Delete | src/lib/OpeningTimesDialog.tsx:113-118 | does nothing unless an existing record is edited; then resets and reports that record's id |
| OpeningTimesPicker.RemoveById | src/lib/OpeningTimesPicker.tsx:71 | exactly the records with other ids remain; nothing changes when no record has the id; distinct ids stay distinct |
| OpeningTimesPicker.RemoveByIdConcat | src/lib/OpeningTimesPicker.tsx:94 | removal splits over concatenation, so the remaining records keep their order |
| OpeningTimesPicker.RemoveUniqueId | src/lib/OpeningTimesPicker.tsx:90-101 | with distinct ids, deleting a present id removes exactly one record |
| OpeningTimesPicker.FindById | src/lib/OpeningTimesPicker.tsx:46 | nothing exactly when no record has the id; otherwise a record with the id that no earlier record shares |
| OpeningTimesPicker.AllDays | src/lib/OpeningTimesPicker.tsx:139-147 | a day is listed exactly when some record holds it |
| OpeningTimesPicker.Relabel | src/lib/OpeningTimesPicker.tsx:36-41 | same records in the same order, each under its fresh id; distinct fresh ids give distinct record ids |
| OpeningTimesPicker.SaveKeepsRecordIdsUnique | src/lib/OpeningTimesPicker.tsx:68-88 | saving keeps record ids distinct: in edit mode the records with the saved id are dropped before it is appended, and in create mode the saved record's fresh id is not in use |
| OpeningTimesPicker.CreateSaveKeepsDaysDisjoint | src/lib/OpeningTimesPicker.tsx:79 | appending a record whose days are all free keeps every weekday in at most one record |
| OpeningTimesPicker.EditSaveKeepsDaysDisjoint | src/lib/OpeningTimesPicker.tsx:69-77 | replacing a record by one with its id and its days keeps every weekday in at most one record |
| OpeningTimesPicker.CreateModeSelectableDays | src/lib/OpeningTimesPicker.tsx:180 | in create mode, whatever stale record is still handed over, a day can be ticked exactly when no record holds it |
| OpeningTimesPicker.EditModeFreezesDays | src/lib/OpeningTimesDialog.tsx:141-143 | in edit mode the selector shows exactly the edited record's days as ticked and no day can be changed |
| OpeningTimesPicker.RenderedBlocksTileDays | src/lib/OpeningTimesPicker.tsx:121-130 | for a record without duplicate days every span renders a block, the blocks ascend without overlap, and a grid column lies in a block exactly when its day belongs to the record |
| OpeningTimesPicker.Picker.constructor | src/lib/OpeningTimesPicker.tsx:25-30 | empty collection, dialog closed, not in edit mode, nothing selected |
| OpeningTimesPicker.Picker.Reseed | src/lib/OpeningTimesPicker.tsx:33-42 | host records replace the collection, each under a fresh id; without host records nothing changes |
| OpeningTimesPicker.Picker.TimeSpanClicked | src/lib/OpeningTimesPicker.tsx:45-56 | an unknown id changes nothing; otherwise the first record with the id is selected, edit mode is on and the dialog opens |
| OpeningTimesPicker.Picker.AddTimeSpanClicked | src/lib/OpeningTimesPicker.tsx:58-60 | only opens the dialog |
| OpeningTimesPicker.Picker.DialogClosed | src/lib/OpeningTimesPicker.tsx:62-66 | leaves edit mode and closes the dialog; the selected record stays |
| OpeningTimesPicker.Picker.DialogSaved | src/lib/OpeningTimesPicker.tsx:68-88 | in edit mode the records with the saved id are removed and the saved record is appended; in create mode it is appended; the callback gets the new collection; the dialog closes and edit mode ends |
| OpeningTimesPicker.Picker.DialogDeleted | src/lib/OpeningTimesPicker.tsx:90-101 | outside edit mode nothing happens; in edit mode the records with the id are removed, the callback gets the new collection, the dialog closes and edit mode ends |
| OpeningTimesPicker.Picker.DisabledDays | src/lib/OpeningTimesPicker.tsx:139-147 | the loop returns `AllDays` of the collection: a day is listed exactly when some record holds it |
| OpeningTimesPicker.Picker.Render | src/lib/OpeningTimesPicker.tsx:168 | each record's span list is `SpansOf` of its days; afterwards each record holds its days sorted (a permutation of before), nothing else about the records changes, and the other state is untouched |

## Left out

- Rendering itself is not modelled: JSX, Material-UI components, CSS class names, German button texts, snackbar messages (only *that* a change is rejected is modelled) and React keys such as `${id}_${i}`.
- React scheduling is not modelled. Each handler or effect is one atomic step, and `setState` batching and effect ordering are not captured. Neither is which props change triggers which effect.
- dayjs parsing and `HH:mm` formatting are not modelled. A time is minutes since midnight or invalid, and a range's bound is that value or absent. Whether a text parses is a parameter.
- `uuidv4()` is not modelled; each generated id is a parameter.
- The engine's sorting algorithm is not modelled. `Spans.SortAscending` is an insertion sort with the same result (sorted, a permutation).
- Aliasing is not modelled. The source sorts `businessDay.days` in place during render, and the same array is also reachable from the selected record and the dialog. `OpeningTimesPicker.Picker.Render` writes the sorted days back into the collection only.
- Weekday keys are not modelled as strings. The checked-day list relies on `Object.keys` enumerating integer keys ascending (section 10.1.11.1 of ECMA-262); the model takes that order as given.
- Days outside 1..7 are excluded by the `Day` type; the source's `Day` is a numeric enum that TypeScript does not check at run time.
- src/main.tsx (the demo page) is not part of this model. Neither are the type-only files under src/lib/types/ (their content is the datatypes of `Types`) or the unused `WithUUID` type.
- `OpeningTimesDialog.Dialog.Save`: the disabled save button (src/lib/OpeningTimesDialog.tsx:190) is modelled as a no-op handler.
- `Spans.ComputeSpans`: the partition property is proved only for day lists without duplicates. With duplicates, each repeated day closes the current run and starts the next run at that same day, so spans can overlap (`[1, 2, 2, 3]` gives 1–2 and 2–3). The model's function does the same, but only the general facts of `Spans.SpansOf` are claimed for that case.
- `OpeningTimesPicker.Picker.DialogSaved`: in edit mode the saved record moves to the end of the collection, as the code does. The weekday invariant is stated as separate lemmas over the collection, not as a class invariant, because the source does not enforce it against host data.
