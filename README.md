# Weekly planner core, modelled in Dafny

This is a model of the planning engine behind a single-user weekly planner.
The planner shows a Monday-to-Sunday grid of half-hour slots from 06:00 to
23:30, a side list of unscheduled tasks and a task editor. The model has
nine modules: eight follow the source files, and `Js` holds the
JavaScript primitives they share:

- `Js` models the primitives the code relies on:
  - nullable values and their truthiness, `||` defaults;
  - partial update objects;
  - `filter`, `findIndex` and `find`;
  - `trim`, `split` and `padStart`;
  - `String(n)` and `Number(s)` for digit strings.
- `Colors` is the colour policy: the priority-ordered choice of a task's
  header colour, and the 12-entry palette.
- `DateUtils` is the calendar arithmetic:
  - A local timestamp is modelled as a day number plus milliseconds of the
    day. A civil-date view comes from the days-to-civil algorithm.
  - `class JsDate` models a JavaScript `Date`, mutated in place by `setDate`
    and `setHours`.
  - It covers the week range and week key, the Monday-first weekday, the 36
    slot labels, slot indices, slot heights and the label formatters.
- `UseTasks` is the task store:
  - `class TaskStore` holds the insertion-ordered task list.
  - Its methods are `addTask`, `updateTask` and `deleteTask`, and
    `getTask` is a function.
  - The store keeps two derived fields up to date: `titleColor` and
    `weekDate`.
- `TaskModal` is the editor:
  - the fixed duration and category choices;
  - the opening form;
  - `class TaskForm`, which holds the form and its cancel snapshot and
    applies the auto-colour effect;
  - the validation and normalisation done by `handleSave`;
  - the `datetime-local` formatter.
- `App` is the save dispatch: update the edited task, or add a new one.
- `WeeklyPlanner` is the grid:
  - the week filter;
  - the (day, slot) cell of each task;
  - the side-by-side layout of a cell;
  - the cell click that proposes a start time;
  - grid positions and card heights;
  - the done toggle.
- `Sidebar` is the list of unscheduled tasks, its placeholder, and what a
  click opens.
- `WeekNavigation` covers moving the selected date a week back or forward,
  and the week label.

Operations that mutate state in the source are methods with `modifies`
clauses, each proved against a specification function. Pure computations
are functions. The properties are lemmas about those functions.

## Model

| member | source | states |
|---|---|---|
| Js.Merge | src/hooks/useTasks.js:51 | a property present in the update object wins; an absent one keeps the current value |
| Js.OrString | src/hooks/useTasks.js:20 | `s \|\| fallback`: a non-empty string is kept, null or '' gives the fallback |
| Js.OrNull | src/hooks/useTasks.js:25 | `s \|\| null`: a result is present exactly when the string is truthy, and then it is that string |
| Js.OrNumber | src/hooks/useTasks.js:24 | `n \|\| fallback`: a non-zero number is kept; a missing number or 0 gives the fallback |
| Js.Filter | src/components/Sidebar.jsx:6 | `filter` keeps exactly the elements that pass the test, and never adds any |
| Js.FilterConcat | src/components/Sidebar.jsx:5 | filtering distributes over concatenation, so the relative order is kept |
| Js.FilterAllPass | src/components/Sidebar.jsx:6 | a filter that every element passes returns the array unchanged |
| Js.FindIndex | src/components/WeeklyPlanner.jsx:35 | `findIndex` is -1 exactly when no element matches, and otherwise it is the first matching index |
| Js.FindIndexAppend | src/components/WeeklyPlanner.jsx:35 | appending an element never changes an index already found |
| Js.Find | src/hooks/useTasks.js:83 | `find` is undefined exactly when no element matches, and otherwise it is the first match |
| Js.TrimStart | src/components/TaskModal.jsx:113 | it removes exactly the leading white space and leaves a suffix |
| Js.TrimEnd | src/components/TaskModal.jsx:113 | it removes exactly the trailing white space and leaves a prefix |
| Js.TrimEnds | src/components/TaskModal.jsx:113 | `trim()` is a slice of the input that neither starts nor ends with white space |
| Js.TrimEmpty | src/components/TaskModal.jsx:108 | a string trims to '' exactly when it is all white space |
| Js.TrimIdempotent | src/components/TaskModal.jsx:113 | trimming twice is trimming once |
| Js.Split | src/utils/dateUtils.js:66 | `split` returns at least one piece, and no piece contains the separator |
| Js.JoinSplit | src/utils/dateUtils.js:66 | joining the pieces with the separator gives back the string |
| Js.SplitPieces | src/utils/dateUtils.js:66 | two separator-free strings joined by the separator split back into exactly those two |
| Js.SplitNoSeparator | src/utils/dateUtils.js:92 | a string without the separator splits into itself alone |
| Js.SplitPrefix | src/utils/dateUtils.js:66 | a separator-free head comes off as the first piece |
| Js.DigitChar | src/utils/dateUtils.js:45 | the character of a decimal digit is a digit with that value |
| Js.NatToString | src/utils/dateUtils.js:45 | `n.toString()` is a non-empty string of digits |
| Js.IntToString | src/components/TaskModal.jsx:153 | `String(i)` is non-empty |
| Js.PadStart | src/utils/dateUtils.js:45 | `padStart(width, c)` is the string preceded by just enough copies of c to reach the width |
| Js.Pad2 | src/utils/dateUtils.js:45 | `padStart(2, '0')` of a number is at least two digits |
| Js.ToNumber | src/utils/dateUtils.js:66 | `Number(s)` is a number exactly when s is a run of digits, the empty run included, as `Number('')` is 0 |
| Js.DigitsValueOfNatToString | src/utils/dateUtils.js:45 | the digits of `n.toString()` read back as n |
| Js.DigitsValueLeadingZeros | src/utils/dateUtils.js:45 | leading zeros do not change the value of a digit string |
| Js.ZerosValue | src/utils/dateUtils.js:45 | a run of zeros reads as 0 |
| Js.PaddedRoundTrip | src/utils/dateUtils.js:66 | `Number` of a zero-padded `toString()` gives back the number |
| Js.NatToStringLength | src/utils/dateUtils.js:45 | the digit count of a number, by magnitude: one digit below 10, two from 10 to 99, at most four below 10000 |
| Js.Pad2Digits | src/utils/dateUtils.js:45 | a number below 100 pads to its tens digit followed by its units digit |
| Colors.AutoColor | src/utils/colors.js:18-35 | done gives success green; otherwise the known categories give orange, yellow and blue; otherwise a truthy `titleColor` is kept, else blue; never '' |
| Colors.AutoColorIdempotent | src/utils/colors.js:18-35 | storing the computed colour as `titleColor` and asking again gives the same colour |
| Colors.ManualColorIrrelevant | src/utils/colors.js:19-31 | a done task or a known category ignores the stored `titleColor` |
| Colors.ColorOptions | src/utils/colors.js:38-53 | 12 entries with distinct labels, the first success green and the last failure red |
| Colors.PaletteDuplicate | src/utils/colors.js:13 | the Green (Done) and Emerald entries share one value, and every other pair of entries differs |
| Colors.AutoColorIsOffered | src/utils/colors.js:38-53 | every colour the policy picks itself (done, a category, or the blue default) is one the palette offers |
| DateUtils.WeekDay | src/utils/dateUtils.js:4 | `getDay()` is in 0..6 |
| DateUtils.Hours | src/utils/dateUtils.js:63 | `getHours()` is in 0..23 |
| DateUtils.Minutes | src/utils/dateUtils.js:64 | `getMinutes()` is in 0..59 |
| DateUtils.CivilFromDays | src/utils/dateUtils.js:21-25 | every day number has a civil date with month in 1..12 and day in 1..31 |
| DateUtils.CivilRoundTrip | src/utils/dateUtils.js:21-25 | the civil date of a day number gives back that day number, so distinct days have distinct dates |
| DateUtils.Civil | src/utils/dateUtils.js:25 | the civil date of a timestamp has month in 1..12 and day in 1..31 |
| DateUtils.Month | src/utils/dateUtils.js:21 | `getMonth()` is in 0..11 |
| DateUtils.DateOfMonth | src/utils/dateUtils.js:22 | `getDate()` is in 1..31 |
| DateUtils.JsDate.constructor | src/utils/dateUtils.js:3 | `new Date(date)` holds the given time |
| DateUtils.JsDate.GetDay | src/utils/dateUtils.js:4 | the weekday, Sunday 0, is in 0..6 |
| DateUtils.JsDate.GetDate | src/utils/dateUtils.js:5 | the day of the month is in 1..31 |
| DateUtils.JsDate.SetDate | src/utils/dateUtils.js:7 | `setDate(n)` moves to day n of the current month, with overflow into other months, keeping the time of day |
| DateUtils.JsDate.SetHours | src/utils/dateUtils.js:8 | `setHours(h, m, s, ms)` sets the time of day to that total, carrying whole days of overflow or underflow into the date |
| DateUtils.WeekRange | src/utils/dateUtils.js:2-15 | the start is a Monday at 00:00:00.000, `(getDay()+6) % 7` days back; the end is six days later at 23:59:59.999; the time lies between them |
| DateUtils.MondayOf | src/utils/dateUtils.js:3-8 | the Monday the source computes with `setDate(diff)` and `setHours(0,0,0,0)` is the start of the week range |
| DateUtils.GetWeekRange | src/utils/dateUtils.js:2-15 | the two fresh dates it builds are the start and end of the week range |
| DateUtils.WeekRangeOf | src/utils/dateUtils.js:5 | the source's `getDate() - day + (day === 0 ? -6 : 1)` names the same Monday |
| DateUtils.WeekRangeIdempotent | src/utils/dateUtils.js:2-15 | the week range of a week's start is that week's range |
| DateUtils.SameWeek | src/utils/dateUtils.js:2-15 | all seven days of a week have the same week range |
| DateUtils.WeekRangeShift | src/utils/dateUtils.js:2-15 | moving a time by k weeks moves its Monday by 7k days |
| DateUtils.DayOfWeek | src/utils/dateUtils.js:52-56 | the result is in 0..6 and counts days since the week's Monday; Monday is 0 and Sunday is 6 |
| DateUtils.GetTimeSlots | src/utils/dateUtils.js:42-49 | 36 labels, and label i is the padded "HH:MM" of hour 6+i/2 and minute 30·(i%2) |
| DateUtils.SlotsBeforeLabels | src/utils/dateUtils.js:44-47 | after the hours from 6 up to h, the loop has pushed 2(h-6) labels, each the slot label of its position |
| DateUtils.SlotLabelClock | src/utils/dateUtils.js:45-46 | label i is the clock label of hour 6+i/2 and minute 30·(i%2) |
| DateUtils.MinuteOfDay | src/utils/dateUtils.js:70 | the minute of the day is in 0..1439 |
| DateUtils.SlotIndex | src/utils/dateUtils.js:59-72 | 30 times the slot index is the minute of the day less 360 (meaning: DateUtils.SlotIndexMeaning) |
| DateUtils.SlotIndexOfText | src/utils/dateUtils.js:66-71 | a label has a slot index exactly when it splits at ':' into at least two parts whose first two read as numbers (meaning: DateUtils.SlotLabelRoundTrip) |
| DateUtils.SlotIndexMeaning | src/utils/dateUtils.js:59-72 | the slot index of a time is k exactly when the time is minute 360+30k; before 06:00 it is negative; off the half hour it is not an integer |
| DateUtils.SlotLabelRoundTrip | src/utils/dateUtils.js:59-72 | the slot index of label i, read as text, is i |
| DateUtils.ClockLabelSlotIndex | src/utils/dateUtils.js:66-71 | a padded "HH:MM" label reads as (60h+m-360)/30 |
| DateUtils.ClockLabelParts | src/utils/dateUtils.js:66 | a clock label splits at ':' into its padded hour and minute, which read back as numbers |
| DateUtils.FormatTimeSlotIndex | src/utils/dateUtils.js:102-106 | the "HH:MM" of a time, read as text, has the slot index of the time itself |
| DateUtils.FormatTime | src/utils/dateUtils.js:102-106 | '' exactly when there is no time; otherwise five characters with ':' in the middle (meaning: DateUtils.FormatTimeSlotIndex) |
| DateUtils.SlotHeightMeaning | src/utils/dateUtils.js:75-77 | the height of a duration is the integer k exactly when the duration is 30k minutes |
| DateUtils.SlotHeight | src/utils/dateUtils.js:75-77 | 30 times the height is the duration (meaning: DateUtils.SlotHeightMeaning) |
| DateUtils.FormatWeekRange | src/utils/dateUtils.js:18-32 | within one month the label is "Mon d1-d2, yyyy"; across months it is "Mon d1 - Mon2 d2, yyyy"; the year is the end's; it starts with the start's month and day, ends with the end's day and year, and has a '-' right after the start day exactly when both ends share a month |
| DateUtils.RangeText | src/utils/dateUtils.js:27-31 | the label from its formatted parts: the bare '-' form when the month names agree, else the " - " form with the end's month name, with head and tail pinned down |
| DateUtils.MonthNamesDistinct | src/utils/dateUtils.js:19 | two month names are equal exactly when the months are |
| DateUtils.FormatDayDate | src/utils/dateUtils.js:35-39 | the header splits at '-' into the day of the month and the lower-case month name, and the day reads back |
| DateUtils.IsoYearRoundTrip | src/utils/dateUtils.js:92 | the year written as an ISO date does, including signed six-digit years, reads back |
| DateUtils.FourDigitYearRoundTrip | src/utils/dateUtils.js:92 | a year in 0..9999, written as four digits, reads back |
| DateUtils.SignedYearRoundTrip | src/utils/dateUtils.js:92 | a year outside 0..9999, written signed as toISOString does, reads back |
| DateUtils.IsoDateRoundTrip | src/utils/dateUtils.js:91-93 | the "YYYY-MM-DD" of a valid civil date parses back to that date; the reader accepts only strings with both '-' separators in place |
| DateUtils.GetISODateString | src/utils/dateUtils.js:90-93 | a "YYYY-MM-DD" string: '-' before the month and before the day, ten characters exactly for years 0..9999, and it parses back to the time's civil date (meaning: DateUtils.IsoDateInjective) |
| DateUtils.WeekStartISO | src/utils/dateUtils.js:96-99 | the key has the "YYYY-MM-DD" layout and parses back to the civil date of the week's Monday (meaning: DateUtils.WeekKeyMeaning) |
| DateUtils.WeekKeyMeaning | src/utils/dateUtils.js:96-99 | two times have the same week key exactly when they have the same week range |
| DateUtils.IsoDateInjective | src/utils/dateUtils.js:91-93 | equal ISO date strings mean the same day |
| UseTasks.Created | src/hooks/useTasks.js:17-39 | the new task has the given id. Absent text becomes '', a missing or zero duration becomes 60, and a falsy category becomes null. A truthy colour is kept, otherwise the policy's colour. A truthy week key is kept, otherwise it is the key of the start time |
| UseTasks.CreatedConsistent | src/hooks/useTasks.js:37-39 | without a caller-supplied week key, a new task's key agrees with its start time |
| UseTasks.CreatedColorSettled | src/hooks/useTasks.js:32-34 | without a supplied colour, a new task carries the policy's colour |
| UseTasks.Merged | src/hooks/useTasks.js:51 | `{ ...task, ...updates }`: the id is kept; for each of title, notes, details, start, duration, category, colour, done flag and week key, a present property replaces the old one and an absent one keeps it |
| UseTasks.Updated | src/hooks/useTasks.js:50-65 | the merged task; the colour is always recomputed by the policy; a start time in the update sets the week key from it (null when null), otherwise the merged key stays |
| UseTasks.UpdatedColorSettled | src/hooks/useTasks.js:54 | after an update the stored colour is the policy's colour |
| UseTasks.UpdatedConsistent | src/hooks/useTasks.js:57-63 | an update that sets the start time, or one without a week key on a consistent task, leaves the key agreeing with the start time |
| UseTasks.UpdatedAll | src/hooks/useTasks.js:49-68 | the length is kept; tasks with another id are unchanged in place; tasks with the id are updated |
| UseTasks.UpdateUnknownId | src/hooks/useTasks.js:49-68 | an unknown id leaves the collection equal |
| UseTasks.UpdateKeepsIds | src/hooks/useTasks.js:49-68 | every id stays at its position |
| UseTasks.UpdatedUnique | src/hooks/useTasks.js:49-68 | an update keeps ids unique |
| UseTasks.RemovedMembers | src/hooks/useTasks.js:76 | after a delete, the remaining tasks are exactly the old tasks with another id |
| UseTasks.Removed | src/hooks/useTasks.js:76 | the list never grows and no task with the id is left (meaning: UseTasks.RemovedMembers) |
| UseTasks.RemovedConcat | src/hooks/useTasks.js:76 | deleting distributes over concatenation, so order is kept |
| UseTasks.RemoveUnknownId | src/hooks/useTasks.js:76 | deleting an unknown id changes nothing |
| UseTasks.RemoveAt | src/hooks/useTasks.js:76 | with unique ids, deleting the task at position k cuts exactly that position out |
| UseTasks.RemovedUnique | src/hooks/useTasks.js:76 | deleting keeps ids unique |
| UseTasks.LookupMeaning | src/hooks/useTasks.js:82-84 | with unique ids, the lookup finds nothing exactly when no task has the id, and otherwise it finds the task with that id |
| UseTasks.Lookup | src/hooks/useTasks.js:83 | nothing exactly when no task has the id; otherwise a task of the list with that id (meaning: UseTasks.LookupMeaning) |
| UseTasks.AddKeepsConsistent | src/hooks/useTasks.js:37-41 | adding without a supplied week key keeps every key in agreement with its start time |
| UseTasks.UpdateKeepsConsistent | src/hooks/useTasks.js:57-63 | an update without a week key keeps every key in agreement with its start time |
| UseTasks.RemoveKeepsConsistent | src/hooks/useTasks.js:76 | deleting keeps every key in agreement with its start time |
| UseTasks.LookupAfterAdd | src/hooks/useTasks.js:41 | after an add, the new id finds the new task, and other ids find what they found before |
| UseTasks.LookupAfterDelete | src/hooks/useTasks.js:76 | after a delete, the id finds nothing |
| UseTasks.LookupAfterUpdate | src/hooks/useTasks.js:49-68 | after an update, the id finds the updated version of the task it found before |
| UseTasks.AppendFresh | src/hooks/useTasks.js:41 | appending a task with a fresh id keeps ids unique |
| UseTasks.TaskStore.constructor | src/hooks/useTasks.js:11-14 | the store holds the loaded tasks, which have unique ids |
| UseTasks.TaskStore.AddTask | src/hooks/useTasks.js:17-45 | it appends exactly the created task, keeps unique ids, saves the new list and returns the fresh id |
| UseTasks.TaskStore.UpdateTask | src/hooks/useTasks.js:48-72 | the list becomes the updated list and is saved; ids stay unique |
| UseTasks.TaskStore.DeleteTask | src/hooks/useTasks.js:75-79 | the list becomes the list without the id and is saved; ids stay unique |
| UseTasks.TaskStore.GetTask | src/hooks/useTasks.js:82-84 | nothing exactly when no task has the id; otherwise a stored task with that id |
| TaskModal.DurationOptionsSpans | src/components/TaskModal.jsx:5-12 | six choices, each a positive multiple of 30 whose slot height is the whole number value/30, between 1 and 8 |
| TaskModal.CategoryOptionsKnown | src/components/TaskModal.jsx:14-19 | every offered category other than "None" is one the colour policy knows |
| TaskModal.InitialForm | src/components/TaskModal.jsx:26-35 | a new form is blank, with duration 30, not done, at the clicked time. An existing task's form copies its fields, with '' for a missing category or colour and 30 for a zero duration. A clicked time wins over the task's own start |
| TaskModal.AutoColored | src/components/TaskModal.jsx:71-78 | only the colour changes. Done gives green, a known category gives its colour, otherwise a chosen colour is kept. The result is never '' |
| TaskModal.Applied | src/components/TaskModal.jsx:103-105 | the changed field takes the new value and every other field keeps its old one |
| TaskModal.AfterChange | src/components/TaskModal.jsx:71-78 | the form after a change differs from the change applied only in its colour, and the colour moves only when the done flag or the category took a new value (meaning: TaskModal.ChangeRecolors) |
| TaskModal.ChangeRecolors | src/components/TaskModal.jsx:71-78 | ticking done turns the form green; picking a new known category on an open task takes that category's colour |
| TaskModal.ChangeKeepsColor | src/components/TaskModal.jsx:103-105 | any other change sets just its field, and the colour is the one picked or the one there was |
| TaskModal.AutoColoredIdempotent | src/components/TaskModal.jsx:71-78 | a second run of the effect changes nothing |
| TaskModal.TaskForm.constructor | src/components/TaskModal.jsx:26-37 | the snapshot is the opening form; the form is the opening form after the first run of the colour effect |
| TaskModal.TaskForm.HandleChange | src/components/TaskModal.jsx:103-105 | the form becomes the change applied, recoloured when the done flag or the category changed; the snapshot stays |
| TaskModal.TaskForm.HandleCancel | src/components/TaskModal.jsx:126-129 | the form is restored to the snapshot |
| TaskModal.TaskForm.HandleSave | src/components/TaskModal.jsx:107-124 | it returns the record the validation gives for the current form |
| TaskModal.CancelRestores | src/components/TaskModal.jsx:126-129 | after any sequence of changes, cancelling gives back exactly the opening form |
| TaskModal.SaveOf | src/components/TaskModal.jsx:107-124 | nothing is saved exactly when the title is blank. Otherwise the title is trimmed and non-empty, and notes and details are trimmed. A '' category becomes null. Start, duration, colour and done flag pass through |
| TaskModal.SaveIdempotent | src/components/TaskModal.jsx:112-121 | saving a saved record's fields again gives the same record |
| TaskModal.FormatDateTimeLocal | src/components/TaskModal.jsx:145-154 | '' exactly when there is no start time |
| TaskModal.DateTimeLocalShape | src/components/TaskModal.jsx:145-154 | for a four-digit year, the field is the ISO date, 'T' and the "HH:MM" of the start |
| TaskModal.DateTimeLocalReadBack | src/components/TaskModal.jsx:145-154 | the field splits at 'T' into two parts; the first parses to the start's civil date, the second to its slot index |
| App.AsInput | src/App.jsx:62 | the record passed to `addTask` has no week key, so the created task under any id has the record's text, start and done flag, the week key of its start, and the record's colour when it has one |
| App.AsPatch | src/App.jsx:60 | merging the record into any task keeps the id and the week key and takes every other field from the record |
| App.OnSave | src/App.jsx:58-65 | with an editor id, the store applies the record as an update to that id; otherwise it appends the task created from the record under a fresh id; it saves and keeps ids unique |
| App.SaveKeepsConsistent | src/App.jsx:58-65 | saving from the editor keeps every week key in agreement with its start time |
| App.SaveUpdatesTask | src/App.jsx:60 | an edit replaces the task's fields with the record's, settles its colour and key, and leaves the others alone |
| App.SaveAddsTask | src/App.jsx:62 | a new task comes after the unchanged old ones, with the record's fields, a consistent key, and the record's colour when it has one |
| App.AddedFromEditorSettled | src/App.jsx:62 | a task added from a form whose colour was last set by the editor's colour effect (no colour picked by hand since) carries the policy's colour |
| App.HandPickedColorKept | src/components/TaskModal.jsx:103-105 | a colour picked by hand is stored as picked, since the pick runs no colour effect and `addTask` keeps a non-empty colour; on a done task or one with a known category it then differs from the policy's colour and is not settled |
| WeeklyPlanner.WeekTasks | src/components/WeeklyPlanner.jsx:13-18 | exactly the scheduled tasks filed under the selected week's key (meaning: WeeklyPlanner.WeekTasksMeaning) |
| WeeklyPlanner.WeekTasksMeaning | src/components/WeeklyPlanner.jsx:13-18 | with consistent keys, the grid shows exactly the tasks whose start lies in the selected Monday-to-Sunday week |
| WeeklyPlanner.WeekTasksOrder | src/components/WeeklyPlanner.jsx:13-18 | the week's tasks keep store order |
| WeeklyPlanner.TasksStartingInSlot | src/components/WeeklyPlanner.jsx:21-31 | exactly the week's tasks that start on weekday d with slot index s (meaning: WeeklyPlanner.CellMeaning) |
| WeeklyPlanner.CellOf | src/components/WeeklyPlanner.jsx:21-31 | a task's cell, when it has one, is inside the 7×36 grid and is a (d, s) the task starts in (meaning: WeeklyPlanner.CellMeaning) |
| WeeklyPlanner.CellMeaning | src/components/WeeklyPlanner.jsx:21-31 | a week task is in cell (d, s) exactly when its start is on weekday d at minute 360+30s |
| WeeklyPlanner.AtMostOneCell | src/components/WeeklyPlanner.jsx:21-31 | a task is in at most one cell |
| WeeklyPlanner.CellOrder | src/components/WeeklyPlanner.jsx:22 | a cell's tasks keep the order of the week's tasks |
| WeeklyPlanner.TaskPosition | src/components/WeeklyPlanner.jsx:34-46 | the width is 100/n, positive, and the left edge is the task's index times the width |
| WeeklyPlanner.IndexIn | src/components/WeeklyPlanner.jsx:35 | -1 exactly when no task of the cell has the id; otherwise the first index with that id (meaning: WeeklyPlanner.IndexInUnique) |
| WeeklyPlanner.IndexInUnique | src/components/WeeklyPlanner.jsx:35 | with unique ids, the task at position i has index i |
| WeeklyPlanner.LayoutInOrder | src/components/WeeklyPlanner.jsx:34-46 | the i-th task of a cell gets the i-th of n equal columns |
| WeeklyPlanner.LayoutPartition | src/components/WeeklyPlanner.jsx:39-40 | the first column starts at 0, each ends where the next starts, and the last ends at 100 |
| WeeklyPlanner.HandleCellClick | src/components/WeeklyPlanner.jsx:48-64 | the proposed time is the week's Monday plus the day index, at the slot's clock time |
| WeeklyPlanner.SlotClock | src/components/WeeklyPlanner.jsx:49-50 | the slot label read back gives hour 6+s/2 and minute 30·(s%2) |
| WeeklyPlanner.CellTime | src/components/WeeklyPlanner.jsx:48-64 | the proposed time is dayIndex days after the week's Monday, at minute 360+30s, and for a weekday index in the same week (meaning: WeeklyPlanner.CellTimeRoundTrip) |
| WeeklyPlanner.CellTimeRoundTrip | src/components/WeeklyPlanner.jsx:48-64 | the proposed time has the clicked weekday and slot, the selected week, and the selected week's key |
| WeeklyPlanner.ClickedTaskShows | src/components/WeeklyPlanner.jsx:48-64 | a task filed at the proposed time shows in the clicked cell |
| WeeklyPlanner.CardHeightPx | src/components/WeeklyPlanner.jsx:145 | the height is 4/3 pixel per minute of duration, 40 per half hour (meaning: WeeklyPlanner.CardHeightMeaning) |
| WeeklyPlanner.CardHeightMeaning | src/components/WeeklyPlanner.jsx:145 | a card is 40k pixels tall exactly when the duration is 30k minutes |
| WeeklyPlanner.CellPlacement | src/components/WeeklyPlanner.jsx:124-127 | a task whose cell is (d, s) is drawn in grid row slot index of its start + 2 and column weekday of its start + 2, inside rows 2..37 and columns 2..8 |
| WeeklyPlanner.HourLabelsShown | src/components/WeeklyPlanner.jsx:111 | every even row shows its hour label "HH:00" |
| WeeklyPlanner.HandleToggleDone | src/components/WeeklyPlanner.jsx:66-68 | the store applies the update `{ isDone }` to that id |
| WeeklyPlanner.ToggleDoneEffect | src/components/WeeklyPlanner.jsx:66-68 | only the done flag and the recomputed colour of the tasks with that id change |
| WeeklyPlanner.ToggleDoneGreen | src/components/WeeklyPlanner.jsx:67 | marking a task done turns it green |
| Sidebar.Unscheduled | src/components/Sidebar.jsx:6 | exactly the tasks without a start time, never more than the store holds (meaning: Sidebar.UnscheduledOrder) |
| Sidebar.UnscheduledOrder | src/components/Sidebar.jsx:4-6 | the list keeps creation order |
| Sidebar.AddedUnscheduled | src/components/Sidebar.jsx:6 | an added task without a start goes to the end of the list; one with a start leaves the list alone |
| Sidebar.SidebarView | src/components/Sidebar.jsx:14-33 | the placeholder exactly when every task is scheduled; otherwise one entry per unscheduled task, in order, with its id, title and policy colour |
| Sidebar.EntryColorSettled | src/components/Sidebar.jsx:18 | a header shows the stored colour when that colour is settled |
| Sidebar.ClickOpensTask | src/components/Sidebar.jsx:23 | an entry click opens the editor on that task, still unscheduled; the add button opens a blank form of 30 minutes |
| WeekNavigation.WeekLabel | src/components/WeekNavigation.jsx:5-6 | the label of a date is the range label of its week's Monday and Sunday, so it starts with the Monday's month and day and ends with the Sunday's day and year |
| WeekNavigation.WeekLabelOfWeek | src/components/WeekNavigation.jsx:5-6 | every day of a week shows the same label, starting with the Monday's month and day and ending with the Sunday's day and year |
| WeekNavigation.HandlePreviousWeek | src/components/WeekNavigation.jsx:8-12 | the new date is seven days earlier at the same time of day |
| WeekNavigation.HandleNextWeek | src/components/WeekNavigation.jsx:14-18 | the new date is seven days later at the same time of day |
| WeekNavigation.NextThenPrevious | src/components/WeekNavigation.jsx:8-18 | next then previous, and previous then next, give back the selected date |
| WeekNavigation.ShiftWeeks | src/components/WeekNavigation.jsx:8-18 | a move by k weeks moves the Monday by 7k days and keeps the weekday and the slot |
| WeekNavigation.ShiftChangesKey | src/components/WeekNavigation.jsx:8-18 | a move by a non-zero number of weeks changes the week key |

## Left out

- Storage is not modelled: `localStorage`, JSON and the export download are browser I/O. Saving is the ghost field `saved`, which equals the list after each store method.
- `UseTasks.TaskStore.constructor` requires the loaded tasks to have distinct ids. `loadTasks` accepts whatever storage holds; the ids are distinct only because the sole writer is `addTask`, which files every task under a fresh uuid.
- `uuidv4` is a parameter of `AddTask` and `OnSave`, with the precondition that the id is not already in the store.
- React is not modelled: state hooks, render cycles, the listeners for outside clicks and Escape (which call `handleSave` too), and JSX and CSS strings. Positions are kept as `real` percentages and card heights as `real` pixels, without the '%' and 'px' suffixes.
- Floating point is modelled as exact `real` arithmetic. `100/n` and `(60h+m-360)/30` are exact here.
- Timezones and daylight saving are not modelled: a timestamp is a local wall-clock day and a time of day.
- `DateUtils.GetISODateString`: the source formats the key with `toISOString()`, which is UTC. East of UTC, a local Monday midnight then renders as the previous day. The model takes the local civil date. Filing and filtering use the same function, so the week filter behaves the same either way.
- Time strings are not modelled. `new Date(string)` parsing, the ISO strings stored in `startTime`, and `handleDateTimeChange` are left out; a start time is a timestamp, and '' or null is `None`.
- `TaskModal.FormatDateTimeLocal`: its shape and read-back lemmas cover four-digit years only. Other years print differently in `String(year)` and in `toISOString`.
- `Js.ToNumber`: the model reads digit strings only, with '' read as 0 as in JavaScript. JavaScript's `Number` also accepts signs, decimals and white space; only zero-padded labels reach it here.
- '' and null stay distinct in a stored task's category and colour (`Some("")` and `None`). `Js.TruthyString`, `Js.OrString` and `Js.OrNull` treat them alike, as the source's `||` does; the model does not track `undefined` apart from null.
- Update objects carry only the task's own fields. An `id` or an explicit `undefined` in an update is not modelled.
- `isToday` and `todayDayIndex` read the clock; only the highlight depends on them.
- `TaskCard` is presentation. Its toggle is `WeeklyPlanner.HandleToggleDone`.
- `App`'s modal open/close wiring and the delete flow (`handleDelete`, `onDelete`) are left out. Deleting is `UseTasks.TaskStore.DeleteTask`.
- The day-header text `Mon (2-feb)` is not modelled beyond `DateUtils.FormatDayDate`.
- `TaskModal.CancelRestores`: after cancelling the modal closes, so an effect that would run on the restored form is not modelled.
