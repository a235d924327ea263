/** The week grid: which tasks the selected week shows, the (day, slot)
    cell each of them starts in, the side-by-side layout of the tasks that
    share a cell, the start time a click on an empty cell proposes, the
    card and cell geometry, and the done toggle on a card. */
module WeeklyPlanner {
  import opened Js
  import Colors
  import DateUtils
  import UseTasks

  // ---------------------------------------------------------------------
  // The week's tasks

  /** `weekTasks`: the scheduled tasks filed under the selected week's key,
      in store order. */
  function WeekTasks(tasks: seq<UseTasks.Task>, selectedWeek: DateUtils.Timestamp): (r: seq<UseTasks.Task>)
    ensures forall t :: t in r <==>
              t in tasks && t.startTime.Some? && t.weekDate == Some(DateUtils.WeekStartISO(selectedWeek))
  {
    var key := DateUtils.WeekStartISO(selectedWeek);
    Filter(tasks, (t: UseTasks.Task) => t.startTime.Some? && t.weekDate == Some(key))
  }

  /** When every week key agrees with its start time, the grid shows exactly
      the tasks whose start time falls in the selected Monday-to-Sunday week. */
  lemma WeekTasksMeaning(tasks: seq<UseTasks.Task>, selectedWeek: DateUtils.Timestamp)
    requires UseTasks.AllConsistent(tasks)
    ensures forall t :: t in WeekTasks(tasks, selectedWeek) <==>
              t in tasks && t.startTime.Some?
              && DateUtils.WeekRange(t.startTime.value) == DateUtils.WeekRange(selectedWeek)
  {
    forall t | t in tasks && t.startTime.Some?
      ensures t in WeekTasks(tasks, selectedWeek) <==>
              DateUtils.WeekRange(t.startTime.value) == DateUtils.WeekRange(selectedWeek)
    {
      assert UseTasks.Consistent(t);
      DateUtils.WeekKeyMeaning(t.startTime.value, selectedWeek);
    }
  }

  /** The week's tasks keep the store's order. */
  lemma WeekTasksOrder(a: seq<UseTasks.Task>, b: seq<UseTasks.Task>, selectedWeek: DateUtils.Timestamp)
    ensures WeekTasks(a + b, selectedWeek) == WeekTasks(a, selectedWeek) + WeekTasks(b, selectedWeek)
  {
    var key := DateUtils.WeekStartISO(selectedWeek);
    FilterConcat(a, b, (t: UseTasks.Task) => t.startTime.Some? && t.weekDate == Some(key));
  }

  // ---------------------------------------------------------------------
  // Cells

  const DayCount := 7

  /** The test of `getTasksStartingInSlot`: the task starts on weekday
      `dayIndex` (Monday = 0) and its slot index is exactly `slotIndex`. */
  predicate StartsIn(t: UseTasks.Task, dayIndex: int, slotIndex: int) {
    t.startTime.Some? && DateUtils.DayOfWeek(t.startTime.value) == dayIndex
    && DateUtils.SlotIndex(t.startTime.value) == slotIndex as real
  }

  /** `getTasksStartingInSlot(dayIndex, slotIndex)`. */
  function TasksStartingInSlot(weekTasks: seq<UseTasks.Task>, dayIndex: int, slotIndex: int): (r: seq<UseTasks.Task>)
    ensures |r| <= |weekTasks|
    ensures forall t :: t in r <==> t in weekTasks && StartsIn(t, dayIndex, slotIndex)
  {
    Filter(weekTasks, (t: UseTasks.Task) => StartsIn(t, dayIndex, slotIndex))
  }

  /** The one grid cell a task belongs to, if any: the day of its start and
      the half-hour it starts on, when that is one of the grid's 36 slots. */
  function CellOf(t: UseTasks.Task): (r: Option<(int, int)>)
    ensures r.Some? ==> 0 <= r.value.0 < DayCount && 0 <= r.value.1 < DateUtils.SlotCount
    ensures r.Some? ==> StartsIn(t, r.value.0, r.value.1)
  {
    if t.startTime.None? then None
    else
      var start := t.startTime.value;
      var minute := DateUtils.MinuteOfDay(start);
      if minute % 30 == 0 && 360 <= minute < 360 + 30 * DateUtils.SlotCount
      then
        DateUtils.SlotIndexMeaning(start, (minute - 360) / 30);
        Some((DateUtils.DayOfWeek(start), (minute - 360) / 30))
      else None
  }

  /** A task appears in cell (d, s) of the 7×36 grid exactly when that is
      its cell: so in at most one cell, and in none when its start is off
      the half-hour grid or outside 06:00–23:30. */
  lemma CellMeaning(weekTasks: seq<UseTasks.Task>, t: UseTasks.Task, dayIndex: int, slotIndex: int)
    requires 0 <= dayIndex < DayCount && 0 <= slotIndex < DateUtils.SlotCount
    ensures t in TasksStartingInSlot(weekTasks, dayIndex, slotIndex) <==>
            t in weekTasks && CellOf(t) == Some((dayIndex, slotIndex))
  {
    if t.startTime.Some? {
      DateUtils.SlotIndexMeaning(t.startTime.value, slotIndex);
    }
  }

  /** A task appears in at most one cell. */
  lemma AtMostOneCell(weekTasks: seq<UseTasks.Task>, t: UseTasks.Task, d1: int, s1: int, d2: int, s2: int)
    requires t in TasksStartingInSlot(weekTasks, d1, s1) && t in TasksStartingInSlot(weekTasks, d2, s2)
    ensures d1 == d2 && s1 == s2
  {
    assert StartsIn(t, d1, s1) && StartsIn(t, d2, s2);
  }

  /** The tasks of a cell keep the order of the week's tasks. */
  lemma CellOrder(a: seq<UseTasks.Task>, b: seq<UseTasks.Task>, dayIndex: int, slotIndex: int)
    ensures TasksStartingInSlot(a + b, dayIndex, slotIndex)
            == TasksStartingInSlot(a, dayIndex, slotIndex) + TasksStartingInSlot(b, dayIndex, slotIndex)
  {
    FilterConcat(a, b, (t: UseTasks.Task) => StartsIn(t, dayIndex, slotIndex));
  }

  // ---------------------------------------------------------------------
  // Side-by-side layout

  /** Horizontal placement inside a cell, as percentages of its width. */
  datatype Position = Position(width: real, left: real)

  /** Where `task` sits among its cell's first match by id. */
  function IndexIn(task: UseTasks.Task, cell: seq<UseTasks.Task>): (i: int)
    ensures -1 <= i < |cell|
    ensures i == -1 <==> forall k :: 0 <= k < |cell| ==> cell[k].id != task.id
    ensures 0 <= i ==> cell[i].id == task.id && forall k :: 0 <= k < i ==> cell[k].id != task.id
  {
    FindIndex(cell, (t: UseTasks.Task) => t.id == task.id)
  }

  /** `getTaskPosition(task, allTasksInSlot)`: equal widths, side by side in
      cell order. */
  function TaskPosition(task: UseTasks.Task, cell: seq<UseTasks.Task>): (p: Position)
    requires |cell| > 0
    ensures p.width * (|cell| as real) == 100.0 && p.width > 0.0
    ensures p.left == (IndexIn(task, cell) as real) * p.width
  {
    PositionAt(IndexIn(task, cell), |cell|)
  }

  /** The position of the card at `index` among `n`. */
  function PositionAt(index: int, n: int): Position
    requires n > 0
  {
    var width := 100.0 / (n as real);
    Position(width, (index as real) * width)
  }

  /** With distinct ids, the i-th task of a cell is placed i-th. */
  lemma IndexInUnique(cell: seq<UseTasks.Task>, i: int)
    requires UseTasks.UniqueIds(cell) && 0 <= i < |cell|
    ensures IndexIn(cell[i], cell) == i
  {
    var j := IndexIn(cell[i], cell);
    assert (cell[i].id == cell[i].id);
    assert 0 <= j <= i;
    assert cell[j].id == cell[i].id;
  }

  /** With distinct ids, the card of the i-th task of a cell is the i-th of
      the cell's n equal columns. */
  lemma LayoutInOrder(cell: seq<UseTasks.Task>)
    requires UseTasks.UniqueIds(cell) && |cell| > 0
    ensures forall i :: 0 <= i < |cell| ==> TaskPosition(cell[i], cell) == PositionAt(i, |cell|)
  {
    forall i | 0 <= i < |cell|
      ensures TaskPosition(cell[i], cell) == PositionAt(i, |cell|)
    {
      IndexInUnique(cell, i);
    }
  }

  /** The n columns partition the cell: the first starts at 0, each ends
      where the next begins, and the last ends at 100. */
  lemma LayoutPartition(n: int)
    requires n > 0
    ensures PositionAt(0, n).left == 0.0
    ensures forall i :: 0 <= i < n - 1 ==> PositionAt(i, n).left + PositionAt(i, n).width == PositionAt(i + 1, n).left
    ensures PositionAt(n - 1, n).left + PositionAt(n - 1, n).width == 100.0
  {
    var width := 100.0 / (n as real);
    forall i | 0 <= i < n - 1
      ensures PositionAt(i, n).left + PositionAt(i, n).width == PositionAt(i + 1, n).left
    {
      NextLeft(i, width);
    }
    NextLeft(n - 1, width);
    assert (n as real) * width == 100.0;
  }

  lemma NextLeft(i: int, width: real)
    ensures (i as real) * width + width == ((i + 1) as real) * width
  {
  }

  // ---------------------------------------------------------------------
  // A click on a cell

  /** The start time a click on cell (dayIndex, slotIndex) proposes: that
      weekday of the selected week, at the slot's half-hour. */
  function CellTime(selectedWeek: DateUtils.Timestamp, dayIndex: int, slotIndex: int): (r: DateUtils.Timestamp)
    requires 0 <= slotIndex < DateUtils.SlotCount
    ensures r.epochDay - DateUtils.WeekRange(selectedWeek).start.epochDay == dayIndex
    ensures DateUtils.MinuteOfDay(r) == 360 + 30 * slotIndex
    ensures 0 <= dayIndex < DayCount ==> DateUtils.WeekRange(r) == DateUtils.WeekRange(selectedWeek)
  {
    var r := DateUtils.Timestamp(DateUtils.WeekRange(selectedWeek).start.epochDay + dayIndex, (360 + 30 * slotIndex) * 60000);
    MinuteOfDayOf(r, 360 + 30 * slotIndex);
    if 0 <= dayIndex < DayCount then DateUtils.SameWeek(selectedWeek, r); r else r
  }

  /** `handleCellClick(dayIndex, slotIndex)`: reads the hour and minute
      back from the slot's label, finds the Monday of the selected week on a
      copy of it, moves a copy of that Monday to the clicked day and sets the
      slot's time. */
  method HandleCellClick(selectedWeek: DateUtils.Timestamp, dayIndex: int, slotIndex: int)
    returns (slotDate: DateUtils.Timestamp)
    requires 0 <= slotIndex < DateUtils.SlotCount
    ensures slotDate == CellTime(selectedWeek, dayIndex, slotIndex)
  {
    var hours, minutes := SlotClock(slotIndex);
    SlotMillis(slotIndex, hours, minutes);

    var monday := DateUtils.MondayOf(selectedWeek);
    var mondayDay := monday.epochDay;
    assert mondayDay == DateUtils.WeekRange(selectedWeek).start.epochDay;

    var cell := new DateUtils.JsDate(monday.Time());
    var mondayDate := monday.GetDate();
    cell.SetDate(mondayDate + dayIndex);
    assert cell.epochDay == mondayDay + dayIndex;
    cell.SetHours(hours, minutes, 0, 0);
    assert cell.Time() == DateUtils.Timestamp(mondayDay + dayIndex, (360 + 30 * slotIndex) * 60000);
    slotDate := cell.Time();
  }

  /** `timeSlots[slotIndex].split(':').map(Number)`: the hour and the minute
      read back from the slot's label. */
  method SlotClock(slotIndex: int) returns (hours: int, minutes: int)
    requires 0 <= slotIndex < DateUtils.SlotCount
    ensures hours == 6 + slotIndex / 2 && minutes == 30 * (slotIndex % 2)
  {
    var timeSlots := DateUtils.GetTimeSlots();
    var slotTime := timeSlots[slotIndex];
    assert slotTime == DateUtils.SlotLabel(slotIndex);
    SlotLabelNumbers(slotIndex);
    var parts := Split(slotTime, ':');
    hours, minutes := ToNumber(parts[0]).value, ToNumber(parts[1]).value;
  }

  /** A slot's label splits at ':' into its hour and its minute. */
  lemma SlotLabelNumbers(slotIndex: int)
    requires 0 <= slotIndex
    ensures var parts := Split(DateUtils.SlotLabel(slotIndex), ':');
            |parts| == 2 && ToNumber(parts[0]) == Some(6 + slotIndex / 2)
            && ToNumber(parts[1]) == Some(30 * (slotIndex % 2))
  {
    var h, m := 6 + slotIndex / 2, 30 * (slotIndex % 2);
    DateUtils.SlotLabelClock(slotIndex);
    DateUtils.ClockLabelParts(h, m);
  }

  /** The time of day `setHours(hours, minutes, 0, 0)` sets for a slot. */
  lemma SlotMillis(slotIndex: int, hours: int, minutes: int)
    requires 0 <= slotIndex < DateUtils.SlotCount
    requires hours == 6 + slotIndex / 2 && minutes == 30 * (slotIndex % 2)
    ensures var total := hours * 3600000 + minutes * 60000 + 0 * 1000 + 0;
            total == (360 + 30 * slotIndex) * 60000 && total / 86400000 == 0 && total % 86400000 == total
  {
  }

  /** A timestamp whose time of day is a whole number of minutes. */
  lemma MinuteOfDayOf(t: DateUtils.Timestamp, minute: int)
    requires 0 <= minute < 1440 && t.ms == minute * 60000
    ensures DateUtils.MinuteOfDay(t) == minute
  {
    var q, r := minute / 60, minute % 60;
    assert t.ms == q * 3600000 + r * 60000;
    assert t.ms / 3600000 == q;
    assert t.ms / 60000 == minute;
  }

  /** The proposed time lies on the clicked weekday, in the clicked slot and
      in the selected week, so a task started then shows in that very cell. */
  lemma CellTimeRoundTrip(selectedWeek: DateUtils.Timestamp, dayIndex: int, slotIndex: int)
    requires 0 <= dayIndex < DayCount && 0 <= slotIndex < DateUtils.SlotCount
    ensures var t := CellTime(selectedWeek, dayIndex, slotIndex);
            DateUtils.DayOfWeek(t) == dayIndex && DateUtils.SlotIndex(t) == slotIndex as real
            && DateUtils.WeekRange(t) == DateUtils.WeekRange(selectedWeek)
            && DateUtils.WeekStartISO(t) == DateUtils.WeekStartISO(selectedWeek)
  {
    var t := CellTime(selectedWeek, dayIndex, slotIndex);
    DateUtils.SameWeek(selectedWeek, t);
    MinuteOfDayOf(t, 360 + 30 * slotIndex);
    DateUtils.SlotIndexMeaning(t, slotIndex);
  }

  /** A task the store files with the proposed start time appears in the
      cell that was clicked, when the grid shows the selected week. */
  lemma ClickedTaskShows(tasks: seq<UseTasks.Task>, selectedWeek: DateUtils.Timestamp, t: UseTasks.Task,
                         dayIndex: int, slotIndex: int)
    requires 0 <= dayIndex < DayCount && 0 <= slotIndex < DateUtils.SlotCount
    requires t in tasks && UseTasks.Consistent(t)
    requires t.startTime == Some(CellTime(selectedWeek, dayIndex, slotIndex))
    ensures t in TasksStartingInSlot(WeekTasks(tasks, selectedWeek), dayIndex, slotIndex)
  {
    CellTimeRoundTrip(selectedWeek, dayIndex, slotIndex);
    assert t in WeekTasks(tasks, selectedWeek);
  }

  // ---------------------------------------------------------------------
  // Geometry

  /** A card's height in pixels: 40 per slot it spans. */
  function CardHeightPx(duration: int): (r: real)
    ensures r * 3.0 == (4 * duration) as real
  {
    DateUtils.SlotHeight(duration) * 40.0
  }

  /** A card is a whole number k of 40-pixel rows tall exactly when its
      duration is k half-hours. */
  lemma CardHeightMeaning(duration: int, k: int)
    ensures CardHeightPx(duration) == (40 * k) as real <==> duration == 30 * k
  {
    DateUtils.SlotHeightMeaning(duration, k);
  }

  /** Grid rows and columns: row 1 holds the day headers, column 1 the time
      labels; slot s is row s + 2 and weekday d is column d + 2. */
  function CellRow(slotIndex: int): int { slotIndex + 2 }

  function CellColumn(dayIndex: int): int { dayIndex + 2 }

  /** A task's card is drawn in the grid row two below its slot index and
      the grid column two right of its weekday, so inside rows 2..37 and
      columns 2..8, clear of the header row and the label column. */
  lemma CellPlacement(t: UseTasks.Task, dayIndex: int, slotIndex: int)
    requires CellOf(t) == Some((dayIndex, slotIndex))
    ensures t.startTime.Some?
    ensures CellRow(slotIndex) as real == DateUtils.SlotIndex(t.startTime.value) + 2.0
    ensures CellColumn(dayIndex) == DateUtils.DayOfWeek(t.startTime.value) + 2
    ensures 2 <= CellRow(slotIndex) <= DateUtils.SlotCount + 1 && 2 <= CellColumn(dayIndex) <= DayCount + 1
  {
    assert StartsIn(t, dayIndex, slotIndex);
  }

  /** The time label shown in row `index + 2`: whole hours only. */
  function TimeLabelText(index: nat): (r: string)
  {
    if index % 2 == 0 then DateUtils.SlotLabel(index) else ""
  }

  /** The labelled rows show the whole hours 06:00 to 23:00. */
  lemma HourLabelsShown(index: nat)
    requires index < DateUtils.SlotCount && index % 2 == 0
    ensures TimeLabelText(index) == DateUtils.ClockLabel(6 + index / 2, 0)
  {
    DateUtils.SlotLabelClock(index);
  }

  // ---------------------------------------------------------------------
  // The done toggle

  /** The update object `{ isDone }` a card's toggle sends. */
  function ToggleDonePatch(isDone: bool): UseTasks.TaskPatch {
    UseTasks.TaskPatch(Absent, Absent, Absent, Absent, Absent, Absent, Absent, Present(isDone), Absent)
  }

  /** `handleToggleDone(taskId, isDone)`. */
  method HandleToggleDone(store: UseTasks.TaskStore, taskId: string, isDone: bool)
    requires store.Valid()
    modifies store
    ensures store.Valid()
    ensures store.tasks == UseTasks.UpdatedAll(old(store.tasks), taskId, ToggleDonePatch(isDone))
  {
    store.UpdateTask(taskId, ToggleDonePatch(isDone));
  }

  /** Toggling changes only the done flag of the tasks with that id, and
      their colour, which the policy recomputes; the week key stays. */
  lemma ToggleDoneEffect(tasks: seq<UseTasks.Task>, taskId: string, isDone: bool)
    ensures var r := UseTasks.UpdatedAll(tasks, taskId, ToggleDonePatch(isDone));
            |r| == |tasks|
            && forall i :: 0 <= i < |tasks| ==>
                 r[i] == if tasks[i].id != taskId then tasks[i]
                         else tasks[i].(isDone := isDone,
                                        titleColor := Some(Colors.AutoColor(isDone, tasks[i].category, tasks[i].titleColor)))
  {
  }

  /** Marking a task done turns it green. */
  lemma ToggleDoneGreen(tasks: seq<UseTasks.Task>, taskId: string, k: int)
    requires 0 <= k < |tasks| && tasks[k].id == taskId
    ensures UseTasks.UpdatedAll(tasks, taskId, ToggleDonePatch(true))[k].titleColor == Some(Colors.Success)
  {
  }
}
