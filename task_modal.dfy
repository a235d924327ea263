/** The task editor: its fixed duration and category choices, the form it
    opens with, the automatic recolouring when the done flag or the category
    changes, cancelling back to the opening snapshot, the `datetime-local`
    rendering of the start time, and the validation and normalisation that
    turn the form into the record handed to the store. */
module TaskModal {
  import opened Js
  import Colors
  import DateUtils
  import UseTasks

  // ---------------------------------------------------------------------
  // Fixed choices

  datatype DurationOption = DurationOption(value: int, text: string)

  /** `DURATION_OPTIONS`. */
  function DurationOptions(): seq<DurationOption> {
    [ DurationOption(30, "30 min"), DurationOption(60, "1 hr"), DurationOption(90, "1.5 hr"),
      DurationOption(120, "2 hr"), DurationOption(180, "3 hr"), DurationOption(240, "4 hr") ]
  }

  /** Every selectable duration is a positive multiple of 30 minutes, so it
      spans a whole number of slots between 1 and 8. */
  lemma DurationOptionsSpans()
    ensures |DurationOptions()| == 6
    ensures forall o :: o in DurationOptions() ==>
              o.value > 0 && o.value % 30 == 0
              && 1 <= o.value / 30 <= 8 && DateUtils.SlotHeight(o.value) == (o.value / 30) as real
  {
    forall o | o in DurationOptions()
      ensures DateUtils.SlotHeight(o.value) == (o.value / 30) as real
    {
      DateUtils.SlotHeightMeaning(o.value, o.value / 30);
    }
  }

  /** `CATEGORY_OPTIONS`: "None" first, then the three categories. */
  function CategoryOptions(): seq<string> {
    ["", Colors.NonNegotiableCategory, Colors.HaveToCategory, Colors.WantToCategory]
  }

  /** Every category the editor offers, other than "None", is one the colour
      policy knows. */
  lemma CategoryOptionsKnown()
    ensures forall c :: c in CategoryOptions() && c != "" ==> Colors.IsKnownCategory(Some(c))
  {
  }

  // ---------------------------------------------------------------------
  // The form

  /** `formData`: text fields as typed, the start time (`None` for ''), the
      selected category ('' for "None") and colour. */
  datatype FormData = FormData(
    title: string,
    notes: string,
    details: string,
    startTime: Option<DateUtils.Timestamp>,
    duration: int,
    category: string,
    titleColor: string,
    isDone: bool)

  /** The form the editor opens with for an existing task, or for a new one
      (`task == None`), possibly at a clicked slot. */
  function InitialForm(task: Option<UseTasks.Task>, initialStartTime: Option<DateUtils.Timestamp>): (f: FormData)
    ensures task.None? ==> f == FormData("", "", "", initialStartTime, 30, "", "", false)
    ensures task.Some? ==> f.title == task.value.title && f.notes == task.value.notes
                           && f.details == task.value.details && f.isDone == task.value.isDone
    ensures task.Some? ==> f.category == OrString(task.value.category, "")
                           && f.titleColor == OrString(task.value.titleColor, "")
    ensures f.startTime == if initialStartTime.Some? || task.None? then initialStartTime else task.value.startTime
    ensures f.duration == if task.Some? && task.value.duration != 0 then task.value.duration else 30
  {
    match task
    case None => FormData("", "", "", initialStartTime, 30, "", "", false)
    case Some(t) =>
      FormData(t.title, t.notes, t.details,
               if initialStartTime.Some? then initialStartTime else t.startTime,
               if t.duration != 0 then t.duration else 30,
               OrString(t.category, ""), OrString(t.titleColor, ""), t.isDone)
  }

  /** One `handleChange(field, value)`. */
  datatype Change =
    | Title(title: string)
    | Notes(notes: string)
    | Details(details: string)
    | StartTime(startTime: Option<DateUtils.Timestamp>)
    | Duration(duration: int)
    | Category(category: string)
    | TitleColor(titleColor: string)
    | IsDone(isDone: bool)

  /** `{ ...prev, [field]: value }`. */
  function Applied(f: FormData, c: Change): (g: FormData)
    ensures c.Title? ==> g.title == c.title
    ensures c.Notes? ==> g.notes == c.notes
    ensures c.Details? ==> g.details == c.details
    ensures c.StartTime? ==> g.startTime == c.startTime
    ensures c.Duration? ==> g.duration == c.duration
    ensures c.Category? ==> g.category == c.category
    ensures c.TitleColor? ==> g.titleColor == c.titleColor
    ensures c.IsDone? ==> g.isDone == c.isDone
    ensures !c.Title? ==> g.title == f.title
    ensures !c.Notes? ==> g.notes == f.notes
    ensures !c.Details? ==> g.details == f.details
    ensures !c.StartTime? ==> g.startTime == f.startTime
    ensures !c.Duration? ==> g.duration == f.duration
    ensures !c.Category? ==> g.category == f.category
    ensures !c.TitleColor? ==> g.titleColor == f.titleColor
    ensures !c.IsDone? ==> g.isDone == f.isDone
  {
    match c
    case Title(v) => f.(title := v)
    case Notes(v) => f.(notes := v)
    case Details(v) => f.(details := v)
    case StartTime(v) => f.(startTime := v)
    case Duration(v) => f.(duration := v)
    case Category(v) => f.(category := v)
    case TitleColor(v) => f.(titleColor := v)
    case IsDone(v) => f.(isDone := v)
  }

  /** The auto-colour effect: the colour the policy gives the form. */
  function AutoColored(f: FormData): (g: FormData)
    ensures g == f.(titleColor := g.titleColor)
    ensures f.isDone ==> g.titleColor == Colors.Success
    ensures !f.isDone && Colors.IsKnownCategory(Some(f.category)) ==> g.titleColor == Colors.CategoryColor(f.category)
    ensures !f.isDone && !Colors.IsKnownCategory(Some(f.category)) && f.titleColor != "" ==> g.titleColor == f.titleColor
    ensures g.titleColor != ""
  {
    f.(titleColor := Colors.AutoColor(f.isDone, Some(f.category), Some(f.titleColor)))
  }

  /** The form after one change: the change itself, and then the auto-colour
      effect when the done flag or the category took a new value. */
  function AfterChange(f: FormData, c: Change): (g: FormData)
    ensures g == Applied(f, c).(titleColor := g.titleColor)
    ensures g.titleColor != Applied(f, c).titleColor ==>
              (c.IsDone? && c.isDone != f.isDone) || (c.Category? && c.category != f.category)
  {
    var g := Applied(f, c);
    if g.isDone != f.isDone || g.category != f.category then AutoColored(g) else g
  }

  /** Marking the task done turns the form green; a newly chosen known
      category, on a task that is not done, takes that category's colour. */
  lemma ChangeRecolors(f: FormData, c: Change)
    ensures c == IsDone(true) && !f.isDone ==> AfterChange(f, c).titleColor == Colors.Success
    ensures c.Category? && c.category != f.category && !f.isDone && Colors.IsKnownCategory(Some(c.category))
            ==> AfterChange(f, c).titleColor == Colors.CategoryColor(c.category)
  {
  }

  /** A change that leaves the done flag and the category alone runs no
      effect: a colour picked by hand stays, and every other field changes
      only as asked. */
  lemma ChangeKeepsColor(f: FormData, c: Change)
    requires !c.IsDone? && !c.Category?
    ensures AfterChange(f, c) == Applied(f, c)
    ensures c.TitleColor? ==> AfterChange(f, c).titleColor == c.titleColor
    ensures !c.TitleColor? ==> AfterChange(f, c).titleColor == f.titleColor
  {
  }

  /** Running the effect twice changes nothing more than running it once. */
  lemma AutoColoredIdempotent(f: FormData)
    ensures AutoColored(AutoColored(f)) == AutoColored(f)
  {
    Colors.AutoColorIdempotent(f.isDone, Some(f.category), Some(f.titleColor));
  }

  /** The editor's state: the form and the snapshot `handleCancel` restores. */
  class TaskForm {
    var formData: FormData
    var initialData: FormData

    /** Opening the editor: the initial form, its snapshot, and the first
        run of the auto-colour effect, which touches the form only. */
    constructor (task: Option<UseTasks.Task>, initialStartTime: Option<DateUtils.Timestamp>)
      ensures initialData == InitialForm(task, initialStartTime)
      ensures formData == AutoColored(initialData)
    {
      var f := InitialForm(task, initialStartTime);
      initialData := f;
      formData := AutoColored(f);
    }

    /** `handleChange(field, value)` followed by the effect it triggers. */
    method HandleChange(c: Change)
      modifies this
      ensures formData == AfterChange(old(formData), c)
      ensures initialData == old(initialData)
    {
      var prev := formData;
      formData := Applied(formData, c);
      if formData.isDone != prev.isDone || formData.category != prev.category {
        formData := AutoColored(formData);
      }
    }

    /** `handleCancel()`: back to the snapshot taken when the editor opened. */
    method HandleCancel()
      modifies this
      ensures formData == initialData && initialData == old(initialData)
    {
      formData := initialData;
    }

    /** `handleSave()` on the current form; the form is left as it is. */
    method HandleSave() returns (r: Option<SaveRecord>)
      ensures r == SaveOf(formData)
    {
      r := SaveOf(formData);
    }
  }

  /** Cancelling after any sequence of changes gives back the opening
      form, before its first recolouring. */
  method CancelRestores(task: Option<UseTasks.Task>, start: Option<DateUtils.Timestamp>, changes: seq<Change>)
    returns (f: FormData)
    ensures f == InitialForm(task, start)
  {
    var form := new TaskForm(task, start);
    var i := 0;
    while i < |changes|
      invariant 0 <= i <= |changes|
      invariant form.initialData == InitialForm(task, start)
    {
      form.HandleChange(changes[i]);
      i := i + 1;
    }
    form.HandleCancel();
    f := form.formData;
  }

  // ---------------------------------------------------------------------
  // Saving

  /** The record `handleSave` hands to `onSave`. */
  datatype SaveRecord = SaveRecord(
    title: string,
    notes: string,
    details: string,
    startTime: Option<DateUtils.Timestamp>,
    duration: int,
    category: Option<string>,
    titleColor: string,
    isDone: bool)

  /** `handleSave(data)`: nothing (`None`) when the title is blank, else the
      trimmed and normalised record. */
  function SaveOf(data: FormData): (r: Option<SaveRecord>)
    ensures r.None? <==> forall k :: 0 <= k < |data.title| ==> IsWhiteSpace(data.title[k])
    ensures r.Some? ==> r.value.title == Trim(data.title) && r.value.title != ""
    ensures r.Some? ==> r.value.notes == Trim(data.notes) && r.value.details == Trim(data.details)
    ensures r.Some? ==> r.value.startTime == data.startTime
    ensures r.Some? ==> r.value.category == (if data.category == "" then None else Some(data.category))
    ensures r.Some? ==> r.value.duration == data.duration && r.value.titleColor == data.titleColor
                        && r.value.isDone == data.isDone
  {
    TrimEmpty(data.title);
    if Trim(data.title) == "" then None
    else
      Some(SaveRecord(Trim(data.title), Trim(data.notes), Trim(data.details), data.startTime,
                      data.duration, OrNull(Some(data.category)), data.titleColor, data.isDone))
  }

  /** Saving a saved record's fields again gives the same record: the
      normalisation is idempotent. */
  lemma SaveIdempotent(data: FormData)
    requires SaveOf(data).Some?
    ensures var r := SaveOf(data).value;
            SaveOf(FormData(r.title, r.notes, r.details, r.startTime, r.duration,
                            OrString(r.category, ""), r.titleColor, r.isDone)) == Some(r)
  {
    TrimIdempotent(data.title);
    TrimIdempotent(data.notes);
    TrimIdempotent(data.details);
  }

  // ---------------------------------------------------------------------
  // The datetime-local field

  /** `formatDateTimeLocal(startTime)`: '' for no time, else
      "YYYY-MM-DDTHH:MM" with the year unpadded. */
  function FormatDateTimeLocal(startTime: Option<DateUtils.Timestamp>): (r: string)
    ensures startTime.None? <==> r == ""
  {
    match startTime
    case None => ""
    case Some(t) =>
      IntToString(DateUtils.FullYear(t)) + "-" + Pad2(DateUtils.Month(t) + 1) + "-"
      + Pad2(DateUtils.DateOfMonth(t)) + "T" + Pad2(DateUtils.Hours(t)) + ":" + Pad2(DateUtils.Minutes(t))
  }

  /** For a four-digit year the field shows the ISO date and the "HH:MM"
      time of the start, joined by 'T'. */
  lemma DateTimeLocalShape(t: DateUtils.Timestamp)
    requires 1000 <= DateUtils.FullYear(t) <= 9999
    ensures FormatDateTimeLocal(Some(t)) == DateUtils.GetISODateString(t) + "T" + DateUtils.FormatTime(Some(t))
  {
    var c := DateUtils.Civil(t);
    var y, m, d := IntToString(c.year), Pad2(c.month), Pad2(c.day);
    var hh, mm := Pad2(DateUtils.Hours(t)), Pad2(DateUtils.Minutes(t));
    var text, date, clock := FormatDateTimeLocal(Some(t)), DateUtils.GetISODateString(t), DateUtils.FormatTime(Some(t));
    assert text == y + "-" + m + "-" + d + "T" + hh + ":" + mm by {
      assert IntToString(DateUtils.FullYear(t)) == y;
      assert Pad2(DateUtils.Month(t) + 1) == m;
      assert Pad2(DateUtils.DateOfMonth(t)) == d;
    }
    assert date == y + "-" + m + "-" + d by {
      FourDigitYear(c.year);
    }
    assert clock == hh + ":" + mm;
    JoinDateTime(text, date, clock, y, m, d, hh, mm);
  }

  /** A four-digit year is written the same by `String` and by `toISOString`. */
  lemma FourDigitYear(y: int)
    requires 1000 <= y <= 9999
    ensures DateUtils.IsoYear(y) == IntToString(y)
  {
    NatToStringLength(y);
  }

  lemma JoinDateTime(text: string, date: string, clock: string, y: string, m: string, d: string, hh: string, mm: string)
    requires text == y + "-" + m + "-" + d + "T" + hh + ":" + mm
    requires date == y + "-" + m + "-" + d && clock == hh + ":" + mm
    ensures text == date + "T" + clock
  {
  }

  /** The field reads back: split at 'T', its date part is the ISO date of
      the start and its time part gives the start's slot index. */
  lemma DateTimeLocalReadBack(t: DateUtils.Timestamp)
    requires 1000 <= DateUtils.FullYear(t) <= 9999
    ensures var parts := Split(FormatDateTimeLocal(Some(t)), 'T');
            |parts| == 2
            && DateUtils.ReadIsoDate(parts[0]) == Some(DateUtils.Civil(t))
            && DateUtils.SlotIndexOfText(parts[1]) == Some(DateUtils.SlotIndex(t))
  {
    var date := DateUtils.GetISODateString(t);
    var time := DateUtils.FormatTime(Some(t));
    DateTimeLocalShape(t);
    IsoDateFreeOfT(t);
    ClockFreeOfT(t);
    SplitPieces(date, time, 'T');
    DateUtils.IsoDateRoundTrip(DateUtils.Civil(t));
    DateUtils.FormatTimeSlotIndex(t);
  }

  lemma IsoDateFreeOfT(t: DateUtils.Timestamp)
    requires 0 <= DateUtils.FullYear(t) <= 9999
    ensures 'T' !in DateUtils.GetISODateString(t)
  {
    var c := DateUtils.Civil(t);
    var y, m, d := DateUtils.IsoYear(c.year), Pad2(c.month), Pad2(c.day);
    DigitsFree(NatToString(c.year));
    PaddedDigitsFree(NatToString(c.year), 4);
    DigitsFree(m);
    DigitsFree(d);
    FreeOfT4(y, m, d);
  }

  lemma ClockFreeOfT(t: DateUtils.Timestamp)
    ensures 'T' !in DateUtils.FormatTime(Some(t))
  {
    var hh, mm := Pad2(DateUtils.Hours(t)), Pad2(DateUtils.Minutes(t));
    DigitsFree(hh);
    DigitsFree(mm);
    assert DateUtils.FormatTime(Some(t)) == hh + ":" + mm;
  }

  lemma FreeOfT4(y: string, m: string, d: string)
    requires 'T' !in y && 'T' !in m && 'T' !in d
    ensures 'T' !in y + "-" + m + "-" + d
  {
  }

  lemma DigitsFree(s: string)
    requires forall k :: 0 <= k < |s| ==> IsDigit(s[k])
    ensures 'T' !in s
  {
    assert forall k :: 0 <= k < |s| ==> s[k] != 'T';
  }

  lemma PaddedDigitsFree(s: string, width: nat)
    requires 'T' !in s
    ensures 'T' !in PadStart(s, width, '0')
  {
  }
}
