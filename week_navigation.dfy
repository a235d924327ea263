/** The week bar: the label of the selected week and the buttons that move
    the selected date a week back or forward. */
module WeekNavigation {
  import opened Js
  import DateUtils

  /** `weekDisplay`: the label of the week holding the selected date. It
      opens with the Monday's month and day and closes with the Sunday's
      day and year. */
  function WeekLabel(selectedWeek: DateUtils.Timestamp): (r: string)
    ensures var range := DateUtils.WeekRange(selectedWeek);
            var head := DateUtils.MonthNames[DateUtils.Month(range.start)] + " "
                        + NatToString(DateUtils.DateOfMonth(range.start));
            var tail := NatToString(DateUtils.DateOfMonth(range.end)) + ", " + IntToString(DateUtils.FullYear(range.end));
            |head| < |r| && r[..|head|] == head && |tail| < |r| && r[|r| - |tail|..] == tail
    ensures r == DateUtils.FormatWeekRange(DateUtils.WeekRange(selectedWeek).start, DateUtils.WeekRange(selectedWeek).end)
  {
    var range := DateUtils.WeekRange(selectedWeek);
    DateUtils.FormatWeekRange(range.start, range.end)
  }

  /** Every day of a week shows the same label: the one that opens with the
      Monday's month and day and closes with the Sunday's day and year. */
  lemma WeekLabelOfWeek(t: DateUtils.Timestamp, u: DateUtils.Timestamp)
    requires DateUtils.WeekRange(t).start.epochDay <= u.epochDay < DateUtils.WeekRange(t).start.epochDay + 7
    ensures WeekLabel(u) == WeekLabel(t)
    ensures var monday := DateUtils.WeekRange(t).start;
            var sunday := DateUtils.WeekRange(t).end;
            var head := DateUtils.MonthNames[DateUtils.Month(monday)] + " " + NatToString(DateUtils.DateOfMonth(monday));
            var tail := NatToString(DateUtils.DateOfMonth(sunday)) + ", " + IntToString(DateUtils.FullYear(sunday));
            var shown := WeekLabel(u);
            |head| < |shown| && shown[..|head|] == head && |tail| < |shown| && shown[|shown| - |tail|..] == tail
  {
    DateUtils.SameWeek(t, u);
    var range := DateUtils.WeekRange(t);
    assert DateUtils.WeekRange(u) == range;
  }

  /** The selected date moved by a number of days, time of day kept. */
  function Shifted(t: DateUtils.Timestamp, days: int): DateUtils.Timestamp {
    DateUtils.Timestamp(t.epochDay + days, t.ms)
  }

  /** `handlePreviousWeek()`: a copy of the selected date, `setDate(getDate() - 7)`. */
  method HandlePreviousWeek(selectedWeek: DateUtils.Timestamp) returns (newDate: DateUtils.Timestamp)
    ensures newDate == Shifted(selectedWeek, -7)
  {
    var d := new DateUtils.JsDate(selectedWeek);
    var date := d.GetDate();
    d.SetDate(date - 7);
    newDate := d.Time();
  }

  /** `handleNextWeek()`: a copy of the selected date, `setDate(getDate() + 7)`. */
  method HandleNextWeek(selectedWeek: DateUtils.Timestamp) returns (newDate: DateUtils.Timestamp)
    ensures newDate == Shifted(selectedWeek, 7)
  {
    var d := new DateUtils.JsDate(selectedWeek);
    var date := d.GetDate();
    d.SetDate(date + 7);
    newDate := d.Time();
  }

  /** Next then previous gives back the selected date, and so does previous
      then next. */
  method NextThenPrevious(selectedWeek: DateUtils.Timestamp) returns (a: DateUtils.Timestamp, b: DateUtils.Timestamp)
    ensures a == selectedWeek && b == selectedWeek
  {
    var next := HandleNextWeek(selectedWeek);
    a := HandlePreviousWeek(next);
    var previous := HandlePreviousWeek(selectedWeek);
    b := HandleNextWeek(previous);
  }

  /** Moving by k weeks moves the week's Monday by 7·k days and keeps the
      weekday and the slot of the selected date. */
  lemma ShiftWeeks(t: DateUtils.Timestamp, k: int)
    ensures var u := Shifted(t, 7 * k);
            DateUtils.WeekRange(u).start.epochDay == DateUtils.WeekRange(t).start.epochDay + 7 * k
            && DateUtils.DayOfWeek(u) == DateUtils.DayOfWeek(t)
            && DateUtils.SlotIndex(u) == DateUtils.SlotIndex(t)
  {
    DateUtils.WeekRangeShift(t, k);
  }

  /** A move by a non-zero number of weeks changes the week key, so the
      grid shows another week's tasks. */
  lemma ShiftChangesKey(t: DateUtils.Timestamp, k: int)
    requires k != 0
    ensures DateUtils.WeekStartISO(Shifted(t, 7 * k)) != DateUtils.WeekStartISO(t)
  {
    var u := Shifted(t, 7 * k);
    var mu, mt := DateUtils.WeekRange(u).start, DateUtils.WeekRange(t).start;
    DateUtils.WeekRangeShift(t, k);
    assert mu.epochDay == mt.epochDay + 7 * k;
    if DateUtils.WeekStartISO(u) == DateUtils.WeekStartISO(t) {
      assert DateUtils.GetISODateString(mu) == DateUtils.GetISODateString(mt);
      DateUtils.IsoDateInjective(mu, mt);
      assert false;
    }
  }
}
