/** Calendar math of the planner over local wall-clock time: Monday-based
    weeks and their keys, the Monday=0 weekday, the 36 half-hour slots from
    06:00 to 23:30, and the text renderings used by the views.

    A timestamp is a day number (days since 1970-01-01, local) and the
    milliseconds since local midnight. JavaScript's `Date` objects, which the
    source mutates in place with `setDate`/`setHours`, are the class `JsDate`. */
module DateUtils {
  import opened Js

  // Arithmetic below is written with literal constants (86400000 ms per
  // day, 3600000 per hour, 60000 per minute; slots of 30 minutes from minute
  // 360) so that every product has a literal factor.

  type MsOfDay = x: int | 0 <= x < 86400000

  datatype Timestamp = Timestamp(epochDay: int, ms: MsOfDay)

  /** `a <= b` on the time line. */
  predicate NotAfter(a: Timestamp, b: Timestamp) {
    a.epochDay < b.epochDay || (a.epochDay == b.epochDay && a.ms <= b.ms)
  }

  /** `getDay()`: Sunday = 0 .. Saturday = 6; 1970-01-01 was a Thursday. */
  function WeekDay(t: Timestamp): (w: int)
    ensures 0 <= w < 7
  {
    (t.epochDay + 4) % 7
  }

  /** `getHours()` and `getMinutes()`. */
  function Hours(t: Timestamp): (h: int)
    ensures 0 <= h < 24
  {
    t.ms / 3600000
  }

  function Minutes(t: Timestamp): (m: int)
    ensures 0 <= m < 60
  {
    t.ms / 60000 % 60
  }

  // ---------------------------------------------------------------------
  // Civil (proleptic Gregorian) dates

  datatype CivilDate = CivilDate(year: int, month: int, day: int)

  predicate ValidCivil(c: CivilDate) {
    1 <= c.month <= 12 && 1 <= c.day <= 31
  }

  function Min(a: int, b: int): int { if a < b then a else b }

  /** Splits a day of a 400-year era (counted from March 1) into the year
      of the era and the day of that March-based year. */
  function EraSplit(doe: int): (r: (int, int))
    requires 0 <= doe < 146097
    ensures 0 <= r.0 <= 399 && 0 <= r.1 <= 365
    ensures doe == 365 * r.0 + r.0 / 4 - r.0 / 100 + r.1
  {
    var n100 := Min(doe / 36524, 3);
    var d2 := doe - 36524 * n100;
    var n4 := d2 / 1461;
    var d3 := d2 % 1461;
    var n1 := Min(d3 / 365, 3);
    var yoe := 100 * n100 + 4 * n4 + n1;
    assert n4 <= 24;
    assert yoe / 4 == 25 * n100 + n4;
    assert yoe / 100 == n100;
    (yoe, d3 - 365 * n1)
  }

  /** The March-based month (0 = March) of a day of the March-based year. */
  function MarchMonth(doy: int): (mp: int)
    requires 0 <= doy <= 365
    ensures 0 <= mp <= 11
    ensures 0 <= doy - (153 * mp + 2) / 5 <= 30
  {
    (5 * doy + 2) / 153
  }

  /** The civil date of day `doy` of year `yoe` of era `era`, years
      counted from March so that a leap day falls at the end. */
  function CivilOfEraDay(era: int, yoe: int, doy: int): (c: CivilDate)
    requires 0 <= yoe <= 399 && 0 <= doy <= 365
    ensures ValidCivil(c)
  {
    var y := yoe + era * 400;
    var mp := MarchMonth(doy);
    var d := doy - (153 * mp + 2) / 5 + 1;
    var m := if mp < 10 then mp + 3 else mp - 9;
    CivilDate(if m <= 2 then y + 1 else y, m, d)
  }

  /** The civil date of a day number. */
  function CivilFromDays(z: int): (c: CivilDate)
    ensures ValidCivil(c)
  {
    var shifted := z + 719468;
    var r := EraSplit(shifted % 146097);
    CivilOfEraDay(shifted / 146097, r.0, r.1)
  }

  /** The day number of a civil date. */
  function DaysFromCivil(c: CivilDate): int {
    var y := if c.month <= 2 then c.year - 1 else c.year;
    var era := y / 400;
    var yoe := y % 400;
    var mp := (c.month + 9) % 12;
    var doy := (153 * mp + 2) / 5 + c.day - 1;
    var doe := yoe * 365 + yoe / 4 - yoe / 100 + doy;
    era * 146097 + doe - 719468
  }

  lemma DivPlus400(r: int, q: int)
    requires 0 <= r < 400
    ensures (r + q * 400) / 400 == q && (r + q * 400) % 400 == r
  {
  }

  /** Every day number is recovered from its civil date, so two different
      days never share a date. */
  lemma CivilRoundTrip(z: int)
    ensures DaysFromCivil(CivilFromDays(z)) == z
  {
    EraRoundTrip(z + 719468);
  }

  /** The era and day-of-era split of a shifted day number is undone by
      DaysFromCivil. */
  lemma EraRoundTrip(shifted: int)
    ensures var r := EraSplit(shifted % 146097);
            DaysFromCivil(CivilOfEraDay(shifted / 146097, r.0, r.1)) == shifted - 719468
  {
    var r := EraSplit(shifted % 146097);
    DaysFromCivilParts(shifted / 146097, r.0, r.1);
  }

  /** DaysFromCivil undoes each step of CivilOfEraDay. */
  lemma DaysFromCivilParts(era: int, yoe: int, doy: int)
    requires 0 <= yoe <= 399 && 0 <= doy <= 365
    ensures DaysFromCivil(CivilOfEraDay(era, yoe, doy))
            == era * 146097 + (365 * yoe + yoe / 4 - yoe / 100 + doy) - 719468
  {
    DivPlus400(yoe, era);
    var mp := MarchMonth(doy);
    var m := if mp < 10 then mp + 3 else mp - 9;
    assert (m + 9) % 12 == mp;
  }

  function Civil(t: Timestamp): (c: CivilDate)
    ensures ValidCivil(c)
  {
    CivilFromDays(t.epochDay)
  }

  /** `getFullYear()`, `getMonth()` (0-based) and `getDate()`. */
  function FullYear(t: Timestamp): int { Civil(t).year }

  function Month(t: Timestamp): (m: int)
    ensures 0 <= m < 12
  {
    Civil(t).month - 1
  }

  function DateOfMonth(t: Timestamp): (d: int)
    ensures 1 <= d <= 31
  {
    Civil(t).day
  }

  // ---------------------------------------------------------------------
  // Date objects

  /** A JavaScript `Date`: a mutable timestamp. */
  class JsDate {
    var epochDay: int
    var ms: MsOfDay

    /** `new Date(t)`: a fresh copy. */
    constructor (t: Timestamp)
      ensures Time() == t
    {
      epochDay := t.epochDay;
      ms := t.ms;
    }

    function Time(): Timestamp
      reads this
    {
      Timestamp(epochDay, ms)
    }

    function GetDay(): (w: int)
      reads this
      ensures 0 <= w < 7
    {
      WeekDay(Time())
    }

    function GetDate(): (d: int)
      reads this
      ensures 1 <= d <= 31
    {
      DateOfMonth(Time())
    }

    /** `setDate(date)`: moves to day-of-month `date` of the current month,
        overflowing into neighbouring months, keeping the time of day. */
    method SetDate(date: int)
      modifies this
      ensures Time() == Timestamp(old(epochDay) - old(GetDate()) + date, old(ms))
    {
      epochDay := epochDay - GetDate() + date;
    }

    /** `setHours(h, m, s, milli)`: sets the time of day, carrying whole
        days of overflow (or underflow) into the date. */
    method SetHours(h: int, m: int, s: int, milli: int)
      modifies this
      ensures var total := h * 3600000 + m * 60000 + s * 1000 + milli;
              Time() == Timestamp(old(epochDay) + total / 86400000, total % 86400000)
    {
      var total := h * 3600000 + m * 60000 + s * 1000 + milli;
      epochDay := epochDay + total / 86400000;
      ms := total % 86400000;
    }
  }

  // ---------------------------------------------------------------------
  // Weeks

  datatype Range = Range(start: Timestamp, end: Timestamp)

  /** The Monday-to-Sunday week holding `t`: it starts on a Monday at
      00:00:00.000 `(getDay() + 6) % 7` days back, ends six days later at
      23:59:59.999, and contains `t`. */
  function WeekRange(t: Timestamp): (r: Range)
    ensures WeekDay(r.start) == 1 && r.start.ms == 0
    ensures r.start.epochDay == t.epochDay - (WeekDay(t) + 6) % 7
    ensures r.end.epochDay == r.start.epochDay + 6 && r.end.ms == 86400000 - 1
    ensures NotAfter(r.start, t) && NotAfter(t, r.end)
  {
    var day := WeekDay(t);
    var monday := t.epochDay - day + (if day == 0 then -6 else 1);
    Range(Timestamp(monday, 0), Timestamp(monday + 6, 86400000 - 1))
  }

  /** The Monday at midnight of the week holding `date`, computed on `Date`
      copies as both `getWeekRange` and the grid's cell click do it: step
      back to Monday with `setDate`, then clear the time of day. */
  method MondayOf(date: Timestamp) returns (monday: JsDate)
    ensures fresh(monday)
    ensures monday.Time() == WeekRange(date).start
  {
    var d := new JsDate(date);
    var day := d.GetDay();
    var dayOfMonth := d.GetDate();
    d.SetDate(dayOfMonth - day + (if day == 0 then -6 else 1));
    var mondayDay := date.epochDay - day + (if day == 0 then -6 else 1);
    assert d.epochDay == mondayDay;
    monday := new JsDate(d.Time());
    monday.SetHours(0, 0, 0, 0);
    assert monday.Time() == Timestamp(mondayDay, 0);
    WeekRangeOf(date, mondayDay);
  }

  /** `getWeekRange(date)`, step by step on `Date` objects as the source does
      it; the input is copied, never changed. */
  method GetWeekRange(date: Timestamp) returns (start: JsDate, end: JsDate)
    ensures fresh(start) && fresh(end)
    ensures start.Time() == WeekRange(date).start && end.Time() == WeekRange(date).end
  {
    var monday := MondayOf(date);
    var mondayDay := monday.epochDay;
    var sunday := new JsDate(monday.Time());
    var mondayDate := monday.GetDate();
    sunday.SetDate(mondayDate + 6);
    assert sunday.epochDay == mondayDay + 6;
    sunday.SetHours(23, 59, 59, 999);
    start, end := monday, sunday;
  }

  lemma WeekRangeOf(t: Timestamp, monday: int)
    requires monday == t.epochDay - WeekDay(t) + (if WeekDay(t) == 0 then -6 else 1)
    ensures WeekRange(t) == Range(Timestamp(monday, 0), Timestamp(monday + 6, 86400000 - 1))
  {
  }

  /** The week of a week's Monday is that same week. */
  lemma WeekRangeIdempotent(t: Timestamp)
    ensures WeekRange(WeekRange(t).start) == WeekRange(t)
  {
  }

  /** All seven days of a week, at any time of day, have the same week. */
  lemma SameWeek(t: Timestamp, u: Timestamp)
    requires WeekRange(t).start.epochDay <= u.epochDay < WeekRange(t).start.epochDay + 7
    ensures WeekRange(u) == WeekRange(t)
  {
    var m := WeekRange(t).start.epochDay;
    MondayOfDay(m, u.epochDay);
    assert WeekRange(u).start.epochDay == m;
  }

  /** A day less than a week after a Monday `m` goes back to `m`. */
  lemma MondayOfDay(m: int, x: int)
    requires (m + 4) % 7 == 1 && m <= x < m + 7
    ensures x - ((x + 4) % 7 + 6) % 7 == m
  {
    var j := x - m;
    assert (x + 4) % 7 == (j + 1) % 7;
  }

  /** Moving a timestamp by whole weeks moves its week by the same amount. */
  lemma WeekRangeShift(t: Timestamp, k: int)
    ensures WeekRange(Timestamp(t.epochDay + 7 * k, t.ms)).start.epochDay
            == WeekRange(t).start.epochDay + 7 * k
  {
    var u := Timestamp(t.epochDay + 7 * k, t.ms);
    assert WeekDay(u) == WeekDay(t);
  }

  /** `getDayOfWeek(date)`: the Monday=0 .. Sunday=6 remap of `getDay()`,
      which is the number of days since the week's Monday. */
  function DayOfWeek(t: Timestamp): (d: int)
    ensures 0 <= d <= 6
    ensures d == t.epochDay - WeekRange(t).start.epochDay
    ensures WeekDay(t) == 1 <==> d == 0
    ensures WeekDay(t) == 0 <==> d == 6
  {
    var day := WeekDay(t);
    if day == 0 then 6 else day - 1
  }

  // ---------------------------------------------------------------------
  // Slots

  const SlotCount: int := 36

  /** "HH:MM", both parts zero-padded to two digits. */
  function ClockLabel(hours: nat, minutes: nat): string {
    Pad2(hours) + ":" + Pad2(minutes)
  }

  /** The label of slot `i`: "HH:00" for an even slot and "HH:30" for an
      odd one, HH being 06 plus half the index. */
  function SlotLabel(i: nat): string {
    Pad2(6 + i / 2) + (if i % 2 == 0 then ":00" else ":30")
  }

  /** The labels `getTimeSlots()` has pushed once its loop reaches `hour`:
      "HH:00" and "HH:30" for every hour from 06 up to `hour`. */
  function SlotsBefore(hour: nat): seq<string>
    requires 6 <= hour
  {
    if hour == 6 then []
    else SlotsBefore(hour - 1) + [Pad2(hour - 1) + ":00", Pad2(hour - 1) + ":30"]
  }

  /** `getTimeSlots()`: two labels per hour from 06 to 23, built by a loop;
      label i is the label of slot i. */
  method GetTimeSlots() returns (slots: seq<string>)
    ensures |slots| == SlotCount
    ensures forall i :: 0 <= i < |slots| ==> slots[i] == SlotLabel(i)
  {
    slots := [];
    var hour := 6;
    while hour < 24
      invariant 6 <= hour <= 24
      invariant slots == SlotsBefore(hour)
    {
      slots := slots + [Pad2(hour) + ":00"];
      slots := slots + [Pad2(hour) + ":30"];
      hour := hour + 1;
    }
    SlotsBeforeLabels(24);
  }

  /** Every label pushed up to `hour` is the label of its slot. */
  lemma {:induction false} SlotsBeforeLabels(hour: nat)
    requires 6 <= hour <= 24
    ensures |SlotsBefore(hour)| == 2 * (hour - 6)
    ensures forall i :: 0 <= i < |SlotsBefore(hour)| ==> SlotsBefore(hour)[i] == SlotLabel(i)
  {
    if hour > 6 {
      var h := hour - 1;
      SlotsBeforeLabels(h);
      HourSlots(h);
      PushLabels(SlotsBefore(h), Pad2(h) + ":00", Pad2(h) + ":30");
    }
  }

  /** The hour `h` owns slots 2·(h-6) and 2·(h-6)+1. */
  lemma HourSlots(h: int)
    requires 6 <= h
    ensures SlotLabel(2 * (h - 6)) == Pad2(h) + ":00"
    ensures SlotLabel(2 * (h - 6) + 1) == Pad2(h) + ":30"
  {
    var k := 2 * (h - 6);
    assert k / 2 == h - 6 && k % 2 == 0;
    assert (k + 1) / 2 == h - 6 && (k + 1) % 2 == 1;
  }

  lemma PushLabels(s: seq<string>, a: string, b: string)
    requires forall i :: 0 <= i < |s| ==> s[i] == SlotLabel(i)
    requires a == SlotLabel(|s|) && b == SlotLabel(|s| + 1)
    ensures forall i :: 0 <= i < |s| + 2 ==> (s + [a, b])[i] == SlotLabel(i)
  {
    var t := s + [a, b];
    forall i | 0 <= i < |s| + 2
      ensures t[i] == SlotLabel(i)
    {
      if i < |s| {
        assert t[i] == s[i];
      }
    }
  }

  /** Slot `i` is labelled with the clock time 06:00 plus i half-hours. */
  lemma SlotLabelClock(i: int)
    requires 0 <= i
    ensures SlotLabel(i) == ClockLabel(6 + i / 2, 30 * (i % 2))
  {
    HourLabels(6 + i / 2);
  }

  /** The two texts pushed for an hour are its clock labels. */
  lemma HourLabels(hour: nat)
    ensures Pad2(hour) + ":00" == ClockLabel(hour, 0)
    ensures Pad2(hour) + ":30" == ClockLabel(hour, 30)
  {
    MinuteLabels();
    AppendMinutes(Pad2(hour), Pad2(0), ":00");
    AppendMinutes(Pad2(hour), Pad2(30), ":30");
  }

  lemma MinuteLabels()
    ensures Pad2(0) == "00" && Pad2(30) == "30"
  {
    Pad2Digits(0);
    Pad2Digits(30);
  }

  lemma AppendMinutes(hh: string, mm: string, text: string)
    requires |mm| == 2 && text == [':', mm[0], mm[1]]
    ensures hh + text == hh + ":" + mm
  {
    assert ":" + mm == text;
  }

  /** `getSlotIndex(date)`: half-hours since 06:00, seconds ignored; a
      JavaScript number, so fractional for times off the half-hour grid. */
  function SlotIndex(t: Timestamp): (r: real)
    ensures r * 30.0 == (MinuteOfDay(t) - 360) as real
  {
    ((Hours(t) * 60 + Minutes(t) - 360) as real) / 30.0
  }

  /** `getSlotIndex("HH:MM")`: the same arithmetic on the numbers before and
      after the first ':'; None stands for `NaN`. */
  function SlotIndexOfText(time: string): (r: Option<real>)
    ensures var parts := Split(time, ':');
            r.Some? <==> |parts| >= 2 && ToNumber(parts[0]).Some? && ToNumber(parts[1]).Some?
  {
    SlotIndexOfParts(Split(time, ':'))
  }

  /** The arithmetic of `getSlotIndex` on the pieces of a split "HH:MM". */
  function SlotIndexOfParts(parts: seq<string>): Option<real> {
    if |parts| < 2 then None
    else
      match (ToNumber(parts[0]), ToNumber(parts[1]))
      case (Some(h), Some(m)) => Some(((h as int * 60 + m - 360) as real) / 30.0)
      case _ => None
  }

  /** The minute of the day of a timestamp, seconds dropped. */
  function MinuteOfDay(t: Timestamp): (m: int)
    ensures 0 <= m < 24 * 60
  {
    Hours(t) * 60 + Minutes(t)
  }

  /** A timestamp has slot index k exactly when it falls in the minute
      360 + 30·k; times before 06:00 have negative indices, and a minute that
      is not on the half-hour grid has no integral index at all. */
  lemma SlotIndexMeaning(t: Timestamp, k: int)
    ensures SlotIndex(t) == k as real <==> MinuteOfDay(t) == 360 + 30 * k
    ensures MinuteOfDay(t) < 360 ==> SlotIndex(t) < 0.0
    ensures MinuteOfDay(t) % 30 != 0 ==> SlotIndex(t) != k as real
  {
  }

  /** Slot labels read back as their own index. */
  lemma SlotLabelRoundTrip(i: int)
    requires 0 <= i
    ensures SlotIndexOfText(SlotLabel(i)) == Some(i as real)
  {
    var h, m := 6 + i / 2, 30 * (i % 2);
    SlotLabelClock(i);
    assert SlotLabel(i) == ClockLabel(h, m);
    ClockLabelSlotIndex(h, m);
    HalfHours(i, h, m);
  }

  lemma HalfHours(i: int, h: int, m: int)
    requires 0 <= i && h == 6 + i / 2 && m == 30 * (i % 2)
    ensures ((h * 60 + m - 360) as real) / 30.0 == i as real
  {
    assert h * 60 + m - 360 == 30 * i;
  }

  /** The text form of `getSlotIndex` on an "HH:MM" label. */
  lemma ClockLabelSlotIndex(h: int, m: int)
    requires 0 <= h && 0 <= m
    ensures SlotIndexOfText(ClockLabel(h, m)) == Some(((h * 60 + m - 360) as real) / 30.0)
  {
    ClockLabelParts(h, m);
    assert SlotIndexOfText(ClockLabel(h, m)) == SlotIndexOfParts([Pad2(h), Pad2(m)]);
    PartsValue(Pad2(h), Pad2(m), h, m);
  }

  lemma PartsValue(hh: string, mm: string, h: int, m: int)
    requires 0 <= h && 0 <= m && ToNumber(hh) == Some(h as nat) && ToNumber(mm) == Some(m as nat)
    ensures SlotIndexOfParts([hh, mm]) == Some(((h * 60 + m - 360) as real) / 30.0)
  {
  }

  lemma ClockLabelParts(h: nat, m: nat)
    ensures Split(ClockLabel(h, m), ':') == [Pad2(h), Pad2(m)]
    ensures ToNumber(Pad2(h)) == Some(h) && ToNumber(Pad2(m)) == Some(m)
  {
    assert ClockLabel(h, m) == Pad2(h) + [':'] + Pad2(m);
    SplitPieces(Pad2(h), Pad2(m), ':');
    PaddedRoundTrip(h, 2);
    PaddedRoundTrip(m, 2);
  }

  /** `formatTime(timeString)`: '' for no time, else "HH:MM". */
  function FormatTime(time: Option<Timestamp>): (r: string)
    ensures time.None? <==> r == ""
    ensures time.Some? ==> |r| == 5 && r[2] == ':'
  {
    match time
    case None => ""
    case Some(t) =>
      Pad2Digits(Hours(t));
      Pad2Digits(Minutes(t));
      ClockLabel(Hours(t), Minutes(t))
  }

  /** The text and the `Date` forms of `getSlotIndex` agree: the slot of a
      formatted time is the slot of the time. */
  lemma FormatTimeSlotIndex(t: Timestamp)
    ensures SlotIndexOfText(FormatTime(Some(t))) == Some(SlotIndex(t))
  {
    var h, m := Hours(t), Minutes(t);
    var text := FormatTime(Some(t));
    assert text == ClockLabel(h, m);
    ClockLabelSlotIndex(h, m);
  }

  /** `getSlotHeight(duration)`: the number of slots a duration spans. */
  function SlotHeight(duration: int): (r: real)
    ensures r * 30.0 == duration as real
  {
    (duration as real) / 30.0
  }

  /** A duration that is a multiple of 30 minutes spans a whole number of
      slots; any other duration spans a fractional number. */
  lemma SlotHeightMeaning(duration: int, k: int)
    ensures SlotHeight(duration) == k as real <==> duration == 30 * k
  {
  }

  // ---------------------------------------------------------------------
  // Texts

  const MonthNames: seq<string> :=
    ["Jan", "Feb", "Mar", "Apr", "May", "Jun", "Jul", "Aug", "Sep", "Oct", "Nov", "Dec"]
  const LowerMonthNames: seq<string> :=
    ["jan", "feb", "mar", "apr", "may", "jun", "jul", "aug", "sep", "oct", "nov", "dec"]

  /** `formatWeekRange(start, end)`: "Mon d1-d2, yyyy" when both month
      names agree, "Mon d1 - Mon2 d2, yyyy" otherwise; the year is always
      that of `end`. */
  function FormatWeekRange(start: Timestamp, end: Timestamp): (r: string)
    ensures var head := MonthNames[Month(start)] + " " + NatToString(DateOfMonth(start));
            |head| < |r| && r[..|head|] == head
    ensures var tail := NatToString(DateOfMonth(end)) + ", " + IntToString(FullYear(end));
            |tail| < |r| && r[|r| - |tail|..] == tail
    ensures Month(start) == Month(end) <==> r[|MonthNames[Month(start)]| + 1 + |NatToString(DateOfMonth(start))|] == '-'
    ensures Month(start) == Month(end) ==>
              r == MonthNames[Month(start)] + " " + NatToString(DateOfMonth(start)) + "-"
                   + NatToString(DateOfMonth(end)) + ", " + IntToString(FullYear(end))
    ensures Month(start) != Month(end) ==>
              r == MonthNames[Month(start)] + " " + NatToString(DateOfMonth(start)) + " - "
                   + MonthNames[Month(end)] + " " + NatToString(DateOfMonth(end)) + ", " + IntToString(FullYear(end))
  {
    MonthNamesDistinct(Month(start), Month(end));
    RangeText(MonthNames[Month(start)], NatToString(DateOfMonth(start)),
              MonthNames[Month(end)], NatToString(DateOfMonth(end)), IntToString(FullYear(end)))
  }

  /** The range text built from its already formatted parts: a bare "-"
      between the days when the month names agree, else " - " and the end's
      month name. */
  function RangeText(startMonth: string, startDay: string, endMonth: string, endDay: string, year: string): (r: string)
    ensures var head := startMonth + " " + startDay;
            |head| < |r| && r[..|head|] == head
    ensures var tail := endDay + ", " + year;
            |tail| < |r| && r[|r| - |tail|..] == tail
    ensures startMonth == endMonth <==> r[|startMonth| + 1 + |startDay|] == '-'
    ensures startMonth == endMonth ==> r == startMonth + " " + startDay + "-" + endDay + ", " + year
    ensures startMonth != endMonth ==> r == startMonth + " " + startDay + " - " + endMonth + " " + endDay + ", " + year
  {
    var head := startMonth + " " + startDay;
    var tail := endDay + ", " + year;
    if startMonth == endMonth then
      var middle := "-";
      ConcatShape(head, middle, tail);
      assert head + middle + tail == startMonth + " " + startDay + "-" + endDay + ", " + year;
      head + middle + tail
    else
      var middle := " - " + endMonth + " ";
      ConcatShape(head, middle, tail);
      assert head + middle + tail == startMonth + " " + startDay + " - " + endMonth + " " + endDay + ", " + year;
      head + middle + tail
  }

  lemma MonthNamesDistinct(i: int, j: int)
    requires 0 <= i < 12 && 0 <= j < 12
    ensures MonthNames[i] == MonthNames[j] <==> i == j
  {
    if i != j {
      assert MonthNames[i][0] != MonthNames[j][0] || MonthNames[i][1] != MonthNames[j][1]
             || MonthNames[i][2] != MonthNames[j][2];
    }
  }

  /** Where the three pieces of a concatenation sit in the result. */
  lemma ConcatShape(head: string, middle: string, tail: string)
    requires |middle| > 0
    ensures var r := head + middle + tail;
            r[..|head|] == head && r[|r| - |tail|..] == tail && r[|head|] == middle[0]
  {
    var r := head + middle + tail;
    assert r[..|head|] == head;
    assert r[|r| - |tail|..] == tail;
  }

  /** `formatDayDate(date)`: "d-mon"; the day part reads back as the day. */
  function FormatDayDate(t: Timestamp): (r: string)
    ensures Split(r, '-') == [NatToString(DateOfMonth(t)), LowerMonthNames[Month(t)]]
    ensures ToNumber(Split(r, '-')[0]) == Some(DateOfMonth(t))
  {
    var name := LowerMonthNames[Month(t)];
    assert '-' !in name;
    DigitsFreeOfDash(NatToString(DateOfMonth(t)));
    SplitPieces(NatToString(DateOfMonth(t)), name, '-');
    DigitsValueOfNatToString(DateOfMonth(t));
    NatToString(DateOfMonth(t)) + "-" + name
  }

  lemma DigitsFreeOfDash(s: string)
    requires forall k :: 0 <= k < |s| ==> IsDigit(s[k])
    ensures '-' !in s && ':' !in s && 'T' !in s
  {
    assert forall k :: 0 <= k < |s| ==> s[k] != '-' && s[k] != ':' && s[k] != 'T';
  }

  /** The year as `toISOString()` writes it: four digits for years 0..9999,
      otherwise a sign and six digits. */
  function IsoYear(y: int): (r: string)
    ensures 0 <= y <= 9999 ==> |r| == 4
    ensures (y < 0 || 9999 < y) ==> |r| >= 7 && r[0] == (if y < 0 then '-' else '+')
  {
    NatToStringLength(if y < 0 then -y else y);
    if 0 <= y <= 9999 then PadStart(NatToString(y), 4, '0')
    else if y < 0 then "-" + PadStart(NatToString(-y), 6, '0')
    else "+" + PadStart(NatToString(y), 6, '0')
  }

  /** "YYYY-MM-DD". */
  function IsoDateString(c: CivilDate): string
    requires ValidCivil(c)
  {
    IsoYear(c.year) + "-" + Pad2(c.month) + "-" + Pad2(c.day)
  }

  /** The "YYYY-MM-DD" layout: a year of at least four characters, then
      '-', two characters, '-' and two characters. */
  predicate KeyShaped(s: string) {
    |s| >= 10 && s[|s| - 6] == '-' && s[|s| - 3] == '-'
  }

  /** `getISODateString(date)`. */
  function GetISODateString(t: Timestamp): (r: string)
    ensures ReadIsoDate(r) == Some(Civil(t))
    ensures KeyShaped(r)
    ensures 0 <= Civil(t).year <= 9999 <==> |r| == 10
  {
    var c := Civil(t);
    IsoDateRoundTrip(c);
    Pad2RoundTrip(c.month);
    Pad2RoundTrip(c.day);
    IsoDateString(c)
  }

  /** `getWeekStartISO(date)`: the key of the week holding `date`, the
      date of its Monday. */
  function WeekStartISO(t: Timestamp): (r: string)
    ensures ReadIsoDate(r) == Some(Civil(WeekRange(t).start))
    ensures KeyShaped(r)
  {
    GetISODateString(WeekRange(t).start)
  }

  /** Reads a year back from its `toISOString()` form. */
  function ReadIsoYear(s: string): Option<int> {
    if |s| == 4 then
      match ToNumber(s)
      case Some(n) => Some(n as int)
      case None => None
    else if |s| >= 1 && s[0] == '-' then
      match ToNumber(s[1..])
      case Some(n) => Some(-(n as int))
      case None => None
    else if |s| >= 1 then
      match ToNumber(s[1..])
      case Some(n) => Some(n as int)
      case None => None
    else None
  }

  /** Years read back as the year they were written from. */
  lemma IsoYearRoundTrip(y: int)
    ensures ReadIsoYear(IsoYear(y)) == Some(y)
  {
    if 0 <= y <= 9999 {
      FourDigitYearRoundTrip(y);
    } else {
      SignedYearRoundTrip(y);
    }
  }

  lemma FourDigitYearRoundTrip(y: int)
    requires 0 <= y <= 9999
    ensures ReadIsoYear(IsoYear(y)) == Some(y)
  {
    var s := PadStart(NatToString(y), 4, '0');
    NatToStringLength(y);
    assert |s| == 4;
    PaddedRoundTrip(y, 4);
    assert ToNumber(s) == Some(y);
  }

  lemma SignedYearRoundTrip(y: int)
    requires y < 0 || 9999 < y
    ensures ReadIsoYear(IsoYear(y)) == Some(y)
  {
    var n: nat := if y < 0 then -y else y;
    PaddedRoundTrip(n, 6);
    var s := IsoYear(y);
    assert s[0] == (if y < 0 then '-' else '+');
    assert |s| >= 7 && s[1..] == PadStart(NatToString(n), 6, '0');
    ReadSignedYear(s, n);
  }

  lemma ReadSignedYear(s: string, n: nat)
    requires |s| >= 7 && ToNumber(s[1..]) == Some(n)
    ensures ReadIsoYear(s) == if s[0] == '-' then Some(-(n as int)) else Some(n as int)
  {
  }

  /** Reads a "YYYY-MM-DD" key back into a civil date; anything without
      the two '-' separators in place is not a key. */
  function ReadIsoDate(s: string): Option<CivilDate> {
    if |s| < 6 || s[|s| - 6] != '-' || s[|s| - 3] != '-' then None
    else
      match (ReadIsoYear(s[..|s| - 6]), ToNumber(s[|s| - 5..|s| - 3]), ToNumber(s[|s| - 2..]))
      case (Some(y), Some(m), Some(d)) => Some(CivilDate(y, m, d))
      case _ => None
  }

  /** Keys read back as the date they were written from. */
  lemma IsoDateRoundTrip(c: CivilDate)
    requires ValidCivil(c)
    ensures ReadIsoDate(IsoDateString(c)) == Some(c)
  {
    IsoYearRoundTrip(c.year);
    Pad2RoundTrip(c.month);
    Pad2RoundTrip(c.day);
    IsoKeyRead(IsoYear(c.year), Pad2(c.month), Pad2(c.day), c);
  }

  /** A two-digit pad of a number below 100 has two characters and reads
      back as the number. */
  lemma Pad2RoundTrip(n: int)
    requires 0 <= n < 100
    ensures |Pad2(n)| == 2 && ToNumber(Pad2(n)) == Some(n as nat)
  {
    NatToStringLength(n);
    PaddedRoundTrip(n, 2);
  }

  lemma IsoKeyRead(year: string, month: string, day: string, c: CivilDate)
    requires |month| == 2 && |day| == 2 && ReadIsoYear(year) == Some(c.year)
    requires c.month >= 0 && ToNumber(month) == Some(c.month as nat)
    requires c.day >= 0 && ToNumber(day) == Some(c.day as nat)
    ensures ReadIsoDate(year + "-" + month + "-" + day) == Some(c)
  {
    KeySlices(year, month, day);
    ReadIsoDateParts(year + "-" + month + "-" + day, c);
  }

  lemma KeySlices(year: string, month: string, day: string)
    requires |month| == 2 && |day| == 2
    ensures var s := year + "-" + month + "-" + day;
            |s| >= 6 && s[..|s| - 6] == year && s[|s| - 5..|s| - 3] == month && s[|s| - 2..] == day
            && s[|s| - 6] == '-' && s[|s| - 3] == '-'
  {
    var s := year + "-" + month + "-" + day;
    assert s[..|s| - 6] == year;
    assert s[|s| - 5..|s| - 3] == month;
    assert s[|s| - 2..] == day;
  }

  lemma ReadIsoDateParts(s: string, c: CivilDate)
    requires |s| >= 6 && s[|s| - 6] == '-' && s[|s| - 3] == '-' && ReadIsoYear(s[..|s| - 6]) == Some(c.year)
    requires c.month >= 0 && ToNumber(s[|s| - 5..|s| - 3]) == Some(c.month as nat)
    requires c.day >= 0 && ToNumber(s[|s| - 2..]) == Some(c.day as nat)
    ensures ReadIsoDate(s) == Some(c)
  {
  }

  /** Two timestamps have the same week key exactly when they lie in the
      same Monday-to-Sunday week. */
  lemma WeekKeyMeaning(a: Timestamp, b: Timestamp)
    ensures WeekStartISO(a) == WeekStartISO(b) <==> WeekRange(a) == WeekRange(b)
  {
    var ra, rb := WeekRange(a), WeekRange(b);
    if WeekStartISO(a) == WeekStartISO(b) {
      IsoDateInjective(ra.start, rb.start);
      assert ra.start == rb.start;
    }
  }

  /** Different days have different ISO date strings. */
  lemma IsoDateInjective(u: Timestamp, v: Timestamp)
    requires GetISODateString(u) == GetISODateString(v)
    ensures u.epochDay == v.epochDay
  {
    IsoDateRoundTrip(Civil(u));
    IsoDateRoundTrip(Civil(v));
    CivilRoundTrip(u.epochDay);
    CivilRoundTrip(v.epochDay);
  }
}
