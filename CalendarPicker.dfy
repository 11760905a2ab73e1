/** The date-and-time picker: a month grid or a year grid around the viewed
    month, a selected date, an hour and a minute. It starts from an optional
    `DD/MM/YYYY HH:mm` text and confirms by producing the same format.

    A JavaScript `Date` built from out-of-range fields (day 32, month 13, a
    year that is not a number) is not one of the model's dates: the initial
    parse reports such an input as `Unrepresented`. Today's weekday of the
    first of the month is a parameter. */
module CalendarPicker {
  import opened Wrappers
  import opened Text
  import opened Dates
  import opened AuthStore

  datatype ViewMode = MonthView | YearView

  // ---------------------------------------------------------------------
  // handleConfirm

  /** `handleConfirm`: `DD/MM/YYYY HH:mm`, day, month, hour and minute
      padded to two digits, the year printed as it is. */
  function ConfirmText(d: Date, hour: int, minute: int): string
    requires ValidDate(d)
  {
    DisplayDate(d) + " " + (Pad2(hour) + ":" + Pad2(minute))
  }

  /** The fields of the confirmed text sit where `DD/MM/YYYY HH:mm` puts
      them: for a four-digit year the text has sixteen characters with the
      separators at 2, 5, 10 and 13. */
  lemma ConfirmShape(d: Date, hour: int, minute: int)
    requires ValidDate(d) && 1000 <= d.year <= 9999
    requires 0 <= hour < 100 && 0 <= minute < 100
    ensures var r := ConfirmText(d, hour, minute);
            |r| == 16 && r[2] == '/' && r[5] == '/' && r[10] == ' ' && r[13] == ':'
  {
    NatStrFourDigits(d.year);
    Join3Shape(Pad2(d.day), '/', Pad2(d.month), IntStr(d.year));
    var disp := DisplayDate(d);
    var time := Pad2(hour) + ":" + Pad2(minute);
    assert (disp + " " + time)[10] == " "[0];
    assert (disp + " " + time)[13] == time[2];
  }

  /** The confirmed text, read back as a due date by the streak engine,
      is the `YYYY-MM-DD` key of the selected date. */
  lemma ConfirmNormalizes(d: Date, hour: int, minute: int)
    requires ValidDate(d) && d.year >= 0
    ensures NormalizeToISO(ConfirmText(d, hour, minute)) == Some(IsoKey(d))
  {
    var time := Pad2(hour) + ":" + Pad2(minute);
    LabelThenTime(DisplayDate(d), time);
    NormalizeDisplayDate(d, " " + time);
  }

  /** Helper: a label, a space and a time: the label followed by a text that starts
      with the space. */
  lemma LabelThenTime(shown: string, time: string)
    ensures shown + " " + time == shown + (" " + time) && (" " + time)[0] == ' '
  {
  }

  // ---------------------------------------------------------------------
  // The initial parse

  /** What the initial text does to the selected date: nothing, set it, or
      set it to a JavaScript date the model does not represent. */
  datatype DateEffect = Keep | SetDate(date: Date) | Unrepresented

  /** The hour and minute the initial text sets, None where it sets none. */
  datatype TimeFields = TimeFields(hour: Option<int>, minute: Option<int>)

  datatype Initial = Initial(date: DateEffect, time: TimeFields)

  /** The `isNaN` test and the date the numbers name: no day or month
      number keeps the date; a year that is not a number, or fields that
      do not name a date, give a date the model does not represent. */
  function DateFromFields(day: Option<int>, month: Option<int>, year: Option<int>): (r: DateEffect)
    ensures r.SetDate? ==> ValidDate(r.date)
    ensures r == Keep <==> day.None? || month.None?
  {
    if day.None? || month.None? then Keep
    else if year.None? then Unrepresented
    else
      match LocalDate(year.value, month.value, day.value)
      case None => Unrepresented
      case Some(d) => SetDate(d)
  }

  /** The date part: at least two `/` pieces, day and month numbers, the
      year from the third piece when there are exactly three and the
      current year otherwise. */
  function InitialDate(datePart: string, currentYear: int): (r: DateEffect)
    ensures r.SetDate? ==> ValidDate(r.date)
  {
    if datePart == [] then Keep
    else
      var parts := Split(datePart, '/');
      if |parts| < 2 then Keep
      else
        DateFromFields(ParseInt(parts[0]), ParseInt(parts[1]),
                       if |parts| == 3 then ParseInt(parts[2]) else Some(currentYear))
  }

  /** The time part: the hour from the text before `:`, the minute from
      the text after it, each only when it parses as a number. */
  function InitialTime(timePart: Option<string>): TimeFields {
    if timePart.None? || timePart.value == [] then TimeFields(None, None)
    else
      var hm := Split(timePart.value, ':');
      TimeFields(ParseInt(hm[0]), if |hm| >= 2 then ParseInt(hm[1]) else None)
  }

  /** The effect of `initialDate` (`[datePart, timePart] = split(' ')`). */
  function ParseInitial(s: string, currentYear: int): (r: Initial)
    ensures r.date.SetDate? ==> ValidDate(r.date.date)
  {
    if s == [] then Initial(Keep, TimeFields(None, None))
    else
      var pieces := Split(s, ' ');
      Initial(InitialDate(pieces[0], currentYear),
              InitialTime(if |pieces| >= 2 then Some(pieces[1]) else None))
  }

  /** Fewer than two `/` pieces, or a day or month that is not a number,
      leave the date alone; with exactly two pieces the year is the current
      one. */
  lemma InitialDateRules(datePart: string, currentYear: int)
    ensures |Split(datePart, '/')| < 2 ==> InitialDate(datePart, currentYear) == Keep
    ensures |Split(datePart, '/')| >= 2 && ParseInt(Split(datePart, '/')[0]).None?
            ==> InitialDate(datePart, currentYear) == Keep
    ensures |Split(datePart, '/')| == 2 && currentYear >= 100 && InitialDate(datePart, currentYear).SetDate?
            ==> InitialDate(datePart, currentYear).date.year == currentYear
  {
    var parts := Split(datePart, '/');
    if datePart != [] && |parts| >= 2 {
      var day, month := ParseInt(parts[0]), ParseInt(parts[1]);
      var year := if |parts| == 3 then ParseInt(parts[2]) else Some(currentYear);
      assert InitialDate(datePart, currentYear) == DateFromFields(day, month, year);
    }
  }

  /** The confirmed text splits at its one space into date and time. */
  lemma ConfirmSplit(d: Date, hour: int, minute: int)
    requires ValidDate(d) && d.year >= 0
    requires 0 <= hour && 0 <= minute
    ensures Split(ConfirmText(d, hour, minute), ' ') == [DisplayDate(d), Pad2(hour) + ":" + Pad2(minute)]
  {
    var hh, mi := Pad2(hour), Pad2(minute);
    DigitsNoSeparator(Pad2(d.day));
    DigitsNoSeparator(Pad2(d.month));
    DigitsNoSeparator(IntStr(d.year));
    DigitsNoSeparator(hh);
    DigitsNoSeparator(mi);
    var disp := DisplayDate(d);
    var time := hh + ":" + mi;
    assert ' ' !in disp;
    assert ' ' !in time;
    assert ConfirmText(d, hour, minute) == disp + [' '] + time;
    SplitTwo(disp, ' ', time);
  }

  /** Three `/`-free fields that parse to the numbers of a date set that
      date. */
  lemma FieldsInitial(dd: string, mm: string, yy: string, d: Date, currentYear: int)
    requires '/' !in dd && '/' !in mm && '/' !in yy
    requires ParseInt(dd) == Some(d.day) && ParseInt(mm) == Some(d.month) && ParseInt(yy) == Some(d.year)
    requires ValidDate(d) && d.year >= 100
    ensures InitialDate(Join3(dd, '/', mm, yy), currentYear) == SetDate(d)
  {
    var datePart := Join3(dd, '/', mm, yy);
    var e := DateFromFields(ParseInt(dd), ParseInt(mm), ParseInt(yy));
    assert InitialDate(datePart, currentYear) == e by {
      SplitFields(dd, '/', mm, yy);
      assert datePart != [];
    }
    assert e == SetDate(d) by {
      assert DateFromFields(Some(d.day), Some(d.month), Some(d.year)) == SetDate(d);
    }
  }

  /** A `DD/MM/YYYY` label sets the date it names. */
  lemma DisplayDateInitial(d: Date, currentYear: int)
    requires ValidDate(d) && d.year >= 100
    ensures InitialDate(DisplayDate(d), currentYear) == SetDate(d)
  {
    var dd, mm, yy := Pad2(d.day), Pad2(d.month), IntStr(d.year);
    assert '/' !in dd && '/' !in mm && '/' !in yy by {
      DigitsNoSeparator(dd);
      DigitsNoSeparator(mm);
      DigitsNoSeparator(yy);
    }
    assert ParseInt(dd) == Some(d.day) by { ParseIntPad2(d.day); }
    assert ParseInt(mm) == Some(d.month) by { ParseIntPad2(d.month); }
    assert ParseInt(yy) == Some(d.year) by { ParseIntNatStr(d.year); }
    FieldsInitial(dd, mm, yy, d, currentYear);
  }

  /** An `HH:mm` text sets that hour and minute. */
  lemma TimeInitial(hour: int, minute: int)
    requires 0 <= hour && 0 <= minute
    ensures InitialTime(Some(Pad2(hour) + ":" + Pad2(minute))) == TimeFields(Some(hour), Some(minute))
  {
    var hh, mi := Pad2(hour), Pad2(minute);
    DigitsNoSeparator(hh);
    DigitsNoSeparator(mi);
    assert ':' !in hh && ':' !in mi;
    assert hh + ":" + mi == hh + [':'] + mi;
    SplitTwo(hh, ':', mi);
    ParseIntPad2(hour);
    ParseIntPad2(minute);
  }

  /** The confirmed text, given back to the picker as its initial text,
      selects the same date, hour and minute (for years from 100 on; a
      year below 100 is read back as a year of the 1900s). */
  lemma ConfirmThenParse(d: Date, hour: int, minute: int, currentYear: int)
    requires ValidDate(d) && d.year >= 100
    requires 0 <= hour && 0 <= minute
    ensures ParseInitial(ConfirmText(d, hour, minute), currentYear)
            == Initial(SetDate(d), TimeFields(Some(hour), Some(minute)))
  {
    ConfirmSplit(d, hour, minute);
    DisplayDateInitial(d, currentYear);
    TimeInitial(hour, minute);
  }

  // ---------------------------------------------------------------------
  // Minutes, hours and the grids

  /** `Math.floor(minutes / 5) * 5`. */
  function RoundMinute(minutes: int): (r: int)
    ensures r % 5 == 0 && r <= minutes < r + 5
    ensures 0 <= minutes < 60 ==> 0 <= r <= 55
  {
    minutes / 5 * 5
  }

  /** The hour options `0 … 23`. */
  function HourOptions(): seq<int> {
    seq(24, i => i)
  }

  /** The minute options `0, 5, …, 55`. */
  function MinuteOptions(): seq<int> {
    seq(12, i => i * 5)
  }

  /** The options are exactly the hours of a day, and exactly the minutes
      that are multiples of five; a rounded minute is always an option. */
  lemma OptionsSpec(x: int, minutes: int)
    ensures x in HourOptions() <==> 0 <= x < 24
    ensures x in MinuteOptions() <==> 0 <= x < 60 && x % 5 == 0
    ensures 0 <= minutes < 60 ==> RoundMinute(minutes) in MinuteOptions()
  {
    if 0 <= x < 24 { assert HourOptions()[x] == x; }
    if 0 <= x < 60 && x % 5 == 0 { assert MinuteOptions()[x / 5] == x; }
    if 0 <= minutes < 60 {
      var r := RoundMinute(minutes);
      assert MinuteOptions()[r / 5] == r;
    }
  }

  /** `handlePrev`: one month back to its first day, or twelve years back
      in the year grid. */
  function PrevTarget(mode: ViewMode, current: Date): (r: Date)
    requires ValidDate(current)
    ensures ValidDate(r) && r.day == 1
    ensures mode == MonthView ==> MonthIndex(r.year, r.month) == MonthIndex(current.year, current.month) - 1
    ensures mode == YearView ==> r.year == current.year - 12 && r.month == current.month
  {
    if mode == MonthView then AddMonths(current.year, current.month, -1)
    else Date(current.year - 12, current.month, 1)
  }

  /** `handleNext`: one month on, or twelve years on. */
  function NextTarget(mode: ViewMode, current: Date): (r: Date)
    requires ValidDate(current)
    ensures ValidDate(r) && r.day == 1
    ensures mode == MonthView ==> MonthIndex(r.year, r.month) == MonthIndex(current.year, current.month) + 1
    ensures mode == YearView ==> r.year == current.year + 12 && r.month == current.month
  {
    if mode == MonthView then AddMonths(current.year, current.month, 1)
    else Date(current.year + 12, current.month, 1)
  }

  /** Next undoes prev and prev undoes next, up to the day, which both set
      to the first. */
  lemma PrevNextInverse(mode: ViewMode, current: Date)
    requires ValidDate(current)
    ensures NextTarget(mode, PrevTarget(mode, current)) == current.(day := 1)
    ensures PrevTarget(mode, NextTarget(mode, current)) == current.(day := 1)
  {
    AddMonthsInverse(current.year, current.month, -1);
    AddMonthsInverse(current.year, current.month, 1);
  }

  /** A cell of the month grid: blank before the first weekday, else a day. */
  datatype DayCell = Blank | Day(day: int, isSelected: bool, isToday: bool)

  /** A cell of the year grid. */
  datatype YearCell = YearCell(year: int, isSelected: bool, isCurrentYear: bool)

  class PickerState {
    var viewMode: ViewMode
    var current: Date
    var selected: Date
    var hour: int
    var minute: int

    predicate Valid()
      reads this
    {
      ValidDate(current) && ValidDate(selected)
    }

    /** The picker opens on today, at the current hour, the minute rounded
        down to a multiple of five. */
    constructor (today: Date, nowHour: int, nowMinute: int)
      requires ValidDate(today)
      ensures Valid()
      ensures viewMode == MonthView && current == today && selected == today
      ensures hour == nowHour && minute == RoundMinute(nowMinute)
    {
      viewMode := MonthView;
      current := today;
      selected := today;
      hour := nowHour;
      minute := nowMinute / 5 * 5;
    }

    /** The initial-date effect: a parsed date becomes both the selected
        and the viewed date, and the hour and minute that parse are set. */
    method ApplyInitial(s: string, currentYear: int)
      requires Valid()
      modifies this`selected, this`current, this`hour, this`minute
      ensures Valid()
      ensures Applied(ParseInitial(s, currentYear), old(selected), old(current), old(hour), old(minute))
    {
      Apply(ParseInitial(s, currentYear));
    }

    /** The state after an initial-text effect, from the state before. */
    predicate Applied(p: Initial, selected0: Date, current0: Date, hour0: int, minute0: int)
      reads this
    {
      && (if p.date.SetDate? then selected == p.date.date && current == p.date.date
          else selected == selected0 && current == current0)
      && hour == p.time.hour.GetOr(hour0)
      && minute == p.time.minute.GetOr(minute0)
    }

    method Apply(p: Initial)
      requires Valid() && (p.date.SetDate? ==> ValidDate(p.date.date))
      modifies this`selected, this`current, this`hour, this`minute
      ensures Valid()
      ensures Applied(p, old(selected), old(current), old(hour), old(minute))
    {
      if p.date.SetDate? {
        selected := p.date.date;
        current := p.date.date;
      }
      if p.time.hour.Some? {
        hour := p.time.hour.value;
      }
      if p.time.minute.Some? {
        minute := p.time.minute.value;
      }
    }

    method HandlePrev()
      requires Valid()
      modifies this`current
      ensures Valid() && current == PrevTarget(viewMode, old(current))
    {
      current := PrevTarget(viewMode, current);
    }

    method HandleNext()
      requires Valid()
      modifies this`current
      ensures Valid() && current == NextTarget(viewMode, old(current))
    {
      current := NextTarget(viewMode, current);
    }

    /** `handleDateClick`: a day of the viewed month becomes the selection. */
    method HandleDateClick(day: int)
      requires Valid() && 1 <= day <= DaysInMonth(current.year, current.month)
      modifies this`selected
      ensures Valid() && selected == Date(current.year, current.month, day)
    {
      selected := Date(current.year, current.month, day);
    }

    /** `handleYearClick`: the year's first day of the viewed month, back in
        the month grid. */
    method HandleYearClick(year: int)
      requires Valid()
      modifies this`current, this`viewMode
      ensures Valid() && current == Date(year, old(current).month, 1) && viewMode == MonthView
    {
      current := Date(year, current.month, 1);
      viewMode := MonthView;
    }

    method SetViewMode(mode: ViewMode)
      modifies this`viewMode
      ensures viewMode == mode
    {
      viewMode := mode;
    }

    /** `handleConfirm`. The year grid only offers years near the current
        one, so the key round trip is stated for years from 0 on. */
    method HandleConfirm() returns (r: string)
      requires Valid()
      ensures r == ConfirmText(selected, hour, minute)
      ensures selected.year >= 0 ==> NormalizeToISO(r) == Some(IsoKey(selected))
    {
      r := DisplayDate(selected) + " " + (Pad2(hour) + ":" + Pad2(minute));
      if selected.year >= 0 {
        ConfirmNormalizes(selected, hour, minute);
      }
    }

    /** `renderDays`: `firstWeekday` blanks (the Monday-first offset of the
        first of the month, from its weekday), then one cell per day of the
        viewed month; at most one cell is the selected date. */
    method RenderDays(weekdayOfFirst: int, today: Date) returns (cells: seq<DayCell>)
      requires Valid() && 0 <= weekdayOfFirst <= 6
      ensures var start := MondayFirstOffset(weekdayOfFirst);
              var total := DaysInMonth(current.year, current.month);
              && |cells| == start + total
              && (forall i :: 0 <= i < start ==> cells[i] == Blank)
              && (forall k :: 1 <= k <= total ==>
                    cells[start + k - 1] == Day(k, selected == Date(current.year, current.month, k),
                                                today == Date(current.year, current.month, k)))
      ensures forall i, j :: 0 <= i < j < |cells| && cells[i].Day? && cells[j].Day? ==>
                cells[i].day < cells[j].day && !(cells[i].isSelected && cells[j].isSelected)
    {
      var start := MondayFirstOffset(weekdayOfFirst);
      var total := DaysInMonth(current.year, current.month);
      cells := [];
      var i := 0;
      while i < start
        invariant 0 <= i <= start && |cells| == i
        invariant forall j :: 0 <= j < i ==> cells[j] == Blank
      {
        cells := cells + [Blank];
        i := i + 1;
      }
      var day := 1;
      while day <= total
        invariant 1 <= day <= total + 1 && |cells| == start + day - 1
        invariant forall j :: 0 <= j < start ==> cells[j] == Blank
        invariant forall k :: 1 <= k < day ==>
                    cells[start + k - 1] == Day(k, selected == Date(current.year, current.month, k),
                                                today == Date(current.year, current.month, k))
      {
        var isSelected := selected.day == day && selected.month == current.month && selected.year == current.year;
        var isToday := today.day == day && today.month == current.month && today.year == current.year;
        cells := cells + [Day(day, isSelected, isToday)];
        day := day + 1;
      }
      forall i, j | 0 <= i < j < |cells| && cells[i].Day? && cells[j].Day?
        ensures cells[i].day < cells[j].day && !(cells[i].isSelected && cells[j].isSelected)
      {
        assert i >= start && j >= start;
        var ki, kj := i - start + 1, j - start + 1;
        var cy, cm := current.year, current.month;
        assert cells[start + ki - 1] == Day(ki, selected == Date(cy, cm, ki), today == Date(cy, cm, ki));
        assert cells[start + kj - 1] == Day(kj, selected == Date(cy, cm, kj), today == Date(cy, cm, kj));
      }
    }

    /** `renderYears`: the twelve years from five before to six after the
        viewed year, in order. */
    method RenderYears(thisYear: int) returns (years: seq<YearCell>)
      requires Valid()
      ensures |years| == 12
      ensures forall i :: 0 <= i < 12 ==>
                years[i] == YearCell(current.year - 5 + i, selected.year == current.year - 5 + i,
                                     thisYear == current.year - 5 + i)
    {
      var startYear := current.year - 5;
      var endYear := current.year + 6;
      years := [];
      var y := startYear;
      while y <= endYear
        invariant startYear <= y <= endYear + 1 && |years| == y - startYear
        invariant forall i :: 0 <= i < |years| ==>
                    years[i] == YearCell(startYear + i, selected.year == startYear + i, thisYear == startYear + i)
      {
        years := years + [YearCell(y, selected.year == y, thisYear == y)];
        y := y + 1;
      }
    }
  }
}
