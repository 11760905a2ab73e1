/** The calendar screen: the month grid with a per-day count of tasks and of
    finished tasks, the colour of each day, the notification list built from
    today's and the overdue tasks, and the month (or year) navigation.

    Due dates are read as `DD/MM/YYYY[ HH:mm]` through `parseTaskDate`.
    JavaScript builds an invalid `Date` from pieces that are not numbers;
    every later use of such a date (a month comparison, `isSameDay`, `<`)
    is false, so the model reads it as no date. "Today" is a parameter. */
module CalendarView {
  import opened Wrappers
  import opened Text
  import opened Dates
  import opened Types
  import opened DataStore
  import AuthStore

  // ---------------------------------------------------------------------
  // Days of the month and due dates

  /** `getDaysInMonth`: `[1, 2, …, N]` for a month of N days. */
  function DaysList(y: int, m: int): (r: seq<int>)
    requires 1 <= m <= 12
  {
    seq(DaysInMonth(y, m), i => i + 1)
  }

  /** The list holds each day of the month once, in order. */
  lemma DaysListSpec(y: int, m: int, x: int)
    requires 1 <= m <= 12
    ensures |DaysList(y, m)| == DaysInMonth(y, m)
    ensures x in DaysList(y, m) <==> 1 <= x <= DaysInMonth(y, m)
    ensures forall i, j :: 0 <= i < j < |DaysList(y, m)| ==> DaysList(y, m)[i] < DaysList(y, m)[j]
  {
    if 1 <= x <= DaysInMonth(y, m) {
      assert DaysList(y, m)[x - 1] == x;
    }
  }

  /** `parseTaskDate`: the text before the first space, split on `/` into
      exactly three numbers D, M, Y, gives the date D/M/Y; the time is
      ignored. */
  function ParseTaskDate(s: string): (r: Option<Date>)
    ensures r.Some? ==> ValidDate(r.value)
  {
    if s == [] then None
    else
      var parts := Split(Split(s, ' ')[0], '/');
      if |parts| != 3 then None
      else
        var day, month, year := ParseInt(parts[0]), ParseInt(parts[1]), ParseInt(parts[2]);
        if day.None? || month.None? || year.None? then None
        else LocalDate(year.value, month.value, day.value)
  }

  /** No date for the empty text or a date part without exactly three
      pieces; whatever follows the first space does not matter. */
  lemma ParseTaskDateRules(s: string, datePart: string, rest: string)
    requires ' ' !in datePart && (rest == [] || rest[0] == ' ')
    ensures s == [] ==> ParseTaskDate(s) == None
    ensures s != [] && |Split(Split(s, ' ')[0], '/')| != 3 ==> ParseTaskDate(s) == None
    ensures datePart != [] ==> ParseTaskDate(datePart + rest) == ParseTaskDate(datePart)
  {
    if datePart != [] {
      AuthStore.DatePartOf(datePart, rest);
      assert Split(datePart, ' ')[0] == datePart by { SplitFirst(datePart, ' ', []); }
    }
  }

  /** The tasks due on a given day (`tasks.filter(t => isSameDay(…))`). */
  function TasksOn(tasks: seq<Task>, d: Date): seq<Task> {
    Filter(tasks, (t: Task) => ParseTaskDate(t.dueDate) == Some(d))
  }

  // ---------------------------------------------------------------------
  // daysStatus

  /** The day of the viewed month a task is due on, if any. */
  function DayOf(t: Task, y: int, m: int): (r: Option<int>)
    ensures r.Some? ==> 1 <= r.value <= 31
  {
    match ParseTaskDate(t.dueDate)
    case Some(d) => if d.year == y && d.month == m then Some(d.day) else None
    case None => None
  }

  /** `DayOf` for the viewed month, as the key the counts below read. */
  function DueDay(y: int, m: int): Task -> Option<int> {
    (t: Task) => DayOf(t, y, m)
  }

  // The counts read a task's day through `key`; `daysStatus` uses
  // `DueDay(y, m)`.

  /** The number of tasks whose day is `day`. */
  function TotalOn(tasks: seq<Task>, key: Task -> Option<int>, day: int): nat {
    if tasks == [] then 0
    else TotalOn(tasks[..|tasks| - 1], key, day) + (if key(tasks[|tasks| - 1]) == Some(day) then 1 else 0)
  }

  /** The number of those that are done. */
  function DoneOn(tasks: seq<Task>, key: Task -> Option<int>, day: int): nat {
    if tasks == [] then 0
    else
      var t := tasks[|tasks| - 1];
      DoneOn(tasks[..|tasks| - 1], key, day) + (if key(t) == Some(day) && t.status == DONE then 1 else 0)
  }

  /** The number of tasks that have a day at all. */
  function InMonth(tasks: seq<Task>, key: Task -> Option<int>): nat {
    if tasks == [] then 0
    else InMonth(tasks[..|tasks| - 1], key) + (if key(tasks[|tasks| - 1]).Some? then 1 else 0)
  }

  /** A day's count of finished tasks never exceeds its count of tasks. */
  lemma {:induction false} DoneAtMostTotal(tasks: seq<Task>, key: Task -> Option<int>, day: int)
    ensures DoneOn(tasks, key, day) <= TotalOn(tasks, key, day)
  {
    if tasks != [] {
      DoneAtMostTotal(tasks[..|tasks| - 1], key, day);
    }
  }

  /** The totals of days `1 … n`. */
  function SumTotals(tasks: seq<Task>, key: Task -> Option<int>, n: nat): nat {
    if n == 0 then 0 else SumTotals(tasks, key, n - 1) + TotalOn(tasks, key, n)
  }

  /** Removing the last task lowers the sum of days `1 … n` by one exactly
      when that task's day is one of those days. */
  lemma {:induction false} SumTotalsLast(tasks: seq<Task>, key: Task -> Option<int>, n: nat)
    requires tasks != []
    ensures var t := tasks[|tasks| - 1];
            SumTotals(tasks, key, n)
            == SumTotals(tasks[..|tasks| - 1], key, n)
               + (if key(t).Some? && 1 <= key(t).value <= n then 1 else 0)
  {
    if n > 0 {
      SumTotalsLast(tasks, key, n - 1);
    }
  }

  /** Every day a key gives is a day of a month. */
  ghost predicate MonthDays(key: Task -> Option<int>) {
    forall t :: key(t).Some? ==> 1 <= key(t).value <= 31
  }

  /** The day totals add up to the number of tasks due in the viewed
      month and year. */
  lemma {:induction false} TotalsSum(tasks: seq<Task>, key: Task -> Option<int>)
    requires MonthDays(key)
    ensures SumTotals(tasks, key, 31) == InMonth(tasks, key)
  {
    if tasks == [] {
      SumTotalsNone(tasks, key, 31);
    } else {
      TotalsSum(tasks[..|tasks| - 1], key);
      SumTotalsLast(tasks, key, 31);
    }
  }

  lemma {:induction false} SumTotalsNone(tasks: seq<Task>, key: Task -> Option<int>, n: nat)
    requires tasks == []
    ensures SumTotals(tasks, key, n) == 0
  {
    if n > 0 {
      SumTotalsNone(tasks, key, n - 1);
    }
  }

  /** A day's entry of `daysStatus`. */
  datatype DayStat = DayStat(total: nat, done: nat)

  /** `daysStatus`: for each task due in the viewed month, the entry of its
      day counts it, and counts it as done when it is. A day has an entry
      exactly when some task is due on it, and the totals of the entries
      add up to the number of tasks due in the month. */
  method DaysStatus(tasks: seq<Task>, y: int, m: int) returns (status: map<int, DayStat>)
    ensures forall day :: day in status <==> TotalOn(tasks, DueDay(y, m), day) > 0
    ensures forall day :: day in status ==>
              status[day] == DayStat(TotalOn(tasks, DueDay(y, m), day), DoneOn(tasks, DueDay(y, m), day))
    ensures forall day :: day in status ==> 0 <= status[day].done <= status[day].total
    ensures SumTotals(tasks, DueDay(y, m), 31) == InMonth(tasks, DueDay(y, m))
  {
    status := CountByDay(tasks, DueDay(y, m));
    TotalsSum(tasks, DueDay(y, m));
  }

  /** The loop of `daysStatus`, for any reading of a task's day. */
  method CountByDay(tasks: seq<Task>, key: Task -> Option<int>) returns (status: map<int, DayStat>)
    ensures forall day :: day in status <==> TotalOn(tasks, key, day) > 0
    ensures forall day :: day in status ==>
              status[day] == DayStat(TotalOn(tasks, key, day), DoneOn(tasks, key, day))
    ensures forall day :: day in status ==> 0 <= status[day].done <= status[day].total
  {
    status := map[];
    var i := 0;
    while i < |tasks|
      invariant 0 <= i <= |tasks|
      invariant forall day :: day in status <==> TotalOn(tasks[..i], key, day) > 0
      invariant forall day :: day in status ==>
                  status[day] == DayStat(TotalOn(tasks[..i], key, day), DoneOn(tasks[..i], key, day))
    {
      var t := tasks[i];
      assert tasks[..i + 1][..i] == tasks[..i];
      assert tasks[..i + 1][i] == t;
      var d := key(t);
      if d.Some? {
        DoneAtMostTotal(tasks[..i], key, d.value);
        var cur := if d.value in status then status[d.value] else DayStat(0, 0);
        status := status[d.value := DayStat(cur.total + 1, cur.done + (if t.status == DONE then 1 else 0))];
      }
      i := i + 1;
    }
    assert tasks[..|tasks|] == tasks;
    forall day | day in status ensures 0 <= status[day].done <= status[day].total {
      DoneAtMostTotal(tasks, key, day);
    }
  }

  /** The classes of a day cell. */
  datatype CellColor = NoStatus | Emerald | Rose | Amber

  /** The cell colour: a day with tasks is emerald when `done / total` is 1,
      rose when it is 0, amber otherwise; a day without tasks has none. */
  function DayColor(stat: Option<DayStat>): CellColor {
    match stat
    case None => NoStatus
    case Some(s) =>
      if s.total > 0 && s.done == s.total then Emerald
      else if s.total > 0 && s.done == 0 then Rose
      else Amber
  }

  /** For the entries `daysStatus` makes: all done is emerald, none done is
      rose, anything between is amber. */
  lemma DayColorRule(stat: DayStat)
    requires 0 < stat.total && stat.done <= stat.total
    ensures DayColor(Some(stat)) == Emerald <==> stat.done == stat.total
    ensures DayColor(Some(stat)) == Rose <==> stat.done == 0
    ensures DayColor(Some(stat)) == Amber <==> 0 < stat.done < stat.total
    ensures DayColor(None) == NoStatus
  {
  }

  // ---------------------------------------------------------------------
  // notifications

  datatype AlertKind = Summary(done: nat, total: nat) | Done | Pending | Info | Alert

  /** A notification: id, title, time column, read flag and kind (the
      message texts and the progress share are not modelled). */
  datatype Notification = Notification(id: string, title: string, time: string, read: bool, kind: AlertKind)

  /** The number of finished tasks in a list. */
  function CountDone(tasks: seq<Task>): (n: nat)
    ensures n <= |tasks|
  {
    if tasks == [] then 0 else (if tasks[0].status == DONE then 1 else 0) + CountDone(tasks[1..])
  }

  /** `t.dueDate.split(' ')[1] || fallback`. */
  function TimeOr(dueDate: string, fallback: string): string {
    var pieces := Split(dueDate, ' ');
    if |pieces| >= 2 && pieces[1] != [] then pieces[1] else fallback
  }

  function SummaryAlert(todayTasks: seq<Task>): Notification {
    Notification("summary-today", "Tiến độ hôm nay", "Hôm nay", false, Summary(CountDone(todayTasks), |todayTasks|))
  }

  function TodayAlert(t: Task): Notification {
    Notification("today-" + t.id, t.title, TimeOr(t.dueDate, "Hôm nay"), false,
                 if t.status == DONE then Done else Pending)
  }

  const InfoAlert := Notification("sys-1", "Hôm nay học gì?", "Vừa xong", false, Info)

  function OverdueAlert(t: Task): Notification {
    Notification("overdue-" + t.id, "Quá hạn: " + t.title, "Cảnh báo", false, Alert)
  }

  /** An unfinished task due on a day before today. */
  predicate IsOverdue(t: Task, today: Date) {
    t.status != DONE && ParseTaskDate(t.dueDate).Some? && Before(ParseTaskDate(t.dueDate).value, today)
  }

  function OverdueTasks(tasks: seq<Task>, today: Date): seq<Task> {
    Filter(tasks, (t: Task) => IsOverdue(t, today))
  }

  /** The alerts of a list of overdue tasks, one each, in order. */
  function OverdueAlerts(overdue: seq<Task>): seq<Notification> {
    seq(|overdue|, k requires 0 <= k < |overdue| => OverdueAlert(overdue[k]))
  }

  /** The head of the list: with k > 0 tasks due today, a summary and then
      one entry per such task; with none, the single `sys-1` entry. */
  function TodayHead(todays: seq<Task>): seq<Notification> {
    if |todays| > 0 then [SummaryAlert(todays)] + seq(|todays|, k requires 0 <= k < |todays| => TodayAlert(todays[k]))
    else [InfoAlert]
  }

  /** `notifications`: the head for the tasks due today, then one
      `overdue-<id>` alert per overdue task, in list order. */
  method Notifications(tasks: seq<Task>, today: Date) returns (alerts: seq<Notification>)
    ensures alerts == TodayHead(TasksOn(tasks, today)) + OverdueAlerts(OverdueTasks(tasks, today))
  {
    var head := TodayAlerts(TasksOn(tasks, today));
    var overdue := OverdueList(tasks, today);
    alerts := head + overdue;
  }

  /** The list is the head (a summary and one entry per task due today, or
      `sys-1`) followed by one alert per overdue task, and nothing in it is
      read. */
  lemma NotificationsShape(todays: seq<Task>, overdue: seq<Task>)
    ensures var alerts := TodayHead(todays) + OverdueAlerts(overdue);
            var head := if |todays| > 0 then 1 + |todays| else 1;
            && |alerts| == head + |overdue|
            && (|todays| > 0 ==> alerts[0] == SummaryAlert(todays)
                                 && forall k :: 0 <= k < |todays| ==> alerts[1 + k] == TodayAlert(todays[k]))
            && (|todays| == 0 ==> alerts[0] == InfoAlert)
            && (forall k :: 0 <= k < |overdue| ==> alerts[head + k] == OverdueAlert(overdue[k]))
            && (forall i :: 0 <= i < |alerts| ==> !alerts[i].read)
  {
    var alerts := TodayHead(todays) + OverdueAlerts(overdue);
    var h := TodayHead(todays);
    assert forall k :: 0 <= k < |overdue| ==> alerts[|h| + k] == OverdueAlerts(overdue)[k];
    forall i | 0 <= i < |alerts| ensures !alerts[i].read {
      if i >= |h| {
        assert alerts[i] == OverdueAlerts(overdue)[i - |h|];
      } else if |todays| > 0 && i > 0 {
        assert alerts[i] == TodayAlert(todays[i - 1]);
      }
    }
  }

  /** The head, built the way the source builds it: a summary, then a loop
      over today's tasks. */
  method TodayAlerts(todays: seq<Task>) returns (head: seq<Notification>)
    ensures head == TodayHead(todays)
  {
    if |todays| > 0 {
      head := [SummaryAlert(todays)];
      var k := 0;
      while k < |todays|
        invariant 0 <= k <= |todays|
        invariant head == [SummaryAlert(todays)] + seq(k, j requires 0 <= j < k => TodayAlert(todays[j]))
      {
        head := head + [TodayAlert(todays[k])];
        k := k + 1;
      }
    } else {
      head := [InfoAlert];
    }
  }

  /** The overdue alerts, one per overdue task, in list order. */
  method OverdueList(tasks: seq<Task>, today: Date) returns (alerts: seq<Notification>)
    ensures alerts == OverdueAlerts(OverdueTasks(tasks, today))
  {
    alerts := [];
    var i := 0;
    while i < |tasks|
      invariant 0 <= i <= |tasks|
      invariant alerts == OverdueAlerts(OverdueTasks(tasks[..i], today))
    {
      var t := tasks[i];
      assert tasks[..i + 1] == tasks[..i] + [t];
      FilterSnoc(tasks[..i], t, (t: Task) => IsOverdue(t, today));
      var late := false;
      if t.status != DONE {
        var d := ParseTaskDate(t.dueDate);
        late := d.Some? && Before(d.value, today);
      }
      assert late == IsOverdue(t, today);
      if late {
        OverdueAlertsSnoc(OverdueTasks(tasks[..i], today), t);
        alerts := alerts + [OverdueAlert(t)];
      }
      i := i + 1;
    }
    assert tasks[..|tasks|] == tasks;
  }

  lemma OverdueAlertsSnoc(overdue: seq<Task>, t: Task)
    ensures OverdueAlerts(overdue + [t]) == OverdueAlerts(overdue) + [OverdueAlert(t)]
  {
    assert forall k :: 0 <= k < |overdue| ==> (overdue + [t])[k] == overdue[k];
  }

  /** Each overdue task gives exactly one alert, and every alert is unread,
      so the unread count is the length of the list. */
  lemma OverdueCount(tasks: seq<Task>, today: Date, t: Task)
    ensures multiset(OverdueTasks(tasks, today))[t] == if IsOverdue(t, today) then multiset(tasks)[t] else 0
    ensures forall k :: 0 <= k < |OverdueTasks(tasks, today)| ==> IsOverdue(OverdueTasks(tasks, today)[k], today)
  {
    FilterCount(tasks, (t: Task) => IsOverdue(t, today), t);
    FilterSpec(tasks, (t: Task) => IsOverdue(t, today));
  }

  /** `notifications.filter(n => !n.read).length`. */
  function UnreadCount(alerts: seq<Notification>): (n: nat)
    ensures n <= |alerts|
    ensures (forall i :: 0 <= i < |alerts| ==> !alerts[i].read) ==> n == |alerts|
  {
    if alerts == [] then 0 else (if !alerts[0].read then 1 else 0) + UnreadCount(alerts[1..])
  }

  // ---------------------------------------------------------------------
  // Due dates as the calendar is written

  // The calendar reads `t.dueDate`, while every task the modal builds holds
  // its deadline under `due_date`. The members above read the deadline the
  // intended way; those below read it as written.

  /** `parseTaskDate(t.dueDate)` as written: the key is undefined on a task
      the modal built, and `parseTaskDate` gives null for it as it does
      for the empty text. */
  function DueAsWritten(t: Task): (r: Option<Date>)
    ensures t.keys == ModalKeys ==> r == None
    ensures t.keys == DeclaredKeys ==> r == ParseTaskDate(t.dueDate)
  {
    if t.keys == DeclaredKeys then ParseTaskDate(t.dueDate) else None
  }

  /** The day key `daysStatus` reads, as written. */
  function DueDayAsWritten(y: int, m: int): Task -> Option<int> {
    (t: Task) =>
      match DueAsWritten(t)
      case Some(d) => if d.year == y && d.month == m then Some(d.day) else None
      case None => None
  }

  /** The tasks the calendar lists for a day, as written. */
  function TasksOnAsWritten(tasks: seq<Task>, d: Date): seq<Task> {
    Filter(tasks, (t: Task) => DueAsWritten(t) == Some(d))
  }

  /** The overdue test of the notification list, as written. */
  predicate IsOverdueAsWritten(t: Task, today: Date) {
    t.status != DONE && DueAsWritten(t).Some? && Before(DueAsWritten(t).value, today)
  }

  /** As written, a list of tasks that all came from the modal gives no
      day any count, lists no task on any day, and raises no alert. */
  lemma {:induction false} CalendarIgnoresModalTasks(tasks: seq<Task>, y: int, m: int, day: int, today: Date)
    requires forall i :: 0 <= i < |tasks| ==> tasks[i].keys == ModalKeys
    ensures TotalOn(tasks, DueDayAsWritten(y, m), day) == 0
    ensures InMonth(tasks, DueDayAsWritten(y, m)) == 0
    ensures TasksOnAsWritten(tasks, today) == []
    ensures Filter(tasks, (t: Task) => IsOverdueAsWritten(t, today)) == []
  {
    if tasks != [] {
      CalendarIgnoresModalTasks(tasks[..|tasks| - 1], y, m, day, today);
    }
    FilterKeepsNone(tasks, (t: Task) => DueAsWritten(t) == Some(today));
    FilterKeepsNone(tasks, (t: Task) => IsOverdueAsWritten(t, today));
  }

  /** The picker's `DD/MM/YYYY` text reads back in the calendar as its date
      (for years from 100 on, below which JavaScript reads 19xx). */
  lemma ParseDisplayDate(d: Date)
    requires ValidDate(d) && d.year >= 100
    ensures ParseTaskDate(DisplayDate(d)) == Some(d)
  {
    var dd, mm, yy := Pad2(d.day), Pad2(d.month), IntStr(d.year);
    AuthStore.DigitsNoSeparator(dd);
    AuthStore.DigitsNoSeparator(mm);
    AuthStore.DigitsNoSeparator(yy);
    NotInJoin3(' ', dd, '/', mm, yy);
    SplitFirst(DisplayDate(d), ' ', []);
    SplitFields(dd, '/', mm, yy);
    ParseIntPad2(d.day);
    ParseIntPad2(d.month);
    ParseIntNatStr(d.year);
  }

  /** A task the modal built with the picker's date of a day `d`: the
      intended reading counts it on `d`, the calendar as written does not. */
  lemma CalendarMissesModalTask(t: Task, d: Date)
    requires ValidDate(d) && d.year >= 100
    requires t.keys == ModalKeys && t.dueDate == DisplayDate(d)
    ensures TotalOn([t], DueDay(d.year, d.month), d.day) == 1
    ensures TotalOn([t], DueDayAsWritten(d.year, d.month), d.day) == 0
  {
    ParseDisplayDate(d);
    assert [t][..0] == [];
  }

  // ---------------------------------------------------------------------
  // Navigation

  datatype ViewMode = MonthView | YearView

  /** `handlePrevMonth` (`delta` = -1) and `handleNextMonth` (`delta` = 1):
      one month, or twelve months in the year grid, to the first day. */
  function Shift(mode: ViewMode, view: Date, delta: int): (r: Date)
    requires ValidDate(view)
    ensures ValidDate(r) && r.day == 1
    ensures MonthIndex(r.year, r.month)
            == MonthIndex(view.year, view.month) + delta * (if mode == YearView then 12 else 1)
  {
    AddMonths(view.year, view.month, delta * (if mode == YearView then 12 else 1))
  }

  /** In the year grid a step moves exactly one year and keeps the month;
      a step back undoes a step forward. */
  lemma ShiftRules(mode: ViewMode, view: Date)
    requires ValidDate(view)
    ensures mode == YearView ==> Shift(mode, view, 1) == Date(view.year + 1, view.month, 1)
    ensures mode == YearView ==> Shift(mode, view, -1) == Date(view.year - 1, view.month, 1)
    ensures Shift(mode, Shift(mode, view, 1), -1) == view.(day := 1)
  {
    var k := if mode == YearView then 12 else 1;
    AddMonthsInverse(view.year, view.month, k);
  }

  class CalendarViewState {
    var viewDate: Date
    var selectedDate: Date
    var viewMode: ViewMode

    predicate Valid()
      reads this
    {
      ValidDate(viewDate) && ValidDate(selectedDate)
    }

    constructor (today: Date)
      requires ValidDate(today)
      ensures Valid() && viewDate == today && selectedDate == today && viewMode == MonthView
    {
      viewDate := today;
      selectedDate := today;
      viewMode := MonthView;
    }

    method HandlePrevMonth()
      requires Valid()
      modifies this`viewDate
      ensures Valid() && viewDate == Shift(viewMode, old(viewDate), -1)
    {
      viewDate := Shift(viewMode, viewDate, -1);
    }

    method HandleNextMonth()
      requires Valid()
      modifies this`viewDate
      ensures Valid() && viewDate == Shift(viewMode, old(viewDate), 1)
    {
      viewDate := Shift(viewMode, viewDate, 1);
    }

    /** A day of the grid becomes the selected date. */
    method HandleDateClick(day: int)
      requires Valid() && day in DaysList(viewDate.year, viewDate.month)
      modifies this`selectedDate
      ensures Valid() && selectedDate == Date(viewDate.year, viewDate.month, day)
    {
      DaysListSpec(viewDate.year, viewDate.month, day);
      selectedDate := Date(viewDate.year, viewDate.month, day);
    }

    /** A month of the year grid (index 0 … 11) opens that month. */
    method HandleMonthSelect(idx: int)
      requires Valid() && 0 <= idx < 12
      modifies this`viewDate, this`viewMode
      ensures Valid() && viewDate == Date(old(viewDate).year, idx + 1, 1) && viewMode == MonthView
    {
      viewDate := Date(viewDate.year, idx + 1, 1);
      viewMode := MonthView;
    }

    method SetViewMode(mode: ViewMode)
      modifies this`viewMode
      ensures viewMode == mode
    {
      viewMode := mode;
    }
  }
}
