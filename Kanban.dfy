/** The task board: the subject filter, the three status columns, the
    deadline parse with JavaScript's date normalisation, the overdue count
    of the banner and the overdue flag of a card, and the task that the
    "new task" form creates. The current time is a parameter. */
module Kanban {
  import opened Wrappers
  import opened Text
  import opened Dates
  import opened Types
  import opened DataStore
  import CalendarPicker

  // ---------------------------------------------------------------------
  // Moments

  /** A local date and a minute of that day (0 … 1439). */
  datatype Moment = Moment(date: Date, minute: int)

  predicate ValidMoment(m: Moment) {
    ValidDate(m.date) && 0 <= m.minute < 1440
  }

  /** `new Date(year, month - 1, day, hour, minute)`: a year from 0 to 99
      means 1900 + year; a month outside 1 … 12 moves the year, a day
      outside the month moves the month, and minutes outside the day move
      the day, as the constructor normalises them. */
  function LocalMoment(year: int, month: int, day: int, hour: int, minute: int): (r: Moment)
    ensures ValidMoment(r)
  {
    var y := if 0 <= year <= 99 then 1900 + year else year;
    var first := AddMonths(y, 1, month - 1);
    var total := hour * 60 + minute;
    Moment(ShiftDays(first, day - 1 + total / 1440), total % 1440)
  }

  /** Fields that already name a moment give exactly that moment. */
  lemma LocalMomentExact(d: Date, hour: int, minute: int)
    requires ValidDate(d) && d.year >= 100 && 0 <= hour < 24 && 0 <= minute < 60
    ensures LocalMoment(d.year, d.month, d.day, hour, minute) == Moment(d, hour * 60 + minute)
  {
    var total := hour * 60 + minute;
    assert total / 1440 == 0 && total % 1440 == total;
    assert AddMonths(d.year, 1, d.month - 1) == Date(d.year, d.month, 1) by {
      var idx := MonthIndex(d.year, 1) + (d.month - 1);
      assert idx == d.year * 12 + (d.month - 1);
      assert idx / 12 == d.year && idx % 12 == d.month - 1;
    }
    ShiftInMonth(Date(d.year, d.month, 1), d.day - 1);
  }

  /** The current time: the current minute and the milliseconds already
      elapsed in it (0 … 59999). */
  datatype Clock = Clock(at: Moment, millis: int)

  /** `deadline < currentTime` for a deadline on a whole minute. */
  predicate EarlierThan(dl: Moment, now: Clock) {
    || Before(dl.date, now.at.date)
    || (dl.date == now.at.date && (dl.minute < now.at.minute || (dl.minute == now.at.minute && now.millis > 0)))
  }

  // ---------------------------------------------------------------------
  // parseDate

  /** What `parseDate` returns: `null`, an invalid `Date` (a field that is
      not a number), or a moment. */
  datatype Deadline = NoDate | InvalidDate | At(moment: Moment)

  /** The piece at `i`, `undefined` past the end. */
  function Piece(parts: seq<string>, i: nat): (r: Option<string>)
    ensures r.Some? <==> i < |parts|
    ensures i < |parts| ==> r.value == parts[i]
  {
    if i < |parts| then Some(parts[i]) else None
  }

  /** `parseInt` of a piece; `parseInt(undefined)` is NaN. */
  function ParsePiece(p: Option<string>): Option<int> {
    if p.None? then None else ParseInt(p.value)
  }

  /** The text after the first space; none (`undefined`) is empty. */
  function TimePart(pieces: seq<string>): string {
    if |pieces| > 1 then pieces[1] else []
  }

  /** The hour and minute of a time text: 23 and 59 when there is none,
      otherwise the numbers before and after the first `:`. */
  function TimeFields(timePart: string): (r: (Option<int>, Option<int>))
    ensures timePart == [] ==> r == (Some(23), Some(59))
  {
    if timePart == [] then (Some(23), Some(59))
    else
      var hm := Split(timePart, ':');
      (ParseInt(hm[0]), ParsePiece(Piece(hm, 1)))
  }

  /** The `Date` built from the day, month and year pieces and the time
      text; invalid when any of the five numbers is NaN. */
  function DeadlineOf(day: Option<string>, month: Option<string>, year: Option<string>, timePart: string): (r: Deadline)
    ensures r != NoDate
    ensures r.At? ==> ValidMoment(r.moment)
  {
    var (h, mi) := TimeFields(timePart);
    var d, mo, y := ParsePiece(day), ParsePiece(month), ParsePiece(year);
    if d.None? || mo.None? || y.None? || h.None? || mi.None? then InvalidDate
    else At(LocalMoment(y.value, mo.value, d.value, h.value, mi.value))
  }

  /** `parseDate`: `null` for the empty text or a date part that does not
      split into exactly three `/` pieces; otherwise the `Date` of the
      pieces D/M/Y and the time after the first space. */
  function ParseDeadline(s: string): (r: Deadline)
  {
    if s == [] then NoDate
    else
      var pieces := Split(s, ' ');
      var parts := Split(pieces[0], '/');
      if |parts| != 3 then NoDate
      else DeadlineOf(Some(parts[0]), Some(parts[1]), Some(parts[2]), TimePart(pieces))
  }

  /** `null` exactly for the empty text and for a date part without three
      pieces; with no time the deadline is the minute 23:59. */
  lemma ParseDeadlineRules(s: string)
    ensures ParseDeadline(s) == NoDate <==> s == [] || |Split(Split(s, ' ')[0], '/')| != 3
    ensures ParseDeadline(s).At? ==> ValidMoment(ParseDeadline(s).moment)
    ensures ParseDeadline(s).At? && TimePart(Split(s, ' ')) == [] ==> ParseDeadline(s).moment.minute == 23 * 60 + 59
  {
  }

  /** A date and time picked in the picker parse back to the picked
      minute. */
  lemma ParsePicked(d: Date, hour: int, minute: int)
    requires ValidDate(d) && d.year >= 100 && 0 <= hour < 24 && 0 <= minute < 60
    ensures ParseDeadline(CalendarPicker.ConfirmText(d, hour, minute)) == At(Moment(d, hour * 60 + minute))
  {
    var time := Pad2(hour) + ":" + Pad2(minute);
    PickedSplit(d, hour, minute);
    PickedTime(hour, minute);
    LabelFields(d, time, hour, minute);
    LocalMomentExact(d, hour, minute);
    ParseTwoPieces(CalendarPicker.ConfirmText(d, hour, minute), DisplayDate(d), time,
                   [Pad2(d.day), Pad2(d.month), IntStr(d.year)]);
  }

  /** `parseDate` of a text that splits on its space into a date part and
      a time part. */
  lemma ParseTwoPieces(s: string, datePart: string, timePart: string, parts: seq<string>)
    requires Split(s, ' ') == [datePart, timePart]
    requires Split(datePart, '/') == parts && |parts| == 3
    ensures ParseDeadline(s) == DeadlineOf(Some(parts[0]), Some(parts[1]), Some(parts[2]), timePart)
  {
    ParseByParts(s, datePart, timePart, parts);
  }

  /** The confirmed text splits on its space into the label and the time. */
  lemma PickedSplit(d: Date, hour: int, minute: int)
    requires ValidDate(d) && d.year >= 0 && 0 <= hour && 0 <= minute
    ensures Split(CalendarPicker.ConfirmText(d, hour, minute), ' ') == [DisplayDate(d), Pad2(hour) + ":" + Pad2(minute)]
  {
    NoSeparators(d);
    assert AllDigits(Pad2(hour)) && AllDigits(Pad2(minute));
    SplitTwo(DisplayDate(d), ' ', Pad2(hour) + ":" + Pad2(minute));
  }

  /** The picked time text gives back the hour and the minute. */
  lemma PickedTime(hour: int, minute: int)
    requires 0 <= hour && 0 <= minute
    ensures TimeFields(Pad2(hour) + ":" + Pad2(minute)) == (Some(hour), Some(minute))
  {
    assert AllDigits(Pad2(hour)) && AllDigits(Pad2(minute));
    SplitTwo(Pad2(hour), ':', Pad2(minute));
    ParseIntPad2(hour);
    ParseIntPad2(minute);
  }

  /** A date picked without a time parses to 23:59 of that day. */
  lemma ParsePickedDay(d: Date)
    requires ValidDate(d) && d.year >= 100
    ensures ParseDeadline(DisplayDate(d)) == At(Moment(d, 23 * 60 + 59))
  {
    var shown := DisplayDate(d);
    assert Split(shown, ' ') == [shown] by {
      NoSeparators(d);
      SplitFirst(shown, ' ', []);
    }
    LabelFields(d, [], 23, 59);
    ParseByParts(shown, shown, [], [Pad2(d.day), Pad2(d.month), IntStr(d.year)]);
    LocalMomentExact(d, 23, 59);
  }

  /** The three pieces of a label are the numbers of its date. */
  lemma LabelFields(d: Date, time: string, hour: int, minute: int)
    requires ValidDate(d) && d.year >= 0
    requires TimeFields(time) == (Some(hour), Some(minute))
    ensures Split(DisplayDate(d), '/') == [Pad2(d.day), Pad2(d.month), IntStr(d.year)]
    ensures DeadlineOf(Some(Pad2(d.day)), Some(Pad2(d.month)), Some(IntStr(d.year)), time)
            == At(LocalMoment(d.year, d.month, d.day, hour, minute))
  {
    NoSeparators(d);
    SplitFields(Pad2(d.day), '/', Pad2(d.month), IntStr(d.year));
    ParseIntPad2(d.day);
    ParseIntPad2(d.month);
    ParseIntNatStr(d.year);
  }

  /** `parseDate` of a text through its date part and its time part. */
  lemma ParseByParts(s: string, datePart: string, timePart: string, parts: seq<string>)
    requires s != [] && Split(s, ' ')[0] == datePart && TimePart(Split(s, ' ')) == timePart
    requires Split(datePart, '/') == parts && |parts| == 3
    ensures ParseDeadline(s) == DeadlineOf(Some(parts[0]), Some(parts[1]), Some(parts[2]), timePart)
  {
  }

  /** The fields of a label are digits, so no separator occurs in them. */
  lemma NoSeparators(d: Date)
    requires ValidDate(d) && d.year >= 0
    ensures '/' !in Pad2(d.day) && '/' !in Pad2(d.month) && '/' !in IntStr(d.year)
    ensures ' ' !in DisplayDate(d)
  {
    assert AllDigits(Pad2(d.day)) && AllDigits(Pad2(d.month)) && AllDigits(IntStr(d.year));
    NotInJoin3(' ', Pad2(d.day), '/', Pad2(d.month), IntStr(d.year));
  }

  // ---------------------------------------------------------------------
  // overdueCount and the card's flag

  /** A deadline in the past; an invalid `Date` never compares earlier. */
  predicate Passed(dl: Deadline, now: Clock) {
    dl.At? && EarlierThan(dl.moment, now)
  }

  /** What the banner counts: a task not done whose deadline has passed. */
  predicate CountedOverdue(t: Task, now: Clock) {
    t.status != DONE && Passed(ParseDeadline(t.dueDate), now)
  }

  function OverdueTasks(tasks: seq<Task>, now: Clock): seq<Task> {
    Filter(tasks, (t: Task) => CountedOverdue(t, now))
  }

  /** `overdueCount`. */
  function OverdueCount(tasks: seq<Task>, now: Clock): nat {
    |OverdueTasks(tasks, now)|
  }

  /** The count is that of the tasks counted overdue, each as often as it
      occurs; a task done or without a date is never among them. */
  lemma OverdueCountSpec(tasks: seq<Task>, now: Clock, t: Task)
    ensures OverdueCount(tasks, now) <= |tasks|
    ensures multiset(OverdueTasks(tasks, now))[t] == (if CountedOverdue(t, now) then multiset(tasks)[t] else 0)
    ensures t in OverdueTasks(tasks, now) <==> t in tasks && t.status != DONE && Passed(ParseDeadline(t.dueDate), now)
    ensures t.status == DONE || t.dueDate == [] ==> t !in OverdueTasks(tasks, now)
  {
    var p := (t: Task) => CountedOverdue(t, now);
    FilterSpec(tasks, p);
    FilterCount(tasks, p, t);
  }

  /** The card's `isOverdue`: false when done or without a date; otherwise
      the first three `/` pieces, whatever their number, and the time make
      the deadline (a missing piece is NaN). */
  predicate CardOverdue(t: Task, isDone: bool, now: Clock) {
    if isDone || t.dueDate == [] then false
    else
      var pieces := Split(t.dueDate, ' ');
      var parts := Split(pieces[0], '/');
      Passed(DeadlineOf(Piece(parts, 0), Piece(parts, 1), Piece(parts, 2), TimePart(pieces)), now)
  }

  /** The card in a column (done only in the DONE column) flags what the
      banner counts, as long as the date part has at most three pieces; a
      done or undated card is never flagged. */
  lemma CardAgreesWithCount(t: Task, now: Clock)
    requires |Split(Split(t.dueDate, ' ')[0], '/')| <= 3
    ensures CardOverdue(t, t.status == DONE, now) == CountedOverdue(t, now)
    ensures t.dueDate == [] || t.status == DONE ==> !CardOverdue(t, t.status == DONE, now)
  {
  }

  /** With more than three pieces the card still reads the first three and
      can be flagged while the banner does not count the task. */
  lemma CardFlagsUncounted(t: Task, now: Clock)
    requires t.status != DONE && t.dueDate != []
    requires var parts := Split(Split(t.dueDate, ' ')[0], '/');
             |parts| > 3 &&
             Passed(DeadlineOf(Some(parts[0]), Some(parts[1]), Some(parts[2]), TimePart(Split(t.dueDate, ' '))), now)
    ensures CardOverdue(t, false, now) && !CountedOverdue(t, now)
  {
  }

  // ---------------------------------------------------------------------
  // filteredTasks and the columns

  /** `filteredTasks`: every task for `'all'`, else those of the subject. */
  function FilteredTasks(tasks: seq<Task>, activeSubject: string): seq<Task> {
    if activeSubject == "all" then tasks else Filter(tasks, (t: Task) => t.subjectId == activeSubject)
  }

  /** `'all'` shows the list as it is; a subject shows exactly its tasks,
      each as often as in the list. */
  lemma FilteredTasksSpec(tasks: seq<Task>, activeSubject: string, t: Task)
    ensures activeSubject == "all" ==> FilteredTasks(tasks, activeSubject) == tasks
    ensures activeSubject != "all" ==>
            && (t in FilteredTasks(tasks, activeSubject) <==> t in tasks && t.subjectId == activeSubject)
            && multiset(FilteredTasks(tasks, activeSubject))[t]
               == (if t.subjectId == activeSubject then multiset(tasks)[t] else 0)
  {
    if activeSubject != "all" {
      var p := (t: Task) => t.subjectId == activeSubject;
      FilterSpec(tasks, p);
      FilterCount(tasks, p, t);
    }
  }

  /** A column: the tasks with one status, in list order. */
  function Column(tasks: seq<Task>, status: TaskStatus): seq<Task> {
    Filter(tasks, (t: Task) => t.status == status)
  }

  /** The three columns split the list: together they hold every task as
      often as the list does, so their counts add up to its length. */
  lemma ColumnsPartition(tasks: seq<Task>)
    ensures multiset(Column(tasks, TODO)) + multiset(Column(tasks, DOING)) + multiset(Column(tasks, DONE))
            == multiset(tasks)
    ensures |Column(tasks, TODO)| + |Column(tasks, DOING)| + |Column(tasks, DONE)| == |tasks|
  {
    var all := multiset(Column(tasks, TODO)) + multiset(Column(tasks, DOING)) + multiset(Column(tasks, DONE));
    forall t: Task
      ensures all[t] == multiset(tasks)[t]
    {
      FilterCount(tasks, (t: Task) => t.status == TODO, t);
      FilterCount(tasks, (t: Task) => t.status == DOING, t);
      FilterCount(tasks, (t: Task) => t.status == DONE, t);
    }
    assert all == multiset(tasks);
    assert |all| == |tasks|;
  }

  // ---------------------------------------------------------------------
  // The task form

  /** The form's fields. */
  datatype TaskForm = TaskForm(title: string, subjectId: string, priority: Priority, dueDate: string)

  /** The subject the form starts with: the board's subject unless it shows
      all subjects (or the id is empty), otherwise the first subject, and
      none when there is no subject. */
  function DefaultSubject(activeSubject: string, subjects: seq<Subject>): (r: Option<string>)
    ensures activeSubject != "all" && activeSubject != [] ==> r == Some(activeSubject)
    ensures (activeSubject == "all" || activeSubject == []) && subjects != [] ==> r == Some(subjects[0].id)
    ensures (activeSubject == "all" || activeSubject == []) && subjects == [] ==> r == None
  {
    var given := if activeSubject != "all" then activeSubject else [];
    if given != [] then Some(given)
    else if subjects != [] then Some(subjects[0].id)
    else None
  }

  /** The task a new form creates: the form's fields under the new id, in
      the TODO column, not completed, at progress 0. Its subject and
      deadline sit under the form's keys `subject_id` and `due_date`. */
  function NewTask(id: string, f: TaskForm): (t: Task)
    ensures t.id == id && t.title == f.title && t.subjectId == f.subjectId
    ensures t.priority == f.priority && t.dueDate == f.dueDate
    ensures t.status == TODO && !t.completed && t.progress == 0
    ensures StatusConsistent(t)
    ensures t.keys == ModalKeys
  {
    Task(id, f.title, f.subjectId, f.priority, f.dueDate, TODO, false, 0, None, ModalKeys)
  }

  /** `addTask` puts the new task first in the list, so it is first in the
      TODO column, and the other two columns stay as they were. */
  lemma NewTaskLandsInTodo(tasks: seq<Task>, id: string, f: TaskForm)
    ensures Column([NewTask(id, f)] + tasks, TODO) == [NewTask(id, f)] + Column(tasks, TODO)
    ensures Column([NewTask(id, f)] + tasks, DOING) == Column(tasks, DOING)
    ensures Column([NewTask(id, f)] + tasks, DONE) == Column(tasks, DONE)
  {
    var all := [NewTask(id, f)] + tasks;
    assert all[0] == NewTask(id, f) && all[1..] == tasks;
  }
}
