/** The dashboard's performance card: for a chosen day, the tasks due that
    day, how many of them are done and the minutes studied, shown as a
    percent and as hours and minutes; the buttons that move the day; and
    the streak check made on entry. "Now" is a parameter. */
module Dashboard {
  import opened Wrappers
  import opened Text
  import opened Dates
  import opened Types
  import opened DataStore
  import AuthStore
  import CalendarPicker

  // ---------------------------------------------------------------------
  // Labels and keys

  /** `getFormattedDate` builds the same `DD/MM/YYYY` text as `DisplayDate`:
      for a four-digit year ten characters, `/` at 2 and 5, no space, and
      splitting on `/` gives the padded day, the padded month and the year. */
  lemma FormattedDateShape(d: Date)
    requires ValidDate(d) && 1000 <= d.year <= 9999
    ensures |DisplayDate(d)| == 10 && DisplayDate(d)[2] == '/' && DisplayDate(d)[5] == '/'
    ensures ' ' !in DisplayDate(d)
    ensures Split(DisplayDate(d), '/') == [Pad2(d.day), Pad2(d.month), IntStr(d.year)]
  {
    NatStrFourDigits(d.year);
    Join3Shape(Pad2(d.day), '/', Pad2(d.month), IntStr(d.year));
    AuthStore.DigitsNoSeparator(Pad2(d.day));
    AuthStore.DigitsNoSeparator(Pad2(d.month));
    AuthStore.DigitsNoSeparator(IntStr(d.year));
    SplitFields(Pad2(d.day), '/', Pad2(d.month), IntStr(d.year));
  }

  /** `getLocalDateKey`: the year, the padded month and the padded day,
      joined by `-`. */
  function LocalDateKey(d: Date): string
    requires ValidDate(d)
  {
    IntStr(d.year) + "-" + Pad2(d.month) + "-" + Pad2(d.day)
  }

  /** The dashboard's key is the streak engine's key of the same day, so the
      minutes it reads are the ones `trackStudyTime` records. */
  lemma LocalDateKeyIsTodayKey(d: Date)
    requires ValidDate(d)
    ensures LocalDateKey(d) == AuthStore.TodayLocalISO(d)
  {
    DashJoin(IntStr(d.year), Pad2(d.month), Pad2(d.day));
  }

  lemma DashJoin(y: string, m: string, dd: string)
    ensures y + "-" + m + "-" + dd == Join3(y, '-', m, dd)
  {
    assert y + "-" + m + "-" + dd == y + ("-" + (m + ("-" + dd)));
  }

  // ---------------------------------------------------------------------
  // stats

  /** The due-date text before the first space is the label. */
  predicate DueOnLabel(t: Task, dayLabel: string) {
    Split(t.dueDate, ' ')[0] == dayLabel
  }

  datatype Stats = Stats(totalTasks: nat, completedTasks: nat, totalMinutes: int, dailyTasks: seq<Task>)

  /** `stats` for the chosen day: the tasks due on its `DD/MM/YYYY` label,
      how many of them are done, and the study minutes under its key (0 when
      there is no user or no entry). */
  function DayStats(tasks: seq<Task>, user: Option<UserProfile>, day: Date): (r: Stats)
    requires ValidDate(day)
    ensures r.totalTasks == |r.dailyTasks| && r.completedTasks <= r.totalTasks
  {
    var daily := Filter(tasks, (t: Task) => DueOnLabel(t, DisplayDate(day)));
    var key := LocalDateKey(day);
    var minutes := if user.Some? && key in user.value.studySessions then user.value.studySessions[key] else 0;
    Stats(|daily|, |Filter(daily, (t: Task) => t.status == DONE)|, minutes, daily)
  }

  /** The day's tasks are exactly the tasks due on its label, each as often
      as in the list; the completed count is the number of those that are
      done. */
  lemma DayStatsSpec(tasks: seq<Task>, user: Option<UserProfile>, day: Date, t: Task)
    requires ValidDate(day)
    ensures var r := DayStats(tasks, user, day);
            && (t in r.dailyTasks <==> t in tasks && DueOnLabel(t, DisplayDate(day)))
            && multiset(r.dailyTasks)[t] == (if DueOnLabel(t, DisplayDate(day)) then multiset(tasks)[t] else 0)
            && (forall i :: 0 <= i < |r.dailyTasks| ==> DueOnLabel(r.dailyTasks[i], DisplayDate(day)))
  {
    var p := (t: Task) => DueOnLabel(t, DisplayDate(day));
    FilterSpec(tasks, p);
    FilterCount(tasks, p, t);
  }

  /** A task whose due date was set by the date picker, with or without a
      time, is counted on that day. */
  lemma PickedTaskCounted(t: Task, d: Date, hour: int, minute: int)
    requires ValidDate(d) && d.year >= 0
    requires t.dueDate == DisplayDate(d) || t.dueDate == CalendarPicker.ConfirmText(d, hour, minute)
    ensures DueOnLabel(t, DisplayDate(d))
  {
    DisplayDateNoSpace(d);
    DueOnPickedText(t, DisplayDate(d), Pad2(hour) + ":" + Pad2(minute));
  }

  lemma DisplayDateNoSpace(d: Date)
    requires ValidDate(d) && d.year >= 0
    ensures ' ' !in DisplayDate(d)
  {
    AuthStore.DigitsNoSeparator(Pad2(d.day));
    AuthStore.DigitsNoSeparator(Pad2(d.month));
    AuthStore.DigitsNoSeparator(IntStr(d.year));
    NotInJoin3(' ', Pad2(d.day), '/', Pad2(d.month), IntStr(d.year));
  }

  /** A due date that is a label without spaces, alone or followed by a
      space and a time, is due on that label. */
  lemma DueOnPickedText(t: Task, dayLabel: string, time: string)
    requires ' ' !in dayLabel
    requires t.dueDate == dayLabel || t.dueDate == dayLabel + " " + time
    ensures DueOnLabel(t, dayLabel)
  {
    if t.dueDate == dayLabel {
      AuthStore.DatePartOf(dayLabel, []);
      assert dayLabel + [] == dayLabel;
    } else {
      AuthStore.DatePartOf(dayLabel, " " + time);
      assert dayLabel + " " + time == dayLabel + (" " + time);
    }
  }

  /** The minutes shown for a day are what `trackStudyTime` added on that
      day: tracking `m` more minutes today raises today's total by `m`. */
  lemma TrackedMinutesShown(s: AuthStore.Session, tasks: seq<Task>, minutes: int, now: Date, writeOk: bool)
    requires ValidDate(now) && s.user.Some?
    ensures DayStats(tasks, AuthStore.TrackStep(s, minutes, AuthStore.TodayLocalISO(now), writeOk).user, now).totalMinutes
            == DayStats(tasks, s.user, now).totalMinutes + minutes
  {
    LocalDateKeyIsTodayKey(now);
    AuthStore.TrackRule(s, minutes, 0, AuthStore.TodayLocalISO(now), writeOk);
  }

  // ---------------------------------------------------------------------
  // Display arithmetic

  /** `Math.round(done / total * 100)` with 0 for no tasks: the integer
      nearest to the share, a half rounded up. */
  function Percent(done: nat, total: nat): (r: nat)
    ensures total == 0 ==> r == 0
    ensures total > 0 ==> r * 2 * total <= 200 * done + total < (r + 1) * 2 * total
  {
    if total == 0 then 0 else (200 * done + total) / (2 * total)
  }

  /** The shown percent lies in 0 … 100, is 0 with nothing done and 100 with
      everything done. */
  lemma PercentBounds(done: nat, total: nat)
    requires done <= total
    ensures Percent(done, total) <= 100
    ensures done == 0 ==> Percent(done, total) == 0
    ensures 0 < total && done == total ==> Percent(done, total) == 100
  {
    if total > 0 {
      var r, a, t := Percent(done, total), 200 * done + total, 2 * total;
      assert r * t <= a < (r + 1) * t;
      assert a < 101 * t;
      CancelFactor(r, 101, t);
      if done == 0 {
        assert a < 1 * t;
        CancelFactor(r, 1, t);
      }
      if done == total {
        assert 201 * total < (2 * r + 2) * total;
        CancelFactor(201, 2 * r + 2, total);
      }
    }
  }

  /** Helper for the percent rounding. */
  lemma CancelFactor(x: int, y: int, c: int)
    requires c > 0 && x * c < y * c
    ensures x < y
  {
  }

  /** `Math.floor(m / 60)` hours and `m % 60` minutes; JavaScript's
      remainder takes the sign of `m`. */
  function StudyTime(m: int): (r: (int, int))
    ensures m >= 0 ==> 0 <= r.1 < 60 && 60 * r.0 + r.1 == m
    ensures m < 0 ==> -60 < r.1 <= 0
  {
    (m / 60, if m >= 0 then m % 60 else -((-m) % 60))
  }

  // ---------------------------------------------------------------------
  // Moving the day

  /** `isFuture`: the chosen moment is past the last millisecond of today,
      that is, its day comes after today. */
  predicate IsFuture(day: Date, today: Date) {
    Before(today, day)
  }

  /** Starting from today, the card shows a forecast exactly after moving
      forward. */
  lemma FutureIffForward(today: Date, days: int)
    requires ValidDate(today)
    ensures IsFuture(ShiftDays(today, days), today) <==> days > 0
  {
    ShiftOrder(today, days);
  }

  // ---------------------------------------------------------------------
  // The streak check on entry

  /** The effect run on entry: `checkStreakValidity(tasks)`, only when there
      is at least one task. */
  function EntryCheck(s: AuthStore.Session, tasks: seq<Task>, todayISO: string, yesterdayISO: string,
                      now: Date, writeOk: bool): (r: AuthStore.Session)
    ensures tasks == [] ==> r == s
    ensures tasks != [] ==> r == AuthStore.CheckStep(s, tasks, todayISO, yesterdayISO, now, writeOk)
  {
    if |tasks| > 0 then AuthStore.CheckStep(s, tasks, todayISO, yesterdayISO, now, writeOk) else s
  }

  /** With no tasks the dashboard keeps a streak the check itself would
      reset for a missed day. */
  lemma EntryCheckSkipsMissedDay(s: AuthStore.Session, todayISO: string, yesterdayISO: string, now: Date)
    requires s.user.Some?
    requires AuthStore.MissedDay(s.user.value, todayISO, yesterdayISO)
    ensures EntryCheck(s, [], todayISO, yesterdayISO, now, true) == s
    ensures AuthStore.CheckStep(s, [], todayISO, yesterdayISO, now, true) != s
  {
  }
}
