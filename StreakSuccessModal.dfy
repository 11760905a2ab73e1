/** The modal that celebrates a completed day. It opens once per day, when
    the profile records today as the last completed day, and it tells how
    many tasks were due today. Today's date is a parameter. */
module StreakSuccessModal {
  import opened Wrappers
  import opened Text
  import opened Dates
  import opened Types
  import opened DataStore
  import AuthStore
  import Dashboard

  /** The effect's condition: the profile's last completed day is today and
      the modal has not been shown today. */
  predicate ShouldOpen(user: Option<UserProfile>, shown: Option<string>, todayISO: string) {
    user.Some? && user.value.lastCompletedDate == Some(todayISO) && shown != Some(todayISO)
  }

  /** A completion recorded today by `incrementStreak` opens the modal,
      unless it was already shown today. */
  lemma CompletionOpensModal(s: AuthStore.Session, todayISO: string, yesterdayISO: string, shown: Option<string>)
    requires s.user.Some? && s.remote.Some? && s.remote.value.lastCompletedDate != Some(todayISO)
    ensures ShouldOpen(AuthStore.IncrementStep(s, todayISO, yesterdayISO, true).user, shown, todayISO)
            <==> shown != Some(todayISO)
  {
    AuthStore.IncrementRule(s, todayISO, yesterdayISO, true);
  }

  /** Today's tasks: a due date whose text before the first space is
      today's label. */
  predicate DueToday(t: Task, today: Date)
    requires ValidDate(today)
  {
    t.dueDate != [] && Split(t.dueDate, ' ')[0] == DisplayDate(today)
  }

  function TodayTasks(tasks: seq<Task>, today: Date): seq<Task>
    requires ValidDate(today)
  {
    Filter(tasks, (t: Task) => DueToday(t, today))
  }

  /** `todayTaskCount`. */
  function TodayTaskCount(tasks: seq<Task>, today: Date): nat
    requires ValidDate(today)
  {
    |TodayTasks(tasks, today)|
  }

  /** The count covers exactly the tasks due today, each as often as it
      occurs in the list. */
  lemma TodayTaskCountSpec(tasks: seq<Task>, today: Date, t: Task)
    requires ValidDate(today)
    ensures TodayTaskCount(tasks, today) <= |tasks|
    ensures t in TodayTasks(tasks, today) <==> t in tasks && DueToday(t, today)
    ensures multiset(TodayTasks(tasks, today))[t] == (if DueToday(t, today) then multiset(tasks)[t] else 0)
  {
    var p := (t: Task) => DueToday(t, today);
    FilterSpec(tasks, p);
    FilterCount(tasks, p, t);
  }

  /** The modal counts the same tasks as the dashboard's card for today. */
  lemma TodayCountMatchesDashboard(tasks: seq<Task>, user: Option<UserProfile>, today: Date)
    requires ValidDate(today)
    ensures TodayTasks(tasks, today) == Dashboard.DayStats(tasks, user, today).dailyTasks
    ensures TodayTaskCount(tasks, today) == Dashboard.DayStats(tasks, user, today).totalTasks
  {
    var p := (t: Task) => DueToday(t, today);
    var q := (t: Task) => Dashboard.DueOnLabel(t, DisplayDate(today));
    assert |DisplayDate(today)| > 0;
    forall i | 0 <= i < |tasks|
      ensures p(tasks[i]) == q(tasks[i])
    {
      if tasks[i].dueDate == [] {
        assert Split(tasks[i].dueDate, ' ') == [[]];
      }
    }
    FilterCongruent(tasks, p, q);
  }

  class Modal {
    var isOpen: bool
    const data: DataState

    constructor (data: DataState)
      ensures this.data == data && !isOpen
    {
      this.data := data;
      isOpen := false;
    }

    /** The effect: when the condition holds, record today as the shown
        date and open; otherwise nothing changes. Afterwards the condition
        fails, so it opens at most once for a day. */
    method Effect(user: Option<UserProfile>, todayISO: string)
      modifies this`isOpen, data`hasShownStreakSuccessToday
      ensures old(ShouldOpen(user, data.hasShownStreakSuccessToday, todayISO))
              ==> isOpen && data.hasShownStreakSuccessToday == Some(todayISO)
      ensures !old(ShouldOpen(user, data.hasShownStreakSuccessToday, todayISO))
              ==> isOpen == old(isOpen) && data.hasShownStreakSuccessToday == old(data.hasShownStreakSuccessToday)
      ensures !ShouldOpen(user, data.hasShownStreakSuccessToday, todayISO)
    {
      if ShouldOpen(user, data.hasShownStreakSuccessToday, todayISO) {
        data.SetStreakShownToday(todayISO);
        isOpen := true;
      }
    }

    /** The button closes the modal and changes nothing else. */
    method Close()
      modifies this`isOpen
      ensures !isOpen
    {
      isOpen := false;
    }
  }
}
