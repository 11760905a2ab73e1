/** The study-streak engine of the authentication store: the `YYYY-MM-DD`
    keys of today and yesterday, the conversion of `DD/MM/YYYY HH:mm` due
    dates to `YYYY-MM-DD`, and the profile actions that read and write the
    streak, the last completion date and the per-day study minutes.

    The remote profile row is the field `remote` (None when it cannot be
    read). Every write to it is a parameter `writeOk`: true when the database
    reports no error. "Now" is the local calendar date, a parameter. */
module AuthStore {
  import opened Wrappers
  import opened Text
  import opened Dates
  import opened Types

  // ---------------------------------------------------------------------
  // Date keys

  /** `getTodayLocalISO`. */
  function TodayLocalISO(now: Date): string
    requires ValidDate(now)
  {
    IsoKey(now)
  }

  /** `getYesterdayLocalISO`: the key of the day before. */
  function YesterdayLocalISO(now: Date): string
    requires ValidDate(now)
  {
    IsoKey(PrevDay(now))
  }

  /** For a four-digit year both keys have ten characters, name the intended
      dates, differ from each other, and yesterday's sorts first. */
  lemma DateKeys(now: Date)
    requires ValidDate(now) && 1001 <= now.year <= 9999
    ensures |TodayLocalISO(now)| == 10 && |YesterdayLocalISO(now)| == 10
    ensures ParseDateKey(TodayLocalISO(now)) == Some(now)
    ensures ParseDateKey(YesterdayLocalISO(now)) == Some(PrevDay(now))
    ensures YesterdayLocalISO(now) != TodayLocalISO(now)
    ensures LexLess(YesterdayLocalISO(now), TodayLocalISO(now))
  {
    IsoKeyShape(now);
    IsoKeyShape(PrevDay(now));
    ParseIsoKey(now);
    ParseIsoKey(PrevDay(now));
    IsoKeyOrder(PrevDay(now), now);
  }

  // ---------------------------------------------------------------------
  // normalizeToISO

  /** `normalizeToISO`: the text before the first space, split on `/`; three
      pieces D, M, Y give `Y-M-D`, anything else (and the empty string)
      gives None. The pieces are not checked. */
  function NormalizeToISO(s: string): Option<string> {
    if s == [] then None
    else
      var datePart := Split(s, ' ')[0];
      var parts := Split(datePart, '/');
      if |parts| != 3 then None else Some(Join3(parts[2], '-', parts[1], parts[0]))
  }

  /** None exactly for the empty string and for a date part that does not
      hold exactly two `/`. */
  lemma NormalizeNone(s: string)
    ensures NormalizeToISO(s) == None <==> s == [] || CountChar(Split(s, ' ')[0], '/') != 2
  {
    if s != [] {
      SplitLength(Split(s, ' ')[0], '/');
    }
  }

  /** The date part is the text up to the first space. */
  lemma DatePartOf(datePart: string, rest: string)
    requires ' ' !in datePart
    requires rest == [] || rest[0] == ' '
    ensures Split(datePart + rest, ' ')[0] == datePart
  {
    if rest == [] {
      assert datePart + rest == datePart;
    } else {
      assert datePart + rest == datePart + [' '] + rest[1..];
      SplitFirst(datePart, ' ', rest[1..]);
    }
  }

  /** `"D/M/Y rest"` becomes `"Y-M-D"`: the pieces are reordered and what
      follows the first space is ignored. */
  lemma NormalizeReorders(d: string, m: string, y: string, rest: string)
    requires '/' !in d && '/' !in m && '/' !in y
    requires ' ' !in d && ' ' !in m && ' ' !in y
    requires rest == [] || rest[0] == ' '
    ensures NormalizeToISO(Join3(d, '/', m, y) + rest) == Some(Join3(y, '-', m, d))
  {
    var datePart := Join3(d, '/', m, y);
    assert ' ' !in datePart;
    DatePartOf(datePart, rest);
    SplitFields(d, '/', m, y);
    assert (datePart + rest)[|d|] == '/';
  }

  /** A `DD/MM/YYYY` label, with or without a time after a space, becomes the
      `YYYY-MM-DD` key of the same date. */
  lemma NormalizeDisplayDate(date: Date, rest: string)
    requires ValidDate(date) && date.year >= 0
    requires rest == [] || rest[0] == ' '
    ensures NormalizeToISO(DisplayDate(date) + rest) == Some(IsoKey(date))
  {
    DigitsNoSeparator(Pad2(date.day));
    DigitsNoSeparator(Pad2(date.month));
    DigitsNoSeparator(IntStr(date.year));
    NormalizeReorders(Pad2(date.day), Pad2(date.month), IntStr(date.year), rest);
  }

  /** Helper for the key normalisation. */
  lemma DigitsNoSeparator(s: string)
    requires AllDigits(s)
    ensures '/' !in s && ' ' !in s && '-' !in s
  {
  }

  // ---------------------------------------------------------------------
  // The profile, local and remote

  /** The columns of the remote profile row that the streak actions use. */
  datatype RemoteProfile = RemoteProfile(
    streak: Option<int>, lastCompletedDate: Option<string>, studySessions: map<string, int>)

  /** What the store's actions read and write: the local user and the row. */
  datatype Session = Session(user: Option<UserProfile>, remote: Option<RemoteProfile>)

  /** The keys of a `Partial<UserProfile>` passed to `updateProfile`; None is
      a key that is absent. */
  datatype ProfileUpdate = ProfileUpdate(
    name: Option<string>,
    avatarUrl: Option<string>,
    status: Option<string>,
    studySessions: Option<map<string, int>>)

  const NoUpdate := ProfileUpdate(None, None, None, None)

  /** `{ ...user, ...updates }`. */
  function Merge(u: UserProfile, p: ProfileUpdate): UserProfile {
    u.(name := p.name.GetOr(u.name),
       avatarUrl := p.avatarUrl.GetOr(u.avatarUrl),
       status := if p.status.Some? then p.status else u.status,
       studySessions := p.studySessions.GetOr(u.studySessions))
  }

  /** `{ ...p, ...q }` of two updates: a key of `q` wins. */
  function Combine(p: ProfileUpdate, q: ProfileUpdate): ProfileUpdate {
    ProfileUpdate(
      if q.name.Some? then q.name else p.name,
      if q.avatarUrl.Some? then q.avatarUrl else p.avatarUrl,
      if q.status.Some? then q.status else p.status,
      if q.studySessions.Some? then q.studySessions else p.studySessions)
  }

  /** Merging nothing changes nothing; merging the same update twice is
      merging it once; two merges in a row are one merge of the combination. */
  lemma MergeLaws(u: UserProfile, p: ProfileUpdate, q: ProfileUpdate)
    ensures Merge(u, NoUpdate) == u
    ensures Merge(Merge(u, p), p) == Merge(u, p)
    ensures Merge(Merge(u, p), q) == Merge(u, Combine(p, q))
    ensures Merge(u, p).id == u.id && Merge(u, p).streak == u.streak
    ensures Merge(u, p).lastCompletedDate == u.lastCompletedDate
  {
  }

  /** The write `update(updates).eq('id', …)` on the columns modelled here. */
  function WriteUpdate(row: RemoteProfile, p: ProfileUpdate): RemoteProfile {
    row.(studySessions := p.studySessions.GetOr(row.studySessions))
  }

  /** `updateProfile`: with a user, the local profile takes the update at
      once, whatever the write reports; the row takes it when the write
      succeeds. */
  function UpdateStep(s: Session, p: ProfileUpdate, writeOk: bool): (r: Session)
    ensures s.user.None? ==> r == s
    ensures s.user.Some? ==> r.user == Some(Merge(s.user.value, p))
    ensures r.remote == if s.user.Some? && s.remote.Some? && writeOk
                        then Some(WriteUpdate(s.remote.value, p)) else s.remote
  {
    if s.user.None? then s
    else
      Session(Some(Merge(s.user.value, p)),
              if writeOk && s.remote.Some? then Some(WriteUpdate(s.remote.value, p)) else s.remote)
  }

  // ---------------------------------------------------------------------
  // incrementStreak

  /** `Number(streak) || 0`. */
  function StreakNumber(streak: Option<int>): int {
    streak.GetOr(0)
  }

  /** `incrementStreak`, given today's and yesterday's keys: nothing without
      a user or a readable row, nothing when the row's last completion is
      today; otherwise the new streak is one more than the row's when the
      last completion was yesterday and 0 in every other case, and row and
      user take it with today's key, both only when the write succeeds. */
  function IncrementStep(s: Session, todayISO: string, yesterdayISO: string, writeOk: bool): Session {
    if s.user.None? || s.remote.None? then s
    else
      var db := s.remote.value;
      if db.lastCompletedDate == Some(todayISO) then s
      else
        var newStreak :=
          if db.lastCompletedDate == Some(yesterdayISO) then StreakNumber(db.streak) + 1 else 0;
        if !writeOk then s
        else
          Session(Some(s.user.value.(streak := Some(newStreak), lastCompletedDate := Some(todayISO))),
                  Some(db.(streak := Some(newStreak), lastCompletedDate := Some(todayISO))))
  }

  /** The outcome rule: a failed write or a completion already recorded
      today changes nothing; a successful one sets both streaks to (row's
      streak + 1) after a completion yesterday and to 0 otherwise, records
      today on both, and changes no other field. */
  lemma IncrementRule(s: Session, todayISO: string, yesterdayISO: string, writeOk: bool)
    ensures !writeOk ==> IncrementStep(s, todayISO, yesterdayISO, writeOk) == s
    ensures s.user.Some? && s.remote.Some? && s.remote.value.lastCompletedDate == Some(todayISO)
            ==> IncrementStep(s, todayISO, yesterdayISO, writeOk) == s
    ensures s.user.Some? && s.remote.Some? && s.remote.value.lastCompletedDate != Some(todayISO) && writeOk
            ==> var k := if s.remote.value.lastCompletedDate == Some(yesterdayISO)
                         then StreakNumber(s.remote.value.streak) + 1 else 0;
                var r := IncrementStep(s, todayISO, yesterdayISO, writeOk);
                && r.user == Some(s.user.value.(streak := Some(k), lastCompletedDate := Some(todayISO)))
                && r.remote == Some(s.remote.value.(streak := Some(k), lastCompletedDate := Some(todayISO)))
  {
  }

  /** Incrementing twice on the same day is incrementing once. */
  lemma IncrementIdempotent(s: Session, todayISO: string, yesterdayISO: string, writeOk: bool)
    ensures IncrementStep(IncrementStep(s, todayISO, yesterdayISO, true), todayISO, yesterdayISO, writeOk)
            == IncrementStep(s, todayISO, yesterdayISO, true)
  {
  }

  /** Completing on two consecutive days, the first one day after the last
      recorded completion, adds two to the streak. The keys of yesterday,
      today and tomorrow are `k0`, `k1`, `k2`; consecutive keys differ
      (see `DateKeys`). */
  lemma IncrementConsecutive(s: Session, k0: string, k1: string, k2: string)
    requires k0 != k1 && k1 != k2
    requires s.user.Some? && s.remote.Some?
    requires s.remote.value.lastCompletedDate == Some(k0)
    ensures var r := IncrementStep(IncrementStep(s, k1, k0, true), k2, k1, true);
            && r.remote.Some? && r.remote.value.streak == Some(StreakNumber(s.remote.value.streak) + 2)
            && r.user.Some? && r.user.value.streak == r.remote.value.streak
            && r.remote.value.lastCompletedDate == Some(k2)
  {
  }

  /** Tomorrow's "yesterday" key is today's key, and the keys of yesterday,
      today and tomorrow are pairwise different from their neighbours: the
      three keys `IncrementConsecutive` needs. */
  lemma ConsecutiveKeys(now: Date)
    requires ValidDate(now) && 1001 <= now.year <= 9998
    ensures YesterdayLocalISO(now) != TodayLocalISO(now)
    ensures YesterdayLocalISO(NextDay(now)) == TodayLocalISO(now)
    ensures TodayLocalISO(NextDay(now)) != TodayLocalISO(now)
  {
    var y, t := PrevDay(now), NextDay(now);
    assert y.year >= now.year - 1 && t.year <= now.year + 1;
    IsoKeyInjective(y, now);
    NextPrevInverse(now);
    IsoKeyInjective(t, now);
  }

  // ---------------------------------------------------------------------
  // resetStreak

  /** `resetStreak`: nothing without a user or when the user's streak is
      already 0; otherwise a successful write sets the streak of user and
      row to 0; the last completion date is not written. */
  function ResetStep(s: Session, writeOk: bool): Session {
    if s.user.None? || s.user.value.streak == Some(0) || !writeOk then s
    else
      Session(Some(s.user.value.(streak := Some(0))),
              if s.remote.Some? then Some(s.remote.value.(streak := Some(0))) else None)
  }

  /** A reset changes the streak and nothing else, leaves the last completion
      dates alone, and a second reset changes nothing. */
  lemma ResetRule(s: Session, writeOk: bool, writeOk2: bool)
    ensures s.user.None? || s.user.value.streak == Some(0) || !writeOk ==> ResetStep(s, writeOk) == s
    ensures s.user.Some? && writeOk
            ==> && ResetStep(s, writeOk).user == Some(s.user.value.(streak := Some(0)))
                && ResetStep(s, writeOk).user.value.lastCompletedDate == s.user.value.lastCompletedDate
    ensures s.user.Some? && s.remote.Some? && s.user.value.streak != Some(0) && writeOk
            ==> ResetStep(s, writeOk).remote == Some(s.remote.value.(streak := Some(0)))
    ensures ResetStep(ResetStep(s, true), writeOk2) == ResetStep(s, true)
  {
  }

  // ---------------------------------------------------------------------
  // checkStreakValidity

  /** `!!s` for a string that may be null: present and not empty. */
  predicate Truthy(s: Option<string>) {
    s.Some? && s.value != []
  }

  /** `user.streak > 0`; an absent streak compares false. */
  predicate PositiveStreak(u: UserProfile) {
    u.streak.Some? && u.streak.value > 0
  }

  /** The test `tasks.some(…)` applies: not done, a due date whose
      `normalizeToISO` form is a date, and that date before today. */
  predicate IsUnfinishedOverdue(t: Task, now: Date) {
    t.status != DONE
    && match NormalizeToISO(t.dueDate)
       case None => false
       case Some(iso) =>
         match ParseDateKey(iso)
         case None => false
         case Some(d) => Before(d, now)
  }

  /** `tasks.some(isUnfinishedOverdue)`. */
  function HasUnfinishedOverdueTask(tasks: seq<Task>, now: Date): bool {
    if tasks == [] then false
    else IsUnfinishedOverdue(tasks[0], now) || HasUnfinishedOverdueTask(tasks[1..], now)
  }

  lemma {:induction false} HasUnfinishedOverdueTaskIff(tasks: seq<Task>, now: Date)
    ensures HasUnfinishedOverdueTask(tasks, now)
            <==> exists i :: 0 <= i < |tasks| && IsUnfinishedOverdue(tasks[i], now)
  {
    if tasks != [] {
      HasUnfinishedOverdueTaskIff(tasks[1..], now);
      if exists i :: 0 <= i < |tasks| && IsUnfinishedOverdue(tasks[i], now) {
        var i :| 0 <= i < |tasks| && IsUnfinishedOverdue(tasks[i], now);
        if i > 0 { assert tasks[1..][i - 1] == tasks[i]; }
      }
      if HasUnfinishedOverdueTask(tasks[1..], now) {
        var i :| 0 <= i < |tasks[1..]| && IsUnfinishedOverdue(tasks[1..][i], now);
        assert tasks[i + 1] == tasks[1..][i];
      }
    }
  }

  /** The first test: a recorded last completion that is neither today nor
      yesterday, with a positive streak. */
  predicate MissedDay(u: UserProfile, todayISO: string, yesterdayISO: string) {
    Truthy(u.lastCompletedDate)
    && u.lastCompletedDate.value != todayISO
    && u.lastCompletedDate.value != yesterdayISO
    && PositiveStreak(u)
  }

  /** `checkStreakValidity`: reset on a missed day (without looking at the
      tasks), else reset when some unfinished task is overdue and the streak
      is positive. */
  function CheckStep(s: Session, tasks: seq<Task>, todayISO: string, yesterdayISO: string, now: Date, writeOk: bool): Session {
    if s.user.None? then s
    else if MissedDay(s.user.value, todayISO, yesterdayISO) then ResetStep(s, writeOk)
    else if HasUnfinishedOverdueTask(tasks, now) && PositiveStreak(s.user.value) then ResetStep(s, writeOk)
    else s
  }

  /** The check either leaves the session alone or resets, and resets exactly
      when the streak is positive and a day was missed or a task is overdue. */
  lemma CheckRule(s: Session, tasks: seq<Task>, todayISO: string, yesterdayISO: string, now: Date, writeOk: bool)
    ensures CheckStep(s, tasks, todayISO, yesterdayISO, now, writeOk) == ResetStep(s, writeOk)
            || CheckStep(s, tasks, todayISO, yesterdayISO, now, writeOk) == s
    ensures s.user.Some? && PositiveStreak(s.user.value) && writeOk
            ==> (CheckStep(s, tasks, todayISO, yesterdayISO, now, writeOk) != s
                 <==> MissedDay(s.user.value, todayISO, yesterdayISO)
                      || exists i :: 0 <= i < |tasks| && IsUnfinishedOverdue(tasks[i], now))
  {
    HasUnfinishedOverdueTaskIff(tasks, now);
  }

  /** Checking twice is checking once when the first check's write succeeds. */
  lemma CheckIdempotent(s: Session, tasks: seq<Task>, todayISO: string, yesterdayISO: string, now: Date, writeOk: bool)
    ensures CheckStep(CheckStep(s, tasks, todayISO, yesterdayISO, now, true), tasks, todayISO, yesterdayISO, now, writeOk)
            == CheckStep(s, tasks, todayISO, yesterdayISO, now, true)
  {
  }

  /** A task that is not an unfinished overdue one (it is done, its due date
      names no date, or that date is today or later) never changes the
      outcome of the check. */
  lemma {:induction false} CheckIgnoresTask(s: Session, tasks: seq<Task>, t: Task, todayISO: string, yesterdayISO: string, now: Date, writeOk: bool)
    requires !IsUnfinishedOverdue(t, now)
    ensures CheckStep(s, [t] + tasks, todayISO, yesterdayISO, now, writeOk) == CheckStep(s, tasks, todayISO, yesterdayISO, now, writeOk)
  {
    assert ([t] + tasks)[1..] == tasks;
  }

  /** A streak whose last completion is today or yesterday survives the
      check unless some unfinished task is overdue. */
  lemma CheckKeepsCurrentStreak(s: Session, tasks: seq<Task>, todayISO: string, yesterdayISO: string, now: Date, writeOk: bool)
    requires s.user.Some?
    requires s.user.value.lastCompletedDate == Some(todayISO)
             || s.user.value.lastCompletedDate == Some(yesterdayISO)
    requires forall i :: 0 <= i < |tasks| ==> !IsUnfinishedOverdue(tasks[i], now)
    ensures CheckStep(s, tasks, todayISO, yesterdayISO, now, writeOk) == s
  {
    HasUnfinishedOverdueTaskIff(tasks, now);
  }

  // ---------------------------------------------------------------------
  // trackStudyTime

  /** `sessions[key] = (sessions[key] || 0) + minutes`. */
  function AddMinutes(sessions: map<string, int>, key: string, minutes: int): (r: map<string, int>)
    ensures key in r && r[key] == (if key in sessions then sessions[key] else 0) + minutes
    ensures forall k :: k != key ==> (k in r <==> k in sessions) && (k in r ==> r[k] == sessions[k])
  {
    sessions[key := (if key in sessions then sessions[key] else 0) + minutes]
  }

  /** `trackStudyTime`: add the minutes to today's entry through
      `updateProfile`. */
  function TrackStep(s: Session, minutes: int, todayISO: string, writeOk: bool): Session {
    if s.user.None? then s
    else
      var sessions := AddMinutes(s.user.value.studySessions, todayISO, minutes);
      UpdateStep(s, NoUpdate.(studySessions := Some(sessions)), writeOk)
  }

  /** Tracking changes only today's entry of the local profile, and two
      trackings on one day add up. */
  lemma TrackRule(s: Session, a: int, b: int, todayISO: string, writeOk: bool)
    requires s.user.Some?
    ensures var u := TrackStep(s, a, todayISO, writeOk).user.value;
            && u == s.user.value.(studySessions := u.studySessions)
            && u.studySessions == AddMinutes(s.user.value.studySessions, todayISO, a)
    ensures TrackStep(TrackStep(s, a, todayISO, writeOk), b, todayISO, writeOk).user
            == TrackStep(s, a + b, todayISO, writeOk).user
  {
    var key := todayISO;
    var m := s.user.value.studySessions;
    assert AddMinutes(AddMinutes(m, key, a), key, b) == AddMinutes(m, key, a + b);
  }

  // ---------------------------------------------------------------------
  // The store

  class AuthState {
    var user: Option<UserProfile>
    var isAuthenticated: bool
    /** The user's row in the remote `profiles` table. */
    var remote: Option<RemoteProfile>

    function Snapshot(): Session
      reads this
    {
      Session(user, remote)
    }

    /** A store holding a signed-in (or signed-out) session. */
    constructor (user0: Option<UserProfile>, isAuthenticated0: bool, remote0: Option<RemoteProfile>)
      ensures user == user0 && isAuthenticated == isAuthenticated0 && remote == remote0
    {
      user := user0;
      isAuthenticated := isAuthenticated0;
      remote := remote0;
    }

    method UpdateProfile(updates: ProfileUpdate, writeOk: bool)
      modifies this`user, this`remote
      ensures Snapshot() == UpdateStep(old(Snapshot()), updates, writeOk)
    {
      if user.Some? {
        var u := user.value;
        user := Some(Merge(u, updates));
        if writeOk && remote.Some? {
          remote := Some(WriteUpdate(remote.value, updates));
        }
      }
    }

    method IncrementStreak(now: Date, writeOk: bool)
      requires ValidDate(now)
      modifies this`user, this`remote
      ensures Snapshot() == IncrementStep(old(Snapshot()), TodayLocalISO(now), YesterdayLocalISO(now), writeOk)
    {
      var todayISO := TodayLocalISO(now);
      var yesterdayISO := YesterdayLocalISO(now);
      RecordCompletion(todayISO, yesterdayISO, writeOk);
    }

    /** The body of `incrementStreak` once the two keys are known. */
    method RecordCompletion(todayISO: string, yesterdayISO: string, writeOk: bool)
      modifies this`user, this`remote
      ensures Snapshot() == IncrementStep(old(Snapshot()), todayISO, yesterdayISO, writeOk)
    {
      if user.None? { return; }
      if remote.None? { return; }
      var db := remote.value;
      if db.lastCompletedDate == Some(todayISO) { return; }
      var newStreak := 0;
      var currentStreak := StreakNumber(db.streak);
      if db.lastCompletedDate == Some(yesterdayISO) {
        newStreak := currentStreak + 1;
      } else {
        newStreak := 0;
      }
      if writeOk {
        remote := Some(db.(streak := Some(newStreak), lastCompletedDate := Some(todayISO)));
        user := Some(user.value.(streak := Some(newStreak), lastCompletedDate := Some(todayISO)));
      }
    }

    method ResetStreak(writeOk: bool)
      modifies this`user, this`remote
      ensures Snapshot() == ResetStep(old(Snapshot()), writeOk)
    {
      if user.None? || user.value.streak == Some(0) { return; }
      if writeOk {
        if remote.Some? {
          remote := Some(remote.value.(streak := Some(0)));
        }
        user := Some(user.value.(streak := Some(0)));
      }
    }

    method CheckStreakValidity(tasks: seq<Task>, now: Date, writeOk: bool)
      requires ValidDate(now)
      modifies this`user, this`remote
      ensures Snapshot() == CheckStep(old(Snapshot()), tasks, TodayLocalISO(now), YesterdayLocalISO(now), now, writeOk)
    {
      if user.None? { return; }
      var todayISO := TodayLocalISO(now);
      var yesterdayISO := YesterdayLocalISO(now);
      var u := user.value;
      if MissedDay(u, todayISO, yesterdayISO) {
        ResetStreak(writeOk);
        return;
      }
      if HasUnfinishedOverdueTask(tasks, now) && PositiveStreak(u) {
        ResetStreak(writeOk);
      }
    }

    method TrackStudyTime(minutes: int, now: Date, writeOk: bool)
      requires ValidDate(now)
      modifies this`user, this`remote
      ensures Snapshot() == TrackStep(old(Snapshot()), minutes, TodayLocalISO(now), writeOk)
    {
      if user.None? { return; }
      var today := TodayLocalISO(now);
      var sessions := AddMinutes(user.value.studySessions, today, minutes);
      UpdateProfile(NoUpdate.(studySessions := Some(sessions)), writeOk);
    }
  }
}
