# SoftStudy core in Dafny

SoftStudy is a study planner. Its core is modelled here:

- **The study-streak engine** (`lib/store/authStore.ts`). It builds the `YYYY-MM-DD` keys of today and yesterday and turns a `DD/MM/YYYY HH:mm` deadline into such a key. It raises, holds or zeroes the streak when a task is completed, resets it on a skipped day or an overdue unfinished task, and adds up the minutes studied per day.
- **The local data store** (`lib/store/dataStore.ts`). It holds lists of tasks, subjects, documents, document groups, chat messages, notification switches and the once-a-day flags.
- **The mock user database** (`lib/mockApi.ts`). It registers users with unique emails and logs them in.
- **The calendar and date helpers** of the picker, the calendar view, the dashboard and the Kanban board.
- **The small state machines** of the focus timer, the two once-per-day modals, subject selection, the document library and the settings screen.

Each core file is its own module:

- `AuthStore`, `DataStore`, `MockApi`, `CalendarPicker`, `CalendarView`, `Dashboard`, `Kanban`, `StreakSuccessModal`, `LoginStreakWelcome`, `Pomodoro`, `SubjectSelection`, `StudyDocuments` and `Settings`, one for each core file.
- `Wrappers` (`Option`, `Result`).
- `Text`: the JavaScript string operations used (`split`, `padStart`, `parseInt`, `trim`, `toLowerCase`, `includes`).
- `Dates`: dates as year/month/day triples with their own calendar arithmetic.
- `Types`: the records of `types.ts`.

How the source's state is modelled:

- Store state that the source changes in place becomes a `class` with `seq` fields: `DataStore.DataState`, `AuthStore.AuthState`, `MockApi.UserDb` and the component state classes. Each method's `ensures` gives the new state, either outright or as a step function of the old state. The properties are lemmas about those functions.
- Pure helpers are functions. Each of them has lemmas that tie it to an independent description, an inverse or an invariant.

Model choices:

- **Field names.** The source spells a task's subject and deadline two ways. `types.ts` declares `subjectId` and `dueDate`. The task modal writes `subject_id` and `due_date`, and every task the application adds comes from it. The Kanban board, the dashboard, the streak check and the streak modal read the modal's keys. `deleteSubject` and the calendar read the declared keys, which are undefined on those tasks. A task records which keys it carries (`Types.TaskKeys`). The model reads the subject and deadline the intended way, whatever the keys. The reading as written is modelled beside it and recorded under "## Findings". The profile uses `lastCompletedDate` and `studySessions`.
- **Inputs.** The following are parameters of the operations:
  - "now", a valid date with, where needed, an hour and a minute;
  - today's and yesterday's keys;
  - the weekday of the first of a month;
  - the clock readings used as ids;
  - whether the remote profile write succeeded (`writeOk`). The remote row is one record `{streak, lastCompletedDate, studySessions}`, and the local user changes only after a successful write.
- **JavaScript `Date`.** It is replaced by the triples.
  - Where the source builds a `Date` from parsed numbers that name a real day, the model gives that day.
  - `Kanban.LocalMoment` models the roll-over of out-of-range fields, because the overdue count compares such moments.
  - Elsewhere, fields that would roll over give "no date" (see Left out).

## Model

| member | source | states |
|---|---|---|
| AuthStore.DateKeys | lib/store/authStore.ts:34-52 | For years 1001..9999 today's and yesterday's keys are ten characters long. They parse back to now and to the previous day. They differ, and yesterday's key sorts before today's. |
| AuthStore.ConsecutiveKeys | lib/store/authStore.ts:34-52 | Tomorrow's yesterday-key is today's key, and tomorrow's today-key differs from today's. So a completion on the next day is seen as consecutive. |
| Dates.IsoKeyOrder | lib/store/authStore.ts:34-40 | For four-digit years two keys are equal exactly when the dates are equal. One key sorts before another exactly when its date is earlier. |
| Dates.IsoKeyShape | lib/store/authStore.ts:34-40 | A key of a four-digit year is 10 characters long, with `-` at positions 4 and 7. |
| Dates.IsoKeyInjective | lib/store/authStore.ts:34-40 | Distinct dates of four-digit years give distinct keys. |
| Dates.ParseIsoKey | lib/store/authStore.ts:34-40 | Reading a key back (as `new Date(key)` does) gives the same date. |
| Dates.ParseDateKey | lib/store/authStore.ts:237 | Reading an ISO key gives either no date or a valid date with a year from 0 to 9999. |
| Dates.PrevDay | lib/store/authStore.ts:45-47 | `setDate(getDate() - 1)` gives a valid date strictly before the given one. |
| Dates.NextPrevInverse | lib/store/authStore.ts:45-47 | The previous day and the next day undo each other. |
| Dates.PrevDayAdjacent | lib/store/authStore.ts:45-47 | A date is before `d` exactly when it is the previous day or before it, so nothing lies between the two. |
| AuthStore.NormalizeNone | lib/store/authStore.ts:57-61 | `normalizeToISO` gives null exactly for the empty text or when the part before the first space does not hold exactly two `/`. |
| AuthStore.NormalizeReorders | lib/store/authStore.ts:57-62 | For `D/M/Y` followed by nothing or by a space and anything, the result is `Y-M-D`. The pieces are reordered and not checked. |
| AuthStore.DatePartOf | lib/store/authStore.ts:58 | The text before the first space of a space-free label, followed by nothing or by a space, is the label. |
| AuthStore.NormalizeDisplayDate | lib/store/authStore.ts:57-63 | A `DD/MM/YYYY` label of a date, with or without a time after it, normalises to that date's key. |
| AuthStore.MergeLaws | lib/store/authStore.ts:139-145 | Merging an empty update changes nothing. Merging twice is merging once, and two merges are one merge of the combined update. The id, the streak and the last date are never touched. |
| AuthStore.UpdateStep | lib/store/authStore.ts:139-145 | Without a user nothing changes. Otherwise the user is the merge. The remote row changes only when there is a row and the write succeeds. |
| AuthStore.IncrementRule | lib/store/authStore.ts:147-197 | A failed write changes nothing, and a completion already recorded today changes nothing. Otherwise both the user and the row get `lastCompletedDate = today` and `streak = streak + 1` when the last date was yesterday, or 0 otherwise. |
| AuthStore.IncrementIdempotent | lib/store/authStore.ts:164-167 | A second successful increment on the same day changes nothing. |
| AuthStore.IncrementConsecutive | lib/store/authStore.ts:175-192 | Completions on two consecutive days raise the stored streak by 2. The local and remote streaks agree, and the last date is the second day. |
| AuthStore.ResetRule | lib/store/authStore.ts:199-212 | Nothing changes without a user, with streak 0 or on a failed write. Otherwise the streak becomes 0 locally and remotely, and the last completion date stays. Resetting is idempotent. |
| AuthStore.HasUnfinishedOverdueTaskIff | lib/store/authStore.ts:230-238 | The overdue test holds exactly when some task is not done and has a deadline that normalises and parses to a day before today. |
| AuthStore.CheckRule | lib/store/authStore.ts:214-244 | The check either resets or changes nothing. For a user with a positive streak and a successful write, it changes the state exactly when a day was missed or some task is overdue and unfinished. |
| AuthStore.CheckIdempotent | lib/store/authStore.ts:214-244 | Checking twice is checking once. |
| AuthStore.CheckIgnoresTask | lib/store/authStore.ts:233-237 | Adding a task that is not an unfinished overdue one (it is done, its deadline names no date, or it is due today or later) does not change the check. |
| AuthStore.CheckKeepsCurrentStreak | lib/store/authStore.ts:223-243 | When the last completion is today or yesterday and no task is overdue and unfinished, the check changes nothing. |
| AuthStore.AddMinutes | lib/store/authStore.ts:251 | Today's entry becomes its old value (0 when absent) plus the minutes. Every other day's entry is kept. |
| AuthStore.TrackRule | lib/store/authStore.ts:246-253 | Tracking changes only the user's study sessions, through `AddMinutes`. Tracking `a` and then `b` minutes gives the same sessions as tracking `a + b`. |
| AuthStore.AuthState.constructor | lib/store/authStore.ts:71-88 | The state holds the given user, authentication flag and remote row. |
| AuthStore.AuthState.UpdateProfile | lib/store/authStore.ts:139-145 | The new state is `UpdateStep` of the old one. |
| AuthStore.AuthState.IncrementStreak | lib/store/authStore.ts:147-197 | The new state is `IncrementStep` of the old one, with the keys of now and of the previous day. |
| AuthStore.AuthState.RecordCompletion | lib/store/authStore.ts:147-197 | The same step, with the two keys given directly. |
| AuthStore.AuthState.ResetStreak | lib/store/authStore.ts:199-212 | The new state is `ResetStep` of the old one. |
| AuthStore.AuthState.CheckStreakValidity | lib/store/authStore.ts:214-244 | The new state is `CheckStep` of the old one with the task list. |
| AuthStore.AuthState.TrackStudyTime | lib/store/authStore.ts:246-253 | The new state is `TrackStep` of the old one. |
| DataStore.Filter | lib/store/dataStore.ts:112-116 | `Array.filter`: the result is no longer than the input. |
| DataStore.FilterOrder | lib/store/dataStore.ts:112-116 | The filter keeps order: the kept elements sit at strictly increasing positions of the input. |
| DataStore.FilterSpec | lib/store/dataStore.ts:112-116 | Every kept element satisfies the predicate and comes from the input. Every input element satisfying it is kept. |
| DataStore.FilterCount | lib/store/dataStore.ts:112-116 | A value occurs in the filtered list as often as in the input when it satisfies the predicate, and otherwise not at all. |
| DataStore.FilterAppend | lib/store/dataStore.ts:112-116 | Filtering a concatenation is concatenating the filtered parts, so order is kept. |
| DataStore.FilterNoDuplicates | lib/store/dataStore.ts:112-116 | Filtering a list without repeats gives one without repeats. |
| DataStore.MapWhere | lib/store/dataStore.ts:97-111 | `map` with an id test: the same length, matching elements transformed and the others kept. |
| DataStore.SetTaskStatus | lib/store/dataStore.ts:97-101 | The task gets the status, `completed == (status == DONE)` and a completion stamp exactly when DONE. Every other field is kept. |
| DataStore.UpdateTaskStatusSpec | lib/store/dataStore.ts:97-101 | The length is kept, tasks with another id are unchanged and tasks with the id get the new status consistently. |
| DataStore.ClampProgress | lib/store/dataStore.ts:102-106 | The stored progress lies in 0..100. It equals the input inside that range and is pinned to the nearer bound outside it. |
| DataStore.UpdateTaskProgressSpec | lib/store/dataStore.ts:102-106 | The length is kept, other tasks are unchanged and matching tasks change only their progress, to the clamped value. |
| DataStore.UpdateTaskSpec | lib/store/dataStore.ts:107-111 | An empty update changes nothing, and applying an update twice is applying it once. Tasks with another id are unchanged. |
| DataStore.UpdateTaskLeavesStatusStale | lib/store/dataStore.ts:107-111 | `updateTask` copies the fields it is given, so setting the status to DONE this way leaves `completed` false. The status is then inconsistent, unlike with `updateTaskStatus`. |
| DataStore.DeleteTaskSpec | lib/store/dataStore.ts:112-116 | Exactly the tasks with the id are removed. The others keep their multiplicity and order. |
| DataStore.TaskActionsKeepConsistency | lib/store/dataStore.ts:92-106 | Adding a consistent task, changing a status and changing progress all keep every task's status and completion fields consistent. |
| DataStore.FinalSubjects | lib/store/dataStore.ts:122-126 | The stored subject list is never empty: a non-empty list is kept, and an empty one becomes the default list. |
| DataStore.DeleteSubjectSpec | lib/store/dataStore.ts:132-141 | Exactly the subject with the id and the tasks, documents and groups of that subject are removed. Everything else is kept, including the order of what is kept. |
| DataStore.DeleteSubjectIdempotent | lib/store/dataStore.ts:132-141 | Deleting a subject twice is deleting it once. |
| DataStore.DeclaredSubjectId | lib/store/dataStore.ts:137 | `t.subjectId` is defined exactly on a task that carries the declared keys, and is then its subject. |
| DataStore.DeleteSubjectTasksAsWritten | lib/store/dataStore.ts:137 | The task list `deleteSubject` leaves as written, a filter that adds no task. |
| DataStore.DeleteSubjectAsWrittenSpec | lib/store/dataStore.ts:137 | As written, the delete removes exactly the subject's tasks that carry the declared keys. A list of tasks built by the modal is kept whole. |
| DataStore.DeleteSubjectAsWrittenMisses | lib/store/dataStore.ts:137 | A modal task of subject "chinese" survives `deleteSubject("chinese")` as written, while the intended cascade removes it. |
| DataStore.DeleteDocumentGroupSpec | lib/store/dataStore.ts:148-155 | No document is deleted. Documents of the group become ungrouped, and the others are unchanged. |
| DataStore.Greeting | lib/store/dataStore.ts:177-181 | Clearing the chat leaves exactly one message: the model's greeting with id `1`. |
| DataStore.Toggle | lib/store/dataStore.ts:187-191 | Toggling a switch flips exactly that switch. |
| DataStore.ToggleLaws | lib/store/dataStore.ts:187-191 | Toggling twice is the identity, and toggles of two switches commute. |
| DataStore.SetTime | lib/store/dataStore.ts:192-196 | Setting a notification time changes exactly that time. |
| DataStore.DataState.constructor | lib/store/dataStore.ts:72-88 | Tasks, groups and documents start as stored. Subjects start as `FinalSubjects` of the stored list. The chat starts as stored, or as the greeting when empty. The note and the settings start as stored, or as their defaults. Flashcard sets start empty. |
| DataStore.DataState.SetOnlineStatus | lib/store/dataStore.ts:90 | The online flag is set. The sync stamp changes only when going online. |
| DataStore.DataState.AddTask | lib/store/dataStore.ts:92-96 | The task is prepended. |
| DataStore.DataState.UpdateTaskStatus | lib/store/dataStore.ts:97-101 | The tasks become `WithTaskStatus` of the old tasks. |
| DataStore.DataState.UpdateTaskProgress | lib/store/dataStore.ts:102-106 | The tasks become `WithTaskProgress` of the old tasks. |
| DataStore.DataState.UpdateTask | lib/store/dataStore.ts:107-111 | The tasks become `WithTaskUpdate` of the old tasks. |
| DataStore.DataState.DeleteTask | lib/store/dataStore.ts:112-116 | The tasks become `WithoutTask` of the old tasks. |
| DataStore.DataState.ClearAllTasks | lib/store/dataStore.ts:117-120 | The task list becomes empty. |
| DataStore.DataState.SetSubjects | lib/store/dataStore.ts:122-126 | The subjects become `FinalSubjects` of the argument, which is non-empty. |
| DataStore.DataState.AddSubject | lib/store/dataStore.ts:127-131 | The subject is appended. |
| DataStore.DataState.DeleteSubject | lib/store/dataStore.ts:132-141 | The four lists become the cascade of the old ones, and nothing else changes. |
| DataStore.DataState.AddDocumentGroup | lib/store/dataStore.ts:143-147 | The group is appended. |
| DataStore.DataState.DeleteDocumentGroup | lib/store/dataStore.ts:148-155 | The group is filtered out and its documents are ungrouped. |
| DataStore.DataState.AddDocument | lib/store/dataStore.ts:157-161 | The document is prepended. |
| DataStore.DataState.DeleteDocument | lib/store/dataStore.ts:162-166 | The documents with the id are filtered out. |
| DataStore.DataState.AddFlashcardSet | lib/store/dataStore.ts:168 | The set is prepended. |
| DataStore.DataState.DeleteFlashcardSet | lib/store/dataStore.ts:169 | The sets with the id are filtered out. |
| DataStore.DataState.AddChatMessage | lib/store/dataStore.ts:171-175 | The message is appended. |
| DataStore.DataState.ClearChatMessages | lib/store/dataStore.ts:177-181 | The chat becomes the single greeting. |
| DataStore.DataState.UpdateQuickNote | lib/store/dataStore.ts:183-186 | The note is set. |
| DataStore.DataState.ToggleNotification | lib/store/dataStore.ts:187-191 | The settings become `Toggle` of the old ones. |
| DataStore.DataState.UpdateNotificationTime | lib/store/dataStore.ts:192-196 | The settings become `SetTime` of the old ones. |
| DataStore.DataState.SetStreakShownToday | lib/store/dataStore.ts:197-200 | The shown-date of the success modal is set. |
| DataStore.DataState.SetWelcomeStreakShownToday | lib/store/dataStore.ts:201-204 | The shown-date of the welcome is set. |
| MockApi.Migrate | lib/mockApi.ts:41-44 | A profile without a streak gets streak 0 and no last date. Any other profile is returned unchanged. |
| MockApi.LoginOutcome | lib/mockApi.ts:27-47 | Every failure carries the login error text. |
| MockApi.LoginSucceedsIff | lib/mockApi.ts:31-35 | Login succeeds exactly when some stored user matches both the email and the password. |
| MockApi.LoginFirstMatch | lib/mockApi.ts:31-44 | A successful login returns the migrated profile of the first matching user. The profile record has no password field. |
| MockApi.NewUser | lib/mockApi.ts:59-69 | A new user has the given id, name, email and password, is not premium, and has streak 0, no last date and no sessions. |
| MockApi.AppendKeepsUnique | lib/mockApi.ts:55-72 | Appending a user whose email is not taken keeps the emails unique. |
| MockApi.LoginAfterRegister | lib/mockApi.ts:27-76 | After registering under a free email, logging in with that password returns the stored profile. |
| MockApi.UserDb.constructor | lib/mockApi.ts:27-30 | The database holds the stored list. |
| MockApi.UserDb.Login | lib/mockApi.ts:27-47 | The search loop returns exactly `LoginOutcome` of the list. |
| MockApi.UserDb.Register | lib/mockApi.ts:49-76 | A taken email gives the error and leaves the list unchanged. Otherwise exactly the new user is appended and its profile returned. Unique emails stay unique. |
| CalendarPicker.ConfirmShape | components/CalendarPicker.tsx:79-87 | For a four-digit year and two-digit hour and minute, the text is 16 characters `DD/MM/YYYY HH:mm`. It has `/` at 2 and 5, a space at 10 and `:` at 13. |
| CalendarPicker.ConfirmSplit | components/CalendarPicker.tsx:79-87 | Splitting the confirmed text on spaces gives the `DD/MM/YYYY` label and the `HH:mm` time. |
| CalendarPicker.ConfirmNormalizes | components/CalendarPicker.tsx:79-87 | `normalizeToISO` of the confirmed text is the selected date's key. |
| CalendarPicker.DateFromFields | components/CalendarPicker.tsx:21-37 | The date is kept exactly when the day or the month does not parse. Any date set is valid. |
| CalendarPicker.InitialDate | components/CalendarPicker.tsx:21-37 | The initial date part sets only valid dates. |
| CalendarPicker.InitialDateRules | components/CalendarPicker.tsx:21-37 | With fewer than two `/` pieces, or a day that does not parse, nothing is set. With exactly two pieces the current year is used. |
| CalendarPicker.ParseInitial | components/CalendarPicker.tsx:18-44 | The initial value sets only valid dates. |
| CalendarPicker.FieldsInitial | components/CalendarPicker.tsx:21-37 | Fields that parse to a valid date with a year of at least 100 set exactly that date. |
| CalendarPicker.DisplayDateInitial | components/CalendarPicker.tsx:21-37 | The picker reads its own `DD/MM/YYYY` label back as the same date. |
| CalendarPicker.TimeInitial | components/CalendarPicker.tsx:38-42 | An `HH:mm` time sets exactly that hour and minute. |
| CalendarPicker.ConfirmThenParse | components/CalendarPicker.tsx:18-44 | Reopening the picker on its own confirmed text restores the same date, hour and minute. |
| CalendarPicker.RoundMinute | components/CalendarPicker.tsx:15 | The initial minute is rounded down to a multiple of 5, and lies in 0..55 for a clock minute. |
| CalendarPicker.OptionsSpec | components/CalendarPicker.tsx:224-240 | The hour options are exactly 0..23 and the minute options exactly 0, 5, …, 55. A rounded minute is always one of them. |
| CalendarPicker.PrevTarget | components/CalendarPicker.tsx:52-58 | In month mode the view moves one month back, to day 1. In year mode it moves 12 years back, to the same month on day 1. |
| CalendarPicker.NextTarget | components/CalendarPicker.tsx:60-66 | In month mode the view moves one month forward, to day 1. In year mode it moves 12 years forward. |
| CalendarPicker.PrevNextInverse | components/CalendarPicker.tsx:52-66 | Next after prev, and prev after next, return to the first of the viewed month. |
| Dates.MondayFirstOffset | components/CalendarPicker.tsx:47-50 | The offset lies in 0..6, and Sunday (0) maps to 6: the offset plus one is the weekday mod 7. |
| Dates.DaysInMonth | components/CalendarPicker.tsx:46 | A month has 28 to 31 days, with 29 exactly for February of a leap year and 28 exactly for February otherwise. |
| Dates.AddMonths | components/CalendarPicker.tsx:52-66 | `new Date(y, m - 1 + k, 1)`: a valid first of a month, exactly `k` months later. |
| Dates.AddMonthsInverse | components/CalendarPicker.tsx:52-66 | Moving `k` months and then `-k` months returns to the first of the month. |
| CalendarPicker.PickerState.constructor | components/CalendarPicker.tsx:11-15 | Month mode, with the view and the selection on today, the current hour and the rounded minute. |
| CalendarPicker.PickerState.ApplyInitial | components/CalendarPicker.tsx:18-44 | The effect of the initial value: the date and time fields are set as `ParseInitial` says, and the rest are kept. |
| CalendarPicker.PickerState.Apply | components/CalendarPicker.tsx:18-44 | The same for an already parsed value. |
| CalendarPicker.PickerState.HandlePrev | components/CalendarPicker.tsx:52-58 | The view becomes `PrevTarget` of the old view. |
| CalendarPicker.PickerState.HandleNext | components/CalendarPicker.tsx:60-66 | The view becomes `NextTarget` of the old view. |
| CalendarPicker.PickerState.HandleDateClick | components/CalendarPicker.tsx:68-71 | The clicked day of the viewed month becomes the selection. |
| CalendarPicker.PickerState.HandleYearClick | components/CalendarPicker.tsx:73-77 | The view moves to the first of the same month in the clicked year and returns to month mode. |
| CalendarPicker.PickerState.SetViewMode | components/CalendarPicker.tsx:171-177 | The mode is set. |
| CalendarPicker.PickerState.HandleConfirm | components/CalendarPicker.tsx:79-87 | It returns the confirmed text, which normalises to the selected date's key whenever the year is not negative. |
| CalendarPicker.PickerState.RenderDays | components/CalendarPicker.tsx:89-129 | The grid is `offset` blanks followed by one cell per day 1..N, in order, each flagged as selected or today. |
| CalendarPicker.PickerState.RenderYears | components/CalendarPicker.tsx:131-137 | Twelve consecutive years from the viewed year minus 5, each flagged as selected or the current year. |
| CalendarView.DaysListSpec | components/CalendarView.tsx:29-33 | The day list has the month's length, holds exactly 1..N and is strictly increasing. |
| CalendarView.ParseTaskDate | components/CalendarView.tsx:40-46 | A parsed deadline is a valid date. |
| CalendarView.ParseTaskDateRules | components/CalendarView.tsx:40-46 | The empty text, and a date part without exactly three `/` pieces, give no date. Whatever follows the first space is ignored. |
| CalendarView.ParseDisplayDate | components/CalendarView.tsx:40-46 | The picker's `DD/MM/YYYY` text reads back as its date, for years from 100 on. |
| CalendarView.DayOf | components/CalendarView.tsx:55-66 | The day a task counts on in the viewed month lies in 1..31. |
| CalendarView.DoneAtMostTotal | components/CalendarView.tsx:55-66 | On every day, the done count is at most the total. |
| CalendarView.TotalsSum | components/CalendarView.tsx:55-66 | The day totals of a month sum to the number of tasks dated in that month. |
| CalendarView.DaysStatus | components/CalendarView.tsx:55-66 | The map has an entry exactly for the days with tasks. Each entry holds that day's total and done counts, with `0 <= done <= total`. |
| CalendarView.DueAsWritten | components/CalendarView.tsx:40-51 | `parseTaskDate(t.dueDate)` as written: no date for a task the modal built, and the parse of its deadline for one with the declared keys. |
| CalendarView.CalendarIgnoresModalTasks | components/CalendarView.tsx:48-125 | As written, tasks built by the modal get no day count, are listed on no day, and raise no today or overdue alert. |
| CalendarView.CalendarMissesModalTask | components/CalendarView.tsx:55-63 | A modal task due on a picked day is counted on that day by the intended reading and not by the code as written. |
| CalendarView.CountByDay | components/CalendarView.tsx:55-66 | The counting loop, for any day key, meets the same specification. |
| CalendarView.DayColorRule | components/CalendarView.tsx:228-231 | A day whose tasks are all done is emerald, one with none done is rose and one in between is amber. A day without tasks has no colour. |
| CalendarView.CountDone | components/CalendarView.tsx:78-79 | The done count is at most the number of tasks. |
| CalendarView.Notifications | components/CalendarView.tsx:68-133 | The loops build today's head followed by one alert per overdue task, in list order. |
| CalendarView.NotificationsShape | components/CalendarView.tsx:82-130 | With `k > 0` tasks today the list is a summary followed by one alert per task. With none it is the single info entry. Then one `overdue-<id>` alert per overdue task, all unread. |
| CalendarView.TodayAlerts | components/CalendarView.tsx:82-112 | The loop builds exactly `TodayHead`. |
| CalendarView.OverdueList | components/CalendarView.tsx:116-130 | The loop builds exactly one alert per overdue task. |
| CalendarView.OverdueAlertsSnoc | components/CalendarView.tsx:116-130 | One more overdue task adds exactly its alert at the end. |
| CalendarView.OverdueCount | components/CalendarView.tsx:116-130 | The overdue tasks are exactly the unfinished tasks dated before today, each as often as in the list. |
| CalendarView.UnreadCount | components/CalendarView.tsx:135 | The unread count is at most the number of alerts, and equals it when none is read. |
| CalendarView.Shift | components/CalendarView.tsx:137-138 | Prev and next move the view one month, or 12 months in year mode, to a valid first of the month. |
| CalendarView.ShiftRules | components/CalendarView.tsx:137-138 | In year mode prev and next change only the year, by one. Next then prev returns to the first of the month. |
| CalendarView.CalendarViewState.constructor | components/CalendarView.tsx:13-15 | The view and the selection are today, in month mode. |
| CalendarView.CalendarViewState.HandlePrevMonth | components/CalendarView.tsx:137 | The view becomes `Shift(mode, view, -1)`. |
| CalendarView.CalendarViewState.HandleNextMonth | components/CalendarView.tsx:138 | The view becomes `Shift(mode, view, 1)`. |
| CalendarView.CalendarViewState.HandleDateClick | components/CalendarView.tsx:139 | The clicked day of the viewed month is selected. |
| CalendarView.CalendarViewState.HandleMonthSelect | components/CalendarView.tsx:140 | The view moves to the first of the chosen month, in month mode. |
| CalendarView.CalendarViewState.SetViewMode | components/CalendarView.tsx:203-204 | The mode is set. |
| Dashboard.FormattedDateShape | components/Dashboard.tsx:24-26 | For four-digit years `getFormattedDate` is ten characters `DD/MM/YYYY` with no space. It splits on `/` into the padded day, the padded month and the year. |
| Dashboard.LocalDateKeyIsTodayKey | components/Dashboard.tsx:28-33 | `getLocalDateKey` is exactly the streak engine's `getTodayLocalISO` of the same day. |
| Dashboard.DayStats | components/Dashboard.tsx:35-46 | The total is the number of daily tasks, and the completed count is at most the total. |
| Dashboard.DayStatsSpec | components/Dashboard.tsx:36-40 | The daily tasks are exactly the tasks whose text before the first space equals the day's label, each as often as in the list. |
| Dashboard.PickedTaskCounted | components/Dashboard.tsx:36-37 | A deadline set by the picker, with or without a time, is counted on its day. |
| Dashboard.DueOnPickedText | components/Dashboard.tsx:37 | A space-free label, alone or followed by a space and a time, is due on that label. |
| Dashboard.TrackedMinutesShown | components/Dashboard.tsx:42-43 | The minutes shown for today rise by exactly what `trackStudyTime` adds. |
| Dashboard.Percent | components/Dashboard.tsx:108 | The percent is 0 without tasks. Otherwise it is the integer nearest to `100 * done / total`, with a half rounded up. |
| Dashboard.PercentBounds | components/Dashboard.tsx:108 | The percent lies in 0..100. It is 0 with nothing done and 100 with everything done. |
| Dashboard.StudyTime | components/Dashboard.tsx:125 | For non-negative minutes the display is hours and minutes with the minutes in 0..59, and `60 * h + m` is the total. JavaScript's signed remainder is kept for negative totals. |
| Dates.ShiftDays | components/Dashboard.tsx:53-57 | `setDate(getDate() + days)` gives a valid date. |
| Dates.ShiftOrder | components/Dashboard.tsx:53-57 | Moving forward gives a later day, moving back an earlier one, and moving zero days the same day. |
| Dates.ShiftBackAndForth | components/Dashboard.tsx:53-57 | One day forward and back, or back and forward, returns to the same day. |
| Dates.ShiftInMonth | components/Dashboard.tsx:53-57 | Moving within the month only changes the day number. |
| Dashboard.FutureIffForward | components/Dashboard.tsx:59 | From today, the card shows the forecast exactly after moving forward. |
| Dashboard.EntryCheck | components/Dashboard.tsx:18-22 | The entry effect runs the streak check only when there are tasks, and otherwise changes nothing. |
| Dashboard.EntryCheckSkipsMissedDay | components/Dashboard.tsx:18-22 | With no tasks, the dashboard keeps a streak that the check itself would reset for a missed day. |
| Kanban.LocalMoment | components/Kanban.tsx:42 | `new Date(y, m - 1, d, h, min)` with JavaScript's roll-over always denotes a valid moment. |
| Kanban.LocalMomentExact | components/Kanban.tsx:42 | Fields that are already in range denote exactly that day and minute. |
| Kanban.Piece | components/Kanban.tsx:34-35 | Reading a piece of a split is present exactly when the index is in range, and is then that piece. |
| Kanban.TimeFields | components/Kanban.tsx:37-41 | Without a time part the deadline time is 23:59. |
| Kanban.DeadlineOf | components/Kanban.tsx:36-42 | Three pieces always give a date, which is an invalid one or a valid moment. |
| Kanban.ParseDeadlineRules | components/Kanban.tsx:32-45 | No date exactly for the empty text or a date part without exactly three `/` pieces. A valid moment otherwise, at 23:59 when there is no time. |
| Kanban.ParsePicked | components/Kanban.tsx:32-45 | The text written by the picker parses back to exactly that day, hour and minute. |
| Kanban.ParsePickedDay | components/Kanban.tsx:32-45 | A bare `DD/MM/YYYY` label parses to that day at 23:59. |
| Kanban.OverdueCountSpec | components/Kanban.tsx:47-53 | The count is at most the number of tasks. The counted tasks are exactly the unfinished tasks with a deadline before now, each as often as in the list. Done tasks and tasks without a deadline never count. |
| Kanban.CardAgreesWithCount | components/Kanban.tsx:148-156 | For a date part of at most three pieces, a card's overdue mark agrees with the count. A done card or one without a deadline is never marked. |
| Kanban.CardFlagsUncounted | components/Kanban.tsx:148-156 | A date part with more than three pieces is marked on its card but not counted in the banner. |
| Kanban.FilteredTasksSpec | components/Kanban.tsx:27-30 | `all` lists every task. Any other tab lists exactly the tasks of that subject, each as often as in the list. |
| Kanban.ColumnsPartition | components/Kanban.tsx:87-94 | The TODO, DOING and DONE columns together hold exactly the listed tasks, so their sizes sum to the list's length. |
| Kanban.DefaultSubject | components/Kanban.tsx:98 | The modal defaults to the active subject, or to the first subject on `all`, or to none. |
| Kanban.NewTask | components/Kanban.tsx:231-235 | A created task keeps the form's fields, under the form's keys, and has status TODO, `completed` false and progress 0, consistently. |
| Kanban.NewTaskLandsInTodo | components/Kanban.tsx:233 | The new task heads the TODO column and leaves the other columns unchanged. |
| StreakSuccessModal.CompletionOpensModal | components/StreakSuccessModal.tsx:14-23 | After a recorded completion, the modal opens exactly when it has not been shown today. |
| StreakSuccessModal.TodayTaskCountSpec | components/StreakSuccessModal.tsx:26-30 | The count covers exactly the tasks whose text before the first space is today's label, each as often as in the list. |
| StreakSuccessModal.TodayCountMatchesDashboard | components/StreakSuccessModal.tsx:26-30 | The modal's tasks for today are the dashboard's daily tasks for today. |
| StreakSuccessModal.Modal.constructor | components/StreakSuccessModal.tsx:9 | The modal starts closed. |
| StreakSuccessModal.Modal.Effect | components/StreakSuccessModal.tsx:14-23 | When the last completion is today and the modal was not shown today, it opens and records today. Otherwise nothing changes. |
| StreakSuccessModal.Modal.Close | components/StreakSuccessModal.tsx:62 | Closing only closes. |
| LoginStreakWelcome.StreakShown | components/LoginStreakWelcome.tsx:29 | A missing streak is shown as 0. |
| LoginStreakWelcome.TierOf | components/LoginStreakWelcome.tsx:32-37 | The tiers are streak 0, below 3, 3..6 and 7 or more. They are exhaustive and exclusive. |
| LoginStreakWelcome.EncouragementsDistinct | components/LoginStreakWelcome.tsx:32-37 | The four tiers give four different messages. |
| LoginStreakWelcome.MissingStreakStarts | components/LoginStreakWelcome.tsx:29-33 | A user without a streak gets the first message. |
| LoginStreakWelcome.Welcome.constructor | components/LoginStreakWelcome.tsx:9 | The welcome starts hidden. |
| LoginStreakWelcome.Welcome.Effect | components/LoginStreakWelcome.tsx:13-20 | The welcome becomes visible exactly when it already was, or when there is an authenticated user and the shown-date is not today. |
| LoginStreakWelcome.Welcome.HandleConfirm | components/LoginStreakWelcome.tsx:22-25 | The welcome hides and records today, so it cannot show again today. |
| Pomodoro.Settle | components/Pomodoro.tsx:25-27 | A timer at 0 stops, and nothing else changes. |
| Pomodoro.TickStep | components/Pomodoro.tsx:19-29 | A tick takes one second off only a running timer with time left. It keeps the total and the timer's validity. |
| Pomodoro.ToggleStep | components/Pomodoro.tsx:41 | Toggling flips running, except that a timer at 0 stays stopped. |
| Pomodoro.ResetStep | components/Pomodoro.tsx:43-46 | Reset stops the timer with the whole total left. |
| Pomodoro.SelectStep | components/Pomodoro.tsx:48-62 | A new length of `m` minutes gives total and remaining time `60 * m`, stopped. |
| Pomodoro.ResetHidesButton | components/Pomodoro.tsx:126 | After a reset or a new length the reset button is hidden. |
| Pomodoro.Countdown | components/Pomodoro.tsx:19-29 | From a running timer, `n` ticks (at most the time left) lower the time by `n`. The timer stops exactly when it reaches 0. |
| Pomodoro.PausedStays | components/Pomodoro.tsx:19-29 | A stopped timer is unchanged by any number of ticks. |
| Pomodoro.FormatTimeRoundTrip | components/Pomodoro.tsx:64-68 | `MM:SS` splits into minutes and seconds, with the seconds below 60, that give the count back. Under 100 minutes the text is five characters long. |
| Pomodoro.PomodoroTimer.constructor | components/Pomodoro.tsx:6-8 | The timer starts stopped at 60 minutes. |
| Pomodoro.PomodoroTimer.Tick | components/Pomodoro.tsx:19-29 | The new state is `TickStep` of the old one. |
| Pomodoro.PomodoroTimer.Toggle | components/Pomodoro.tsx:41 | The new state is `ToggleStep` of the old one. |
| Pomodoro.PomodoroTimer.Reset | components/Pomodoro.tsx:43-46 | The new state is `ResetStep` of the old one. |
| Pomodoro.PomodoroTimer.SelectTime | components/Pomodoro.tsx:48-54 | The new state is `SelectStep` of the preset, and is valid. |
| Pomodoro.PomodoroTimer.SliderChange | components/Pomodoro.tsx:56-62 | The new state is `SelectStep` of the slider value, and is valid. |
| SubjectSelection.ColorOf | components/SubjectSelection.tsx:19-28 | A known colour name gives its code, and an unknown one the fallback `#6b7280`. |
| SubjectSelection.CatalogueFacts | components/SubjectSelection.tsx:8-28 | Every catalogue colour is in the colour map, and the catalogue ids are distinct. |
| SubjectSelection.ToggleSpec | components/SubjectSelection.tsx:36-40 | After a toggle the id is selected exactly when it was not, and every other id's membership is kept. A list without repeats stays without repeats. |
| SubjectSelection.ToggleTwice | components/SubjectSelection.tsx:36-40 | Adding an absent id and toggling it again restores the list. |
| SubjectSelection.SubjectsFromSpec | components/SubjectSelection.tsx:45-51 | The saved subjects are exactly the selected catalogue entries, without repeats when the ids are distinct. |
| SubjectSelection.SubjectsFromOrder | components/SubjectSelection.tsx:45-51 | The saved subjects sit at strictly increasing catalogue positions, each a selected entry: they come in catalogue order. |
| SubjectSelection.SelectionSaved | components/SubjectSelection.tsx:42-59 | A non-empty selection of catalogue ids saves a non-empty list, which `setSubjects` stores as it is. |
| SubjectSelection.Selection.constructor | components/SubjectSelection.tsx:33 | The selection starts as math, eng and code, not loading, with Continue enabled. |
| SubjectSelection.Selection.Toggle | components/SubjectSelection.tsx:36-40 | The selection becomes `ToggleList` of the old one. |
| SubjectSelection.Selection.Continue | components/SubjectSelection.tsx:42-59 | Loading starts, and the store's subjects become the saved list. |
| StudyDocuments.FilteredDocsSpec | components/StudyDocuments.tsx:36-42 | A document is listed exactly when its lower-cased title contains the lower-cased query and the tab is `all` or its subject. Each listed document appears as often as in the list. |
| StudyDocuments.EmptySearchListsAll | components/StudyDocuments.tsx:36-42 | An empty query in the `all` tab lists every document. |
| StudyDocuments.CurrentSubjectId | components/StudyDocuments.tsx:31-34 | A subject tab is returned as it is. On `all` the result is the first subject's id, or `chinese` when there is none or it is empty. |
| StudyDocuments.CurrentSubjectIsKnown | components/StudyDocuments.tsx:31-34 | On `all` the current subject is never empty, and is either the fallback or some subject's id. |
| StudyDocuments.SuggestedTitleSpec | components/StudyDocuments.tsx:58 | The title is the longest prefix of the file name without a `.`, so the whole name when there is none. |
| StudyDocuments.FileIcon | components/StudyDocuments.tsx:392-397 | pdf wins over image, image over word or text. Anything else gets the default icon. |
| StudyDocuments.NewGroup | components/StudyDocuments.tsx:91-97 | A name made only of blanks gives no group. Otherwise the group has the id, the name and the current subject. |
| StudyDocuments.AddGroup | components/StudyDocuments.tsx:91-101 | A blank name leaves the groups unchanged. Otherwise exactly the new group is appended. |
| StudyDocuments.GroupOf | components/StudyDocuments.tsx:78 | An empty target group means ungrouped. Any other is kept. |
| StudyDocuments.OpenUpload | components/StudyDocuments.tsx:49-64 | The pending upload's title is a dot-free prefix of the name. Its subject is the current one and its group the target. |
| StudyDocuments.UploadedDocument | components/StudyDocuments.tsx:70-80 | The new document carries the upload's title, name, size, data and subject, and its group through `GroupOf`. |
| StudyDocuments.ConfirmUpload | components/StudyDocuments.tsx:66-89 | The new document is prepended to the store's documents. |
| Settings.FirstMatchSpec | components/Settings.tsx:54-66 | The table lookup finds nothing exactly when no piece occurs. Otherwise it gives the icon of the first piece that occurs. |
| Settings.SubjectIconSpec | components/Settings.tsx:54-66 | `getSubjectIcon` is the first match of the lower-cased id in the ordered table, or `book`. |
| Settings.IconTail | components/Settings.tsx:60-64 | The last five rows of the table behave as the last five tests. |
| Settings.CatalogueIcons | components/Settings.tsx:54-66 | Every catalogue subject gets its catalogue icon, except `chi`. No piece occurs in `chi`, so it gets `book` instead of `translate`. |
| Settings.SettingsScreen.constructor | components/Settings.tsx:26-31 | Nothing is pending. |
| Settings.SettingsScreen.AskDelete | components/Settings.tsx:26-31 | The subject becomes pending. |
| Settings.SettingsScreen.ConfirmDelete | components/Settings.tsx:26-31 | A pending subject is deleted with the store's cascade, and otherwise nothing is deleted. Afterwards nothing is pending. |
| Text.Split | lib/store/authStore.ts:58-59 | `split` gives at least one piece, and no piece holds the separator. |
| Text.SplitJoin | lib/store/authStore.ts:58-59 | Joining the pieces of a split with the separator gives the text back. |
| Text.JoinSplit | lib/store/authStore.ts:58-59 | Splitting a join of separator-free pieces gives the pieces back. |
| Text.SplitLength | lib/store/authStore.ts:59-60 | The number of pieces is the number of separators plus one. |
| Text.Pad2 | lib/store/authStore.ts:36-37 | `padStart(2, '0')` of a number gives at least two digits, exactly two below 100. |
| Text.PadStart2 | lib/store/authStore.ts:36-37 | Padding puts zeros before the text, up to length 2. |
| Text.NatStrValue | lib/store/authStore.ts:35-38 | The decimal text of a number reads back as that number. |
| Text.ParseIntPad2 | components/CalendarPicker.tsx:38-42 | `parseInt` of a padded number is that number. |
| Text.LeadingDigitsSpec | components/Kanban.tsx:39-42 | `parseInt` reads the longest prefix of digits. |
| Text.TrimStartSpec | components/StudyDocuments.tsx:92 | Trimming removes exactly the leading blanks. |
| Text.IsBlankIff | components/StudyDocuments.tsx:92 | A name is blank after trimming exactly when all of its characters are blanks. |
| Text.ContainsIff | components/StudyDocuments.tsx:38 | `includes` holds exactly when the piece occurs at some position. |
| Text.ContainsEmpty | components/StudyDocuments.tsx:38 | Every text includes the empty text. |

## Left out

- The supabase client and the remote session calls are not modelled: `initSession`, `login`, `register`, `logout` and `clearError` in `lib/store/authStore.ts:71-137`. A remote write is a `writeOk` flag, and the remote row is a record field.
- `localStorage` persistence and the simulated latency of `lib/mockApi.ts` are left out. The stored values are the in-memory fields.
- Timers and scheduling are left out: the Pomodoro interval, where each `Tick` is one firing; the welcome's start delay; the 500 ms upload delay; the navigation after saving subjects.
- The Gemini service, the AI tutor, flashcard generation and the FileReader are foreign calls or browser APIs, so they are left out. A file's name, type, size and data are inputs.
- Floating-point displays are left out: `formatSize` (which also divides by `1024^1024`), the Pomodoro progress ring, the pie-chart values and the notification progress share. The dashboard percent is modelled with exact integer rounding, a half rounded up. `Math.round` of the float share can fall on the other side of an exact half: for 29 done of 200, `29 / 200 * 100` is just below 14.5 in double arithmetic, so the source shows 14 where `Dashboard.Percent` gives 15.
- Notification message texts beyond their ids, kinds and order are not modelled.
- JavaScript `Date` roll-over is not modelled in the calendar view or the picker. A parsed day outside its month gives no date there. `Kanban.LocalMoment`, which the overdue count uses, does model it.
- The picker's Invalid Date is not modelled. When the year piece of the initial text is not a number (for example "05/06/abc"), `CalendarPicker.tsx:30-33` sets the selected and viewed dates to an Invalid Date; `CalendarPicker.PickerState.Apply` and `ApplyInitial` keep the old dates instead, as for a day outside its month.
- `new Date(y, m, 1)` maps years 0..99 to 1900..1999. `CalendarPicker.PrevTarget`, `CalendarPicker.NextTarget`, `CalendarPicker.PickerState.HandleYearClick`, `CalendarView.Shift` and `CalendarView.CalendarViewState.HandleMonthSelect` keep such years as they are.
- `parseInt` is called without a radix, so a JavaScript engine reads a `0x` prefix as hexadecimal ("0x1f" is 31). `Text.ParseInt` reads only decimal digits, so it gives 0 for that text.
- Time zones are left out. In particular:
  - the UTC midnight of `new Date("YYYY-MM-DD")` in `checkStreakValidity` is compared as a calendar day, which is the behaviour in zones at or ahead of UTC;
  - the UTC day used by the welcome (`LoginStreakWelcome.tsx:11`) is its own input `today`.
- Dates.LocalDate: two-digit years become 1900 + year as in JavaScript. Dates before year 0 and past the `Date` range are not distinguished.
- Lower-casing is ASCII only, and `trim` uses the JavaScript white-space set of the first code units. Unicode case mapping is not modelled.
- The edit path of the task modal (`updateTask` with the form data) is modelled only through `DataStore.DataState.UpdateTask`.
- AuthStore.DateKeys: the key properties are stated for years 1001..9999, where keys have four digits.
- AuthStore.ConsecutiveKeys: stated for years 1001..9998.
- Dates.IsoKeyOrder: stated for four-digit years. Shorter years give shorter keys, whose text order differs from date order.
- Kanban.ParsePicked: stated for years of at least 100, because JavaScript maps years 0..99 to 19xx.
- CalendarPicker.DisplayDateInitial: stated for years of at least 100, for the same reason.
- CalendarPicker.ConfirmThenParse: stated for years of at least 100, for the same reason.
- Pomodoro.PomodoroTimer.SelectTime: takes only the four presets, which are the only values the menu offers.
- Pomodoro.PomodoroTimer.SliderChange: takes only the slider's values 1..120 in steps of 5.
- CalendarPicker.PickerState.HandleDateClick: takes only a day of the viewed month, which is all the grid offers.
- CalendarView.CalendarViewState.HandleDateClick: takes only a day of the viewed month, for the same reason.
- Dashboard.StudyTime: for a negative total it states only the sign and range of the minutes.
- LoginStreakWelcome.TierOf: a negative streak falls in the second tier, as the source's `< 3` test gives.
- Dates.ParseDateKey: reads only padded YYYY-MM-DD keys. A JavaScript engine may also read an unpadded key such as "2024-3-5", which `normalizeToISO` gives for an unpadded due date; that lenient reading is not modelled, so such a task is left out of the overdue test. The picker always writes padded dates.
- CalendarPicker.PickerState.HandleConfirm: the key round trip is stated for years from 0 on. The year grid and the month arrows never reach a negative year from a present-day start.

## Findings

| source | as written | input that shows it | evidently intended | confidence | as-written member | corrected member |
|---|---|---|---|---|---|---|
| lib/store/dataStore.ts:137 | `deleteSubject` keeps each task whose `subjectId` differs from the id. The task modal (components/Kanban.tsx:225-233) writes `subject_id`, so `subjectId` is undefined on every task. | A task added in the modal for subject "chinese", then `deleteSubject("chinese")`: the task stays. | The subject's tasks go with it. | not executed | DataStore.DeleteSubjectAsWrittenMisses | DataStore.DeleteSubjectSpec |
| components/CalendarView.tsx:51 | The calendar reads `t.dueDate` (also at lines 58, 74 and 118), while the modal writes `due_date`. | A task added in the modal due "05/06/2024": 5 June 2024 shows no count and no colour, and no alert or overdue notice is raised for it. | The calendar counts and alerts by the task's deadline. | not executed | CalendarView.CalendarMissesModalTask | CalendarView.DaysStatus |
