/** The local data store: the lists of tasks, subjects, document groups,
    documents, flashcard sets and chat messages, the quick note, the
    notification settings and the two "shown today" dates, with the actions
    that replace them. Each action builds the new list from the old one by
    prepending, appending, mapping the entries with a given id, or
    filtering; a deleted subject takes its tasks, documents and groups with
    it, and a deleted group leaves its documents ungrouped.

    What the store reads from and writes to `localStorage` is the value of
    the fields; the timestamps it draws from the clock are parameters. */
module DataStore {
  import opened Wrappers
  import opened Types

  // ---------------------------------------------------------------------
  // Filter and map over lists

  /** `s.filter(p)`: what it keeps satisfies `p` and comes from `s`, and
      every entry of `s` that satisfies `p` is kept. */
  function Filter<T>(s: seq<T>, p: T -> bool): (r: seq<T>)
    ensures |r| <= |s|
  {
    if s == [] then [] else (if p(s[0]) then [s[0]] else []) + Filter(s[1..], p)
  }

  /** The filter keeps order: what it keeps sits at strictly increasing
      positions of `s`, returned as `idx`. */
  lemma {:induction false} FilterOrder<T>(s: seq<T>, p: T -> bool) returns (idx: seq<nat>)
    ensures |idx| == |Filter(s, p)|
    ensures forall i :: 0 <= i < |idx| ==> idx[i] < |s| && Filter(s, p)[i] == s[idx[i]]
    ensures forall i, j :: 0 <= i < j < |idx| ==> idx[i] < idx[j]
  {
    if s == [] {
      idx := [];
    } else {
      var tail := s[1..];
      var kept := Filter(tail, p);
      var rest := FilterOrder(tail, p);
      var shifted := seq(|rest|, k requires 0 <= k < |rest| => rest[k] + 1);
      forall k | 0 <= k < |shifted|
        ensures shifted[k] < |s| && kept[k] == s[shifted[k]]
      {
        assert tail[rest[k]] == s[rest[k] + 1];
      }
      assert forall i, j :: 0 <= i < j < |shifted| ==> shifted[i] < shifted[j];
      if p(s[0]) {
        idx := [0] + shifted;
        ConsOrder(s, p, kept, shifted);
      } else {
        idx := shifted;
      }
    }
  }

  /** Helper: putting the first entry, at position 0, before the positions
      of the later kept entries keeps them increasing and in step. */
  lemma ConsOrder<T>(s: seq<T>, p: T -> bool, kept: seq<T>, shifted: seq<nat>)
    requires |s| > 0 && |shifted| == |kept|
    requires forall k :: 0 <= k < |shifted| ==> 0 < shifted[k] < |s| && kept[k] == s[shifted[k]]
    requires forall i, j :: 0 <= i < j < |shifted| ==> shifted[i] < shifted[j]
    ensures var idx := [0] + shifted;
            && (forall i :: 0 <= i < |idx| ==> idx[i] < |s| && ([s[0]] + kept)[i] == s[idx[i]])
            && (forall i, j :: 0 <= i < j < |idx| ==> idx[i] < idx[j])
  {
  }

  /** What the filter keeps satisfies `p` and comes from `s`; whatever in
      `s` satisfies `p` is kept. */
  lemma {:induction false} FilterSpec<T>(s: seq<T>, p: T -> bool)
    ensures forall i :: 0 <= i < |Filter(s, p)| ==> p(Filter(s, p)[i]) && Filter(s, p)[i] in s
    ensures forall i :: 0 <= i < |s| && p(s[i]) ==> s[i] in Filter(s, p)
  {
    if s != [] {
      FilterSpec(s[1..], p);
      assert forall i :: 1 <= i < |s| ==> s[i] == s[1..][i - 1];
    }
  }

  /** An entry kept occurs as often as in `s`; an entry dropped not at all. */
  lemma {:induction false} FilterCount<T>(s: seq<T>, p: T -> bool, x: T)
    ensures multiset(Filter(s, p))[x] == if p(x) then multiset(s)[x] else 0
  {
    if s != [] {
      FilterCount(s[1..], p, x);
      var head := if p(s[0]) then [s[0]] else [];
      assert Filter(s, p) == head + Filter(s[1..], p);
      assert multiset(Filter(s, p)) == multiset(head) + multiset(Filter(s[1..], p));
      assert s == [s[0]] + s[1..];
      assert multiset(s) == multiset([s[0]]) + multiset(s[1..]);
    }
  }

  /** Filtering keeps the order: the filter of a concatenation is the
      concatenation of the filters. */
  lemma {:induction false} FilterAppend<T>(a: seq<T>, b: seq<T>, p: T -> bool)
    ensures Filter(a + b, p) == Filter(a, p) + Filter(b, p)
  {
    if a == [] {
      assert a + b == b;
    } else {
      var h := if p(a[0]) then [a[0]] else [];
      assert Filter(a + b, p) == h + Filter(a[1..] + b, p) by {
        assert (a + b)[0] == a[0];
        assert (a + b)[1..] == a[1..] + b;
      }
      FilterAppend(a[1..], b, p);
      assert Filter(a, p) == h + Filter(a[1..], p);
    }
  }

  /** Filtering a list with one more entry at the end. */
  lemma FilterSnoc<T>(a: seq<T>, x: T, p: T -> bool)
    ensures Filter(a + [x], p) == Filter(a, p) + (if p(x) then [x] else [])
  {
    FilterAppend(a, [x], p);
    assert [x][1..] == [];
  }

  /** Two tests that agree on every entry keep the same entries. */
  lemma {:induction false} FilterCongruent<T>(s: seq<T>, p: T -> bool, q: T -> bool)
    requires forall i :: 0 <= i < |s| ==> p(s[i]) == q(s[i])
    ensures Filter(s, p) == Filter(s, q)
  {
    if s != [] {
      assert forall i :: 0 <= i < |s[1..]| ==> s[1..][i] == s[i + 1];
      FilterCongruent(s[1..], p, q);
    }
  }

  /** No entry occurs twice. */
  predicate NoDuplicates<T(==)>(s: seq<T>) {
    forall i, j :: 0 <= i < j < |s| ==> s[i] != s[j]
  }

  /** A filter of a list without repeats has no repeats. */
  lemma {:induction false} FilterNoDuplicates<T>(s: seq<T>, p: T -> bool)
    requires NoDuplicates(s)
    ensures NoDuplicates(Filter(s, p))
  {
    if s != [] {
      var rest := Filter(s[1..], p);
      assert NoDuplicates(s[1..]) by {
        assert forall i :: 0 <= i < |s[1..]| ==> s[1..][i] == s[i + 1];
      }
      FilterNoDuplicates(s[1..], p);
      FilterSpec(s[1..], p);
      assert s[0] !in s[1..] by {
        assert forall i :: 0 <= i < |s[1..]| ==> s[1..][i] == s[i + 1];
      }
      assert s[0] !in rest;
    }
  }

  /** A filter that keeps everything is the identity. */
  lemma {:induction false} FilterKeepsAll<T>(s: seq<T>, p: T -> bool)
    requires forall i :: 0 <= i < |s| ==> p(s[i])
    ensures Filter(s, p) == s
  {
    if s != [] {
      FilterKeepsAll(s[1..], p);
      assert s == [s[0]] + s[1..];
    }
  }

  /** A filter that nothing passes keeps nothing. */
  lemma {:induction false} FilterKeepsNone<T>(s: seq<T>, p: T -> bool)
    requires forall i :: 0 <= i < |s| ==> !p(s[i])
    ensures Filter(s, p) == []
  {
    if s != [] {
      FilterKeepsNone(s[1..], p);
    }
  }

  /** `s.map(x => p(x) ? f(x) : x)`: the entries that match are replaced. */
  function MapWhere<T>(s: seq<T>, p: T -> bool, f: T -> T): (r: seq<T>)
    ensures |r| == |s|
    ensures forall i :: 0 <= i < |s| ==> r[i] == if p(s[i]) then f(s[i]) else s[i]
  {
    if s == [] then []
    else [if p(s[0]) then f(s[0]) else s[0]] + MapWhere(s[1..], p, f)
  }

  // ---------------------------------------------------------------------
  // Tasks

  /** The status fields agree: `completed` and `completedAt` are set exactly
      for a task that is done. */
  predicate StatusConsistent(t: Task) {
    (t.completed <==> t.status == DONE) && (t.completedAt.Some? <==> t.status == DONE)
  }

  /** `{ ...t, status, completed: status === DONE, completedAt: DONE ? now : undefined }`. */
  function SetTaskStatus(t: Task, status: TaskStatus, stamp: string): (r: Task)
    ensures StatusConsistent(r) && r.status == status
    ensures r == t.(status := r.status, completed := r.completed, completedAt := r.completedAt)
  {
    t.(status := status, completed := status == DONE,
       completedAt := if status == DONE then Some(stamp) else None)
  }

  /** `updateTaskStatus`: every task with the id takes the status. */
  function WithTaskStatus(tasks: seq<Task>, id: string, status: TaskStatus, stamp: string): seq<Task> {
    MapWhere(tasks, (t: Task) => t.id == id, (t: Task) => SetTaskStatus(t, status, stamp))
  }

  /** The list keeps its length and every task with another id; a task with
      the id keeps its other fields, takes the status and has `completed`
      and `completedAt` consistent with it. */
  lemma UpdateTaskStatusSpec(tasks: seq<Task>, id: string, status: TaskStatus, stamp: string)
    ensures var r := WithTaskStatus(tasks, id, status, stamp);
            && |r| == |tasks|
            && (forall i :: 0 <= i < |tasks| && tasks[i].id != id ==> r[i] == tasks[i])
            && (forall i :: 0 <= i < |tasks| && tasks[i].id == id ==>
                  && r[i] == tasks[i].(status := status, completed := r[i].completed, completedAt := r[i].completedAt)
                  && StatusConsistent(r[i]))
  {
  }

  /** `Math.max(0, Math.min(100, p))`. */
  function ClampProgress(p: int): (r: int)
    ensures 0 <= r <= 100
    ensures 0 <= p <= 100 ==> r == p
    ensures p < 0 ==> r == 0
    ensures p > 100 ==> r == 100
  {
    if p < 0 then 0 else if p > 100 then 100 else p
  }

  /** `updateTaskProgress`. */
  function WithTaskProgress(tasks: seq<Task>, id: string, progress: int): seq<Task> {
    MapWhere(tasks, (t: Task) => t.id == id, (t: Task) => t.(progress := ClampProgress(progress)))
  }

  /** Progress set through the store is in [0, 100]: the tasks with the id
      hold the clamped value and nothing else changes. */
  lemma UpdateTaskProgressSpec(tasks: seq<Task>, id: string, progress: int)
    ensures var r := WithTaskProgress(tasks, id, progress);
            && |r| == |tasks|
            && (forall i :: 0 <= i < |tasks| && tasks[i].id != id ==> r[i] == tasks[i])
            && (forall i :: 0 <= i < |tasks| && tasks[i].id == id ==>
                  && r[i] == tasks[i].(progress := r[i].progress)
                  && 0 <= r[i].progress <= 100)
  {
  }

  /** The keys of a `Partial<Task>`; None is a key that is absent, and for
      `completedAt` Some(None) is a key set to `undefined`. */
  datatype TaskUpdate = TaskUpdate(
    id: Option<string>,
    title: Option<string>,
    subjectId: Option<string>,
    priority: Option<Priority>,
    dueDate: Option<string>,
    status: Option<TaskStatus>,
    completed: Option<bool>,
    progress: Option<int>,
    completedAt: Option<Option<string>>)

  const NoTaskUpdate := TaskUpdate(None, None, None, None, None, None, None, None, None)

  /** `{ ...t, ...updates }`. */
  function ApplyTaskUpdate(t: Task, u: TaskUpdate): Task {
    Task(u.id.GetOr(t.id), u.title.GetOr(t.title), u.subjectId.GetOr(t.subjectId),
         u.priority.GetOr(t.priority), u.dueDate.GetOr(t.dueDate), u.status.GetOr(t.status),
         u.completed.GetOr(t.completed), u.progress.GetOr(t.progress),
         u.completedAt.GetOr(t.completedAt), t.keys)
  }

  /** `updateTask`. */
  function WithTaskUpdate(tasks: seq<Task>, id: string, u: TaskUpdate): seq<Task> {
    MapWhere(tasks, (t: Task) => t.id == id, (t: Task) => ApplyTaskUpdate(t, u))
  }

  /** An empty update changes nothing, an update applied twice is applied
      once, and the tasks with other ids are untouched. */
  lemma UpdateTaskSpec(tasks: seq<Task>, id: string, u: TaskUpdate)
    ensures WithTaskUpdate(tasks, id, NoTaskUpdate) == tasks
    ensures forall t: Task :: ApplyTaskUpdate(ApplyTaskUpdate(t, u), u) == ApplyTaskUpdate(t, u)
    ensures var r := WithTaskUpdate(tasks, id, u);
            |r| == |tasks| && forall i :: 0 <= i < |tasks| && tasks[i].id != id ==> r[i] == tasks[i]
  {
    var r := WithTaskUpdate(tasks, id, NoTaskUpdate);
    assert forall i :: 0 <= i < |tasks| ==> r[i] == tasks[i];
  }

  /** Unlike `updateTaskStatus`, `updateTask` does not recompute `completed`
      and `completedAt`: an update of the status alone leaves them stale. */
  lemma UpdateTaskLeavesStatusStale(t: Task)
    requires t.status == TODO && StatusConsistent(t)
    ensures StatusConsistent(t)
    ensures !StatusConsistent(ApplyTaskUpdate(t, NoTaskUpdate.(status := Some(DONE))))
  {
  }

  /** `deleteTask`. */
  function WithoutTask(tasks: seq<Task>, id: string): seq<Task> {
    Filter(tasks, (t: Task) => t.id != id)
  }

  /** Exactly the tasks with the id go; the others stay, in order. */
  lemma DeleteTaskSpec(tasks: seq<Task>, more: seq<Task>, id: string)
    ensures forall t: Task :: t in WithoutTask(tasks, id) <==> t in tasks && t.id != id
    ensures forall t: Task :: t.id != id ==> multiset(WithoutTask(tasks, id))[t] == multiset(tasks)[t]
    ensures WithoutTask(tasks + more, id) == WithoutTask(tasks, id) + WithoutTask(more, id)
    ensures (forall i :: 0 <= i < |tasks| ==> tasks[i].id != id) ==> WithoutTask(tasks, id) == tasks
  {
    FilterSpec(tasks, (t: Task) => t.id != id);
    forall t: Task | t.id != id
      ensures multiset(WithoutTask(tasks, id))[t] == multiset(tasks)[t]
    {
      FilterCount(tasks, (t: Task) => t.id != id, t);
    }
    FilterAppend(tasks, more, (t: Task) => t.id != id);
    if forall i :: 0 <= i < |tasks| ==> tasks[i].id != id {
      FilterKeepsAll(tasks, (t: Task) => t.id != id);
    }
  }

  /** Every store action on tasks keeps the status fields consistent, except
      `updateTask`; addition keeps them when the new task is consistent. */
  lemma TaskActionsKeepConsistency(tasks: seq<Task>, t: Task, id: string, status: TaskStatus, stamp: string, p: int)
    requires forall i :: 0 <= i < |tasks| ==> StatusConsistent(tasks[i])
    requires StatusConsistent(t)
    ensures forall x :: x in [t] + tasks ==> StatusConsistent(x)
    ensures forall x :: x in WithTaskStatus(tasks, id, status, stamp) ==> StatusConsistent(x)
    ensures forall x :: x in WithTaskProgress(tasks, id, p) ==> StatusConsistent(x)
    ensures forall x :: x in WithoutTask(tasks, id) ==> StatusConsistent(x)
  {
    FilterSpec(tasks, (t: Task) => t.id != id);
    assert forall x :: x in WithTaskProgress(tasks, id, p) ==> StatusConsistent(x) by {
      var r := WithTaskProgress(tasks, id, p);
      assert forall i :: 0 <= i < |r| ==> StatusConsistent(r[i]) by {
        forall i | 0 <= i < |r| ensures StatusConsistent(r[i]) {
          assert StatusConsistent(tasks[i]);
        }
      }
    }
  }

  // ---------------------------------------------------------------------
  // Subjects, groups and documents

  const DefaultSubjects: seq<Subject> := [Subject("chinese", "Tiếng Trung", "#ef4444")]

  /** `setSubjects`: an empty list is replaced by the default list. */
  function FinalSubjects(subjects: seq<Subject>): (r: seq<Subject>)
    ensures |r| > 0
    ensures |subjects| > 0 ==> r == subjects
    ensures subjects == [] ==> r == DefaultSubjects
  {
    if |subjects| > 0 then subjects else DefaultSubjects
  }

  /** The lists `deleteSubject` replaces. */
  datatype Cascade = Cascade(
    subjects: seq<Subject>, tasks: seq<Task>, documents: seq<StudyDocument>, groups: seq<DocumentGroup>)

  /** `deleteSubject(id)`: the subject, and every task, document and group
      whose `subjectId` is the id, are filtered out. */
  function DeleteSubjectCascade(c: Cascade, id: string): Cascade {
    Cascade(Filter(c.subjects, (s: Subject) => s.id != id),
            Filter(c.tasks, (t: Task) => t.subjectId != id),
            Filter(c.documents, (d: StudyDocument) => d.subjectId != id),
            Filter(c.groups, (g: DocumentGroup) => g.subjectId != id))
  }

  /** Nothing of the subject survives, and everything else does. */
  lemma DeleteSubjectSpec(c: Cascade, id: string)
    ensures var r := DeleteSubjectCascade(c, id);
            && (forall s :: s in r.subjects <==> s in c.subjects && s.id != id)
            && (forall t :: t in r.tasks <==> t in c.tasks && t.subjectId != id)
            && (forall d :: d in r.documents <==> d in c.documents && d.subjectId != id)
            && (forall g :: g in r.groups <==> g in c.groups && g.subjectId != id)
  {
    FilterSpec(c.subjects, (s: Subject) => s.id != id);
    FilterSpec(c.tasks, (t: Task) => t.subjectId != id);
    FilterSpec(c.documents, (d: StudyDocument) => d.subjectId != id);
    FilterSpec(c.groups, (g: DocumentGroup) => g.subjectId != id);
  }

  /** What `t.subjectId` reads: the subject under the declared key; on a
      task the modal built it is undefined. */
  function DeclaredSubjectId(t: Task): (r: Option<string>)
    ensures r.Some? <==> t.keys == DeclaredKeys
    ensures r.Some? ==> r.value == t.subjectId
  {
    if t.keys == DeclaredKeys then Some(t.subjectId) else None
  }

  /** The task list `deleteSubject(id)` leaves, as written: it keeps every
      task whose `subjectId` is not the id, and undefined is not the id. */
  function DeleteSubjectTasksAsWritten(tasks: seq<Task>, id: string): (r: seq<Task>)
    ensures |r| <= |tasks|
  {
    Filter(tasks, (t: Task) => DeclaredSubjectId(t) != Some(id))
  }

  /** As written, the delete removes exactly the tasks of the subject that
      carry the declared keys, and so none of the tasks the modal built. */
  lemma DeleteSubjectAsWrittenSpec(tasks: seq<Task>, id: string)
    ensures forall t :: t in DeleteSubjectTasksAsWritten(tasks, id) <==>
              t in tasks && !(t.keys == DeclaredKeys && t.subjectId == id)
    ensures (forall i :: 0 <= i < |tasks| ==> tasks[i].keys == ModalKeys) ==>
              DeleteSubjectTasksAsWritten(tasks, id) == tasks
  {
    var p := (t: Task) => DeclaredSubjectId(t) != Some(id);
    FilterSpec(tasks, p);
    if forall i :: 0 <= i < |tasks| ==> tasks[i].keys == ModalKeys {
      FilterKeepsAll(tasks, p);
    }
  }

  /** A task the modal built for the subject being deleted: the code as
      written keeps it, the intended cascade removes it. */
  lemma DeleteSubjectAsWrittenMisses()
    ensures var t := Task("t1", "Ôn tập", "chinese", Medium, "05/06/2024", TODO, false, 0, None, ModalKeys);
            && DeleteSubjectTasksAsWritten([t], "chinese") == [t]
            && DeleteSubjectCascade(Cascade([], [t], [], []), "chinese").tasks == []
  {
  }

  /** Deleting a subject twice is deleting it once. */
  lemma {:induction false} DeleteSubjectIdempotent(c: Cascade, id: string)
    ensures DeleteSubjectCascade(DeleteSubjectCascade(c, id), id) == DeleteSubjectCascade(c, id)
  {
    var r := DeleteSubjectCascade(c, id);
    FilterSpec(c.subjects, (s: Subject) => s.id != id);
    FilterSpec(c.tasks, (t: Task) => t.subjectId != id);
    FilterSpec(c.documents, (d: StudyDocument) => d.subjectId != id);
    FilterSpec(c.groups, (g: DocumentGroup) => g.subjectId != id);
    FilterKeepsAll(r.subjects, (s: Subject) => s.id != id);
    FilterKeepsAll(r.tasks, (t: Task) => t.subjectId != id);
    FilterKeepsAll(r.documents, (d: StudyDocument) => d.subjectId != id);
    FilterKeepsAll(r.groups, (g: DocumentGroup) => g.subjectId != id);
  }

  /** The documents after `deleteDocumentGroup(id)`: those in the group lose
      their group. */
  function UngroupDocuments(docs: seq<StudyDocument>, id: string): seq<StudyDocument> {
    MapWhere(docs, (d: StudyDocument) => d.groupId == Some(id),
             (d: StudyDocument) => d.(groupId := None))
  }

  /** No document is deleted; the documents of the group become ungrouped
      and keep everything else; the other documents are unchanged. */
  lemma DeleteDocumentGroupSpec(docs: seq<StudyDocument>, id: string)
    ensures var r := UngroupDocuments(docs, id);
            && |r| == |docs|
            && (forall i :: 0 <= i < |docs| && docs[i].groupId == Some(id) ==> r[i] == docs[i].(groupId := None))
            && (forall i :: 0 <= i < |docs| && docs[i].groupId != Some(id) ==> r[i] == docs[i])
            && (forall i :: 0 <= i < |r| ==> r[i].groupId != Some(id) && r[i].id == docs[i].id)
  {
  }

  // ---------------------------------------------------------------------
  // Chat and notification settings

  const GreetingText := "Chào bạn! Mình là Huy Long. Bạn cần giúp gì hôm nay?"

  /** The conversation a new or cleared chat holds: one greeting. */
  function Greeting(stamp: string): (r: seq<ChatMessage>)
    ensures |r| == 1 && r[0].id == "1" && r[0].role == ModelRole && r[0].text == GreetingText
  {
    [ChatMessage("1", ModelRole, GreetingText, stamp, None)]
  }

  datatype NotificationSettings = NotificationSettings(
    dailyReminder: bool, dailyReminderTime: string, emailSummary: bool, emailSummaryTime: string)

  const DefaultNotifications := NotificationSettings(true, "19:00", true, "21:00")

  /** The keys `toggleNotification` and `updateNotificationTime` accept. */
  datatype SwitchKey = DailyReminder | EmailSummary
  datatype TimeKey = DailyReminderTime | EmailSummaryTime

  /** `{ ...n, [key]: !n[key] }`. */
  function Toggle(n: NotificationSettings, key: SwitchKey): (r: NotificationSettings)
    ensures r.dailyReminderTime == n.dailyReminderTime && r.emailSummaryTime == n.emailSummaryTime
    ensures key == DailyReminder ==> r.dailyReminder != n.dailyReminder && r.emailSummary == n.emailSummary
    ensures key == EmailSummary ==> r.emailSummary != n.emailSummary && r.dailyReminder == n.dailyReminder
  {
    match key
    case DailyReminder => n.(dailyReminder := !n.dailyReminder)
    case EmailSummary => n.(emailSummary := !n.emailSummary)
  }

  /** Toggling twice is the identity, and toggles of two keys commute. */
  lemma ToggleLaws(n: NotificationSettings, k1: SwitchKey, k2: SwitchKey)
    ensures Toggle(Toggle(n, k1), k1) == n
    ensures Toggle(Toggle(n, k1), k2) == Toggle(Toggle(n, k2), k1)
  {
  }

  /** `{ ...n, [key]: time }`. */
  function SetTime(n: NotificationSettings, key: TimeKey, time: string): (r: NotificationSettings)
    ensures r.dailyReminder == n.dailyReminder && r.emailSummary == n.emailSummary
    ensures key == DailyReminderTime ==> r.dailyReminderTime == time && r.emailSummaryTime == n.emailSummaryTime
    ensures key == EmailSummaryTime ==> r.emailSummaryTime == time && r.dailyReminderTime == n.dailyReminderTime
  {
    match key
    case DailyReminderTime => n.(dailyReminderTime := time)
    case EmailSummaryTime => n.(emailSummaryTime := time)
  }

  // ---------------------------------------------------------------------
  // The store

  class DataState {
    var tasks: seq<Task>
    var subjects: seq<Subject>
    var documentGroups: seq<DocumentGroup>
    var documents: seq<StudyDocument>
    var flashcardSets: seq<FlashcardSet>
    var chatMessages: seq<ChatMessage>
    var quickNote: string
    var notificationSettings: NotificationSettings
    var isOnline: bool
    var lastSynced: Option<string>
    var hasShownStreakSuccessToday: Option<string>
    var hasShownWelcomeStreakToday: Option<string>

    /** The store as it starts from what `localStorage` holds (the stored
        lists, empty when absent); an empty subject list or chat history is
        replaced by the defaults, absent settings by the default settings. */
    constructor (storedTasks: seq<Task>, storedSubjects: seq<Subject>, storedGroups: seq<DocumentGroup>,
                 storedDocs: seq<StudyDocument>, storedChat: seq<ChatMessage>, storedNote: Option<string>,
                 storedSettings: Option<NotificationSettings>, online: bool, lastSync: Option<string>,
                 streakShown: Option<string>, welcomeShown: Option<string>, stamp: string)
      ensures tasks == storedTasks && subjects == FinalSubjects(storedSubjects)
      ensures documentGroups == storedGroups && documents == storedDocs && flashcardSets == []
      ensures chatMessages == if |storedChat| > 0 then storedChat else Greeting(stamp)
      ensures quickNote == storedNote.GetOr("")
      ensures notificationSettings == storedSettings.GetOr(DefaultNotifications)
      ensures isOnline == online && lastSynced == lastSync
      ensures hasShownStreakSuccessToday == streakShown && hasShownWelcomeStreakToday == welcomeShown
    {
      tasks := storedTasks;
      subjects := if |storedSubjects| > 0 then storedSubjects else DefaultSubjects;
      documentGroups := storedGroups;
      documents := storedDocs;
      flashcardSets := [];
      chatMessages := if |storedChat| > 0 then storedChat else Greeting(stamp);
      quickNote := storedNote.GetOr("");
      notificationSettings := storedSettings.GetOr(DefaultNotifications);
      isOnline := online;
      lastSynced := lastSync;
      hasShownStreakSuccessToday := streakShown;
      hasShownWelcomeStreakToday := welcomeShown;
    }

    /** `setOnlineStatus`: going online records the sync time. */
    method SetOnlineStatus(status: bool, stamp: string)
      modifies this`isOnline, this`lastSynced
      ensures isOnline == status
      ensures lastSynced == if status then Some(stamp) else old(lastSynced)
    {
      isOnline := status;
      if status {
        lastSynced := Some(stamp);
      }
    }

    method AddTask(task: Task)
      modifies this`tasks
      ensures tasks == [task] + old(tasks)
    {
      tasks := [task] + tasks;
    }

    method UpdateTaskStatus(id: string, status: TaskStatus, stamp: string)
      modifies this`tasks
      ensures tasks == WithTaskStatus(old(tasks), id, status, stamp)
    {
      tasks := WithTaskStatus(tasks, id, status, stamp);
    }

    method UpdateTaskProgress(id: string, progress: int)
      modifies this`tasks
      ensures tasks == WithTaskProgress(old(tasks), id, progress)
    {
      tasks := WithTaskProgress(tasks, id, progress);
    }

    method UpdateTask(id: string, u: TaskUpdate)
      modifies this`tasks
      ensures tasks == WithTaskUpdate(old(tasks), id, u)
    {
      tasks := WithTaskUpdate(tasks, id, u);
    }

    method DeleteTask(id: string)
      modifies this`tasks
      ensures tasks == WithoutTask(old(tasks), id)
    {
      tasks := WithoutTask(tasks, id);
    }

    method ClearAllTasks()
      modifies this`tasks
      ensures tasks == []
    {
      tasks := [];
    }

    method SetSubjects(newSubjects: seq<Subject>)
      modifies this`subjects
      ensures subjects == FinalSubjects(newSubjects) && |subjects| > 0
    {
      subjects := if |newSubjects| > 0 then newSubjects else DefaultSubjects;
    }

    method AddSubject(subject: Subject)
      modifies this`subjects
      ensures subjects == old(subjects) + [subject]
    {
      subjects := subjects + [subject];
    }

    /** `deleteSubject`: the subject list and the three lists that refer to
        subjects are filtered together; the rest of the store is untouched. */
    method DeleteSubject(id: string)
      modifies this`subjects, this`tasks, this`documents, this`documentGroups
      ensures Cascade(subjects, tasks, documents, documentGroups)
              == DeleteSubjectCascade(Cascade(old(subjects), old(tasks), old(documents), old(documentGroups)), id)
    {
      var c := DeleteSubjectCascade(Cascade(subjects, tasks, documents, documentGroups), id);
      subjects := c.subjects;
      tasks := c.tasks;
      documents := c.documents;
      documentGroups := c.groups;
    }

    method AddDocumentGroup(group: DocumentGroup)
      modifies this`documentGroups
      ensures documentGroups == old(documentGroups) + [group]
    {
      documentGroups := documentGroups + [group];
    }

    /** `deleteDocumentGroup`: the group goes and its documents stay,
        ungrouped. */
    method DeleteDocumentGroup(id: string)
      modifies this`documentGroups, this`documents
      ensures documentGroups == Filter(old(documentGroups), (g: DocumentGroup) => g.id != id)
      ensures documents == UngroupDocuments(old(documents), id)
    {
      documentGroups := Filter(documentGroups, (g: DocumentGroup) => g.id != id);
      documents := UngroupDocuments(documents, id);
    }

    method AddDocument(doc: StudyDocument)
      modifies this`documents
      ensures documents == [doc] + old(documents)
    {
      documents := [doc] + documents;
    }

    method DeleteDocument(id: string)
      modifies this`documents
      ensures documents == Filter(old(documents), (d: StudyDocument) => d.id != id)
    {
      documents := Filter(documents, (d: StudyDocument) => d.id != id);
    }

    method AddFlashcardSet(fs: FlashcardSet)
      modifies this`flashcardSets
      ensures flashcardSets == [fs] + old(flashcardSets)
    {
      flashcardSets := [fs] + flashcardSets;
    }

    method DeleteFlashcardSet(id: string)
      modifies this`flashcardSets
      ensures flashcardSets == Filter(old(flashcardSets), (f: FlashcardSet) => f.id != id)
    {
      flashcardSets := Filter(flashcardSets, (f: FlashcardSet) => f.id != id);
    }

    method AddChatMessage(msg: ChatMessage)
      modifies this`chatMessages
      ensures chatMessages == old(chatMessages) + [msg]
    {
      chatMessages := chatMessages + [msg];
    }

    method ClearChatMessages(stamp: string)
      modifies this`chatMessages
      ensures chatMessages == Greeting(stamp)
    {
      chatMessages := Greeting(stamp);
    }

    method UpdateQuickNote(note: string)
      modifies this`quickNote
      ensures quickNote == note
    {
      quickNote := note;
    }

    method ToggleNotification(key: SwitchKey)
      modifies this`notificationSettings
      ensures notificationSettings == Toggle(old(notificationSettings), key)
    {
      notificationSettings := Toggle(notificationSettings, key);
    }

    method UpdateNotificationTime(key: TimeKey, time: string)
      modifies this`notificationSettings
      ensures notificationSettings == SetTime(old(notificationSettings), key, time)
    {
      notificationSettings := SetTime(notificationSettings, key, time);
    }

    method SetStreakShownToday(date: string)
      modifies this`hasShownStreakSuccessToday
      ensures hasShownStreakSuccessToday == Some(date)
    {
      hasShownStreakSuccessToday := Some(date);
    }

    method SetWelcomeStreakShownToday(date: string)
      modifies this`hasShownWelcomeStreakToday
      ensures hasShownWelcomeStreakToday == Some(date)
    {
      hasShownWelcomeStreakToday := Some(date);
    }
  }
}
