/** The records the application stores: tasks, subjects, document groups,
    documents, flashcard sets, chat messages and the user profile. A field
    the source marks optional, or that may be `undefined` or `null`, is an
    `Option`. */
module Types {
  import opened Wrappers

  datatype TaskStatus = TODO | DOING | DONE

  /** `Cao`, `Trung bình`, `Thấp`. */
  datatype Priority = High | Medium | Low

  /** The keys under which a task object holds its subject and deadline.
      The task modal builds every task it adds from its form fields
      `subject_id` and `due_date` (`ModalKeys`); `types.ts` declares them as
      `subjectId` and `dueDate` (`DeclaredKeys`). The fields `subjectId` and
      `dueDate` below hold the values under whichever keys the object has. */
  datatype TaskKeys = ModalKeys | DeclaredKeys

  datatype Task = Task(
    id: string,
    title: string,
    subjectId: string,
    priority: Priority,
    dueDate: string,
    status: TaskStatus,
    completed: bool,
    progress: int,
    completedAt: Option<string>,
    keys: TaskKeys)

  datatype Subject = Subject(id: string, name: string, color: string)

  datatype DocumentGroup = DocumentGroup(id: string, name: string, subjectId: string)

  datatype StudyDocument = StudyDocument(
    id: string,
    title: string,
    fileName: string,
    fileType: string,
    fileSize: int,
    fileData: string,
    subjectId: string,
    groupId: Option<string>,
    uploadDate: string)

  datatype Flashcard = Flashcard(id: string, front: string, back: string)

  datatype FlashcardSet = FlashcardSet(
    id: string, title: string, subjectId: string, cards: seq<Flashcard>, createdAt: string)

  datatype Role = UserRole | ModelRole

  datatype ChatMessage = ChatMessage(
    id: string, role: Role, text: string, timestamp: string, isError: Option<bool>)

  /** The profile; `streak` is None where an old record has no such field. */
  datatype UserProfile = UserProfile(
    id: string,
    name: string,
    email: string,
    avatarUrl: string,
    isPremium: bool,
    streak: Option<int>,
    lastCompletedDate: Option<string>,
    studySessions: map<string, int>,
    status: Option<string>)
}
