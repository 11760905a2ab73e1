/** The documents screen: the list filtered by a search text and a subject
    tab, the subject a new upload or group is filed under, the title
    suggested for an uploaded file, the icon for a file type, and the two
    handlers that add a group and add a document. The clock readings used
    as ids and upload dates are parameters. */
module StudyDocuments {
  import opened Wrappers
  import opened Text
  import opened Types
  import opened DataStore

  const AllTab := "all"

  // ---------------------------------------------------------------------
  // filteredDocs

  /** A document is listed when its lower-cased title contains the
      lower-cased query and the tab is `'all'` or its subject. */
  predicate Listed(doc: StudyDocument, query: string, activeTab: string) {
    Contains(ToLower(doc.title), ToLower(query)) && (activeTab == AllTab || doc.subjectId == activeTab)
  }

  function FilteredDocs(docs: seq<StudyDocument>, query: string, activeTab: string): seq<StudyDocument> {
    Filter(docs, (d: StudyDocument) => Listed(d, query, activeTab))
  }

  /** The list holds exactly the documents whose lower-cased title has the
      lower-cased query at some position and whose subject the tab admits,
      each as often as before. */
  lemma FilteredDocsSpec(docs: seq<StudyDocument>, query: string, activeTab: string, d: StudyDocument)
    ensures d in FilteredDocs(docs, query, activeTab) <==>
            && d in docs
            && (exists i :: OccursAt(ToLower(d.title), ToLower(query), i))
            && (activeTab == AllTab || d.subjectId == activeTab)
    ensures multiset(FilteredDocs(docs, query, activeTab))[d]
            == if Listed(d, query, activeTab) then multiset(docs)[d] else 0
  {
    var p := (x: StudyDocument) => Listed(x, query, activeTab);
    FilterSpec(docs, p);
    FilterCount(docs, p, d);
    ContainsIff(ToLower(d.title), ToLower(query));
  }

  /** With an empty search on the `'all'` tab every document is listed, in
      order. */
  lemma EmptySearchListsAll(docs: seq<StudyDocument>)
    ensures FilteredDocs(docs, "", AllTab) == docs
  {
    var p := (x: StudyDocument) => Listed(x, "", AllTab);
    forall i | 0 <= i < |docs|
      ensures p(docs[i])
    {
      ContainsEmpty(ToLower(docs[i].title));
    }
    FilterKeepsAll(docs, p);
  }

  // ---------------------------------------------------------------------
  // currentSubjectId

  const FallbackSubject := "chinese"

  /** The tab when a subject tab is open; on `'all'` the first subject's
      id, or `'chinese'` when there is no subject or its id is empty. */
  function CurrentSubjectId(activeTab: string, subjects: seq<Subject>): (r: string)
    ensures activeTab != AllTab ==> r == activeTab
    ensures activeTab == AllTab && subjects != [] && subjects[0].id != [] ==> r == subjects[0].id
    ensures activeTab == AllTab && (subjects == [] || subjects[0].id == []) ==> r == FallbackSubject
  {
    if activeTab == AllTab then
      if subjects != [] && subjects[0].id != [] then subjects[0].id else FallbackSubject
    else activeTab
  }

  /** On the `'all'` tab the subject is never empty and is one of the
      store's subjects unless the store has none with an id. */
  lemma CurrentSubjectIsKnown(subjects: seq<Subject>)
    ensures CurrentSubjectId(AllTab, subjects) != []
    ensures CurrentSubjectId(AllTab, subjects) == FallbackSubject
            || exists s :: s in subjects && s.id == CurrentSubjectId(AllTab, subjects)
  {
    if subjects != [] && subjects[0].id != [] {
      assert subjects[0] in subjects;
    }
  }

  // ---------------------------------------------------------------------
  // The suggested title and the file icon

  /** `file.name.split('.')[0]`. */
  function SuggestedTitle(fileName: string): string {
    Split(fileName, '.')[0]
  }

  /** The suggested title is the file name up to its first `.`, or the
      whole name when there is none. */
  lemma SuggestedTitleSpec(fileName: string)
    ensures var t := SuggestedTitle(fileName);
            && '.' !in t && t <= fileName
            && ('.' in fileName ==> |t| < |fileName| && fileName[|t|] == '.')
            && ('.' !in fileName ==> t == fileName)
  {
    if '.' in fileName {
      var k := IndexOf(fileName, '.');
      assert SuggestedTitle(fileName) == fileName[..k];
    }
  }

  /** `getFileIcon`: the first test the type passes picks the icon. */
  function FileIcon(fileType: string): (r: string)
    ensures r == "description" <==> Contains(fileType, "pdf")
    ensures r == "image" <==> !Contains(fileType, "pdf") && Contains(fileType, "image")
    ensures r == "article" <==> && !Contains(fileType, "pdf") && !Contains(fileType, "image")
                                && (Contains(fileType, "word") || Contains(fileType, "text"))
    ensures r == "insert_drive_file" <==> && !Contains(fileType, "pdf") && !Contains(fileType, "image")
                                          && !Contains(fileType, "word") && !Contains(fileType, "text")
  {
    if Contains(fileType, "pdf") then "description"
    else if Contains(fileType, "image") then "image"
    else if Contains(fileType, "word") || Contains(fileType, "text") then "article"
    else "insert_drive_file"
  }

  // ---------------------------------------------------------------------
  // handleAddGroup and handleConfirmUpload

  /** The group `handleAddGroup` would add: none for a blank name,
      otherwise one named as typed and filed under the current subject. */
  function NewGroup(name: string, id: string, activeTab: string, subjects: seq<Subject>): (r: Option<DocumentGroup>)
    ensures r.None? <==> forall i :: 0 <= i < |name| ==> IsSpace(name[i])
    ensures r.Some? ==> r.value == DocumentGroup(id, name, CurrentSubjectId(activeTab, subjects))
  {
    IsBlankIff(name);
    if IsBlank(name) then None else Some(DocumentGroup(id, name, CurrentSubjectId(activeTab, subjects)))
  }

  /** `handleAddGroup`: a blank name changes nothing; any other adds the
      group at the end. */
  method AddGroup(data: DataState, name: string, id: string, activeTab: string)
    modifies data`documentGroups
    ensures NewGroup(name, id, activeTab, data.subjects).None? ==> data.documentGroups == old(data.documentGroups)
    ensures NewGroup(name, id, activeTab, data.subjects).Some? ==>
            data.documentGroups == old(data.documentGroups) + [NewGroup(name, id, activeTab, data.subjects).value]
  {
    var g := NewGroup(name, id, activeTab, data.subjects);
    if g.Some? {
      data.AddDocumentGroup(g.value);
    }
  }

  /** `groupId || undefined`: an empty group id files the document
      ungrouped. */
  function GroupOf(groupId: string): (r: Option<string>)
    ensures r.None? <==> groupId == []
    ensures r.Some? ==> r.value == groupId
  {
    if groupId == [] then None else Some(groupId)
  }

  /** What an upload dialog holds when it is confirmed. */
  datatype Upload = Upload(fileName: string, fileType: string, fileSize: int, preview: string,
                           title: string, subjectId: string, groupId: string)

  /** The dialog opened for a chosen file: the suggested title, the
      current subject and the group whose upload button was used. */
  function OpenUpload(fileName: string, fileType: string, fileSize: int, preview: string,
                      activeTab: string, subjects: seq<Subject>, targetGroup: string): (u: Upload)
    ensures '.' !in u.title && u.title <= fileName
    ensures u.subjectId == CurrentSubjectId(activeTab, subjects) && u.groupId == targetGroup
  {
    SuggestedTitleSpec(fileName);
    Upload(fileName, fileType, fileSize, preview, SuggestedTitle(fileName), CurrentSubjectId(activeTab, subjects), targetGroup)
  }

  /** The document `handleConfirmUpload` stores. */
  function UploadedDocument(u: Upload, id: string, uploadDate: string): (d: StudyDocument)
    ensures d.title == u.title && d.fileName == u.fileName && d.subjectId == u.subjectId
    ensures d.groupId == GroupOf(u.groupId) && d.fileSize == u.fileSize && d.fileData == u.preview
  {
    StudyDocument(id, u.title, u.fileName, u.fileType, u.fileSize, u.preview, u.subjectId, GroupOf(u.groupId), uploadDate)
  }

  /** `handleConfirmUpload` (after its delay): the document goes first in
      the list. */
  method ConfirmUpload(data: DataState, u: Upload, id: string, uploadDate: string)
    modifies data`documents
    ensures data.documents == [UploadedDocument(u, id, uploadDate)] + old(data.documents)
  {
    data.AddDocument(UploadedDocument(u, id, uploadDate));
  }

}
