/** The first-run screen where the user picks subjects from a fixed
    catalogue: a selection toggled card by card, and the continue button
    that saves the picked catalogue subjects, in catalogue order and with
    their colours, to the store. */
module SubjectSelection {
  import opened Wrappers
  import opened Types
  import opened DataStore

  datatype Entry = Entry(id: string, name: string, icon: string, color: string)

  /** `SUBJECTS_LIST`. */
  const Catalogue: seq<Entry> := [
    Entry("math", "Toán học", "functions", "blue"),
    Entry("lit", "Ngữ văn", "menu_book", "pink"),
    Entry("eng", "Tiếng Anh", "language", "green"),
    Entry("chi", "Tiếng Trung", "translate", "red"),
    Entry("code", "Lập trình", "terminal", "indigo"),
    Entry("phy", "Vật lý", "science", "violet"),
    Entry("chem", "Hóa học", "biotech", "orange"),
    Entry("bio", "Sinh học", "psychology", "emerald")
  ]

  /** `COLOR_MAP`. */
  const ColorMap: map<string, string> := map[
    "blue" := "#3b82f6", "pink" := "#ec4899", "green" := "#10b981", "red" := "#ef4444",
    "indigo" := "#6366f1", "violet" := "#8b5cf6", "orange" := "#f97316", "emerald" := "#10b981"]

  const FallbackColor := "#6b7280"

  const InitialSelection: seq<string> := ["math", "eng", "code"]

  /** `COLOR_MAP[name] || '#6b7280'`. */
  function ColorOf(name: string): (c: string)
    ensures name in ColorMap && ColorMap[name] != [] ==> c == ColorMap[name]
    ensures name !in ColorMap ==> c == FallbackColor
  {
    if name in ColorMap && ColorMap[name] != [] then ColorMap[name] else FallbackColor
  }

  /** Every catalogue colour has an entry in the colour map, and the
      catalogue's ids are distinct. */
  lemma CatalogueFacts()
    ensures forall i :: 0 <= i < |Catalogue| ==> Catalogue[i].color in ColorMap
    ensures forall i, j :: 0 <= i < j < |Catalogue| ==> Catalogue[i].id != Catalogue[j].id
  {
  }

  // ---------------------------------------------------------------------
  // toggleSubject

  /** `prev.includes(id) ? prev.filter(s => s !== id) : [...prev, id]`. */
  function ToggleList(prev: seq<string>, id: string): seq<string> {
    if id in prev then Filter(prev, (s: string) => s != id) else prev + [id]
  }

  /** After a toggle the id is selected exactly when it was not before, and
      every other id is selected as before; no repeats appear. */
  lemma ToggleSpec(prev: seq<string>, id: string, x: string)
    ensures x in ToggleList(prev, id) <==> (if x == id then id !in prev else x in prev)
    ensures NoDuplicates(prev) ==> NoDuplicates(ToggleList(prev, id))
  {
    var p := (s: string) => s != id;
    if id in prev {
      FilterSpec(prev, p);
      if NoDuplicates(prev) {
        FilterNoDuplicates(prev, p);
      }
    } else {
      var r := prev + [id];
      assert forall i :: 0 <= i < |prev| ==> r[i] == prev[i];
    }
  }

  /** Selecting an id and deselecting it gives the list back. */
  lemma ToggleTwice(prev: seq<string>, id: string)
    requires id !in prev
    ensures ToggleList(ToggleList(prev, id), id) == prev
  {
    var p := (s: string) => s != id;
    assert id in prev + [id];
    FilterSnoc(prev, id, p);
    FilterKeepsAll(prev, p);
  }

  // ---------------------------------------------------------------------
  // handleContinue

  function AsSubject(e: Entry): Subject {
    Subject(e.id, e.name, ColorOf(e.color))
  }

  /** The catalogue entries whose id is selected, as subjects. */
  function SubjectsFrom(entries: seq<Entry>, selected: seq<string>): seq<Subject> {
    var kept := Filter(entries, (e: Entry) => e.id in selected);
    seq(|kept|, i requires 0 <= i < |kept| => AsSubject(kept[i]))
  }

  /** `subjectsToSave`. */
  function SubjectsToSave(selected: seq<string>): seq<Subject> {
    SubjectsFrom(Catalogue, selected)
  }

  /** What is saved is each selected entry as a subject: every saved
      subject is a selected entry, every selected entry is saved, and
      distinct entry ids stay distinct. The order is `SubjectsFromOrder`. */
  lemma SubjectsFromSpec(entries: seq<Entry>, selected: seq<string>)
    ensures var r := SubjectsFrom(entries, selected);
            && (forall i :: 0 <= i < |r| ==>
                  (r[i].id in selected && exists e :: e in entries && r[i] == AsSubject(e)))
            && (forall e :: e in entries && e.id in selected ==> AsSubject(e) in r)
    ensures (forall i, j :: 0 <= i < j < |entries| ==> entries[i].id != entries[j].id) ==>
            forall i, j :: 0 <= i < j < |SubjectsFrom(entries, selected)| ==>
              SubjectsFrom(entries, selected)[i].id != SubjectsFrom(entries, selected)[j].id
  {
    var p := (e: Entry) => e.id in selected;
    var kept := Filter(entries, p);
    var r := SubjectsFrom(entries, selected);
    FilterSpec(entries, p);
    forall e | e in entries && e.id in selected
      ensures AsSubject(e) in r
    {
      var k :| 0 <= k < |kept| && kept[k] == e;
      assert r[k] == AsSubject(e);
    }
    if forall i, j :: 0 <= i < j < |entries| ==> entries[i].id != entries[j].id {
      assert NoDuplicates(entries);
      FilterNoDuplicates(entries, p);
      forall i, j | 0 <= i < j < |r|
        ensures r[i].id != r[j].id
      {
        var a, b := kept[i], kept[j];
        var ia :| 0 <= ia < |entries| && entries[ia] == a;
        var ib :| 0 <= ib < |entries| && entries[ib] == b;
      }
    }
  }

  /** The saved subjects come from strictly increasing catalogue
      positions, each of a selected entry. */
  lemma SubjectsFromOrder(entries: seq<Entry>, selected: seq<string>)
    ensures var r := SubjectsFrom(entries, selected);
            exists idx: seq<nat> ::
              && |idx| == |r|
              && (forall i, j :: 0 <= i < j < |idx| ==> idx[i] < idx[j])
              && (forall i :: 0 <= i < |idx| ==>
                    idx[i] < |entries| && entries[idx[i]].id in selected && r[i] == AsSubject(entries[idx[i]]))
  {
    var p := (e: Entry) => e.id in selected;
    var kept := Filter(entries, p);
    var r := SubjectsFrom(entries, selected);
    FilterSpec(entries, p);
    var idx := FilterOrder(entries, p);
    forall i | 0 <= i < |idx|
      ensures idx[i] < |entries| && entries[idx[i]].id in selected && r[i] == AsSubject(entries[idx[i]])
    {
      assert kept[i] == entries[idx[i]];
      assert p(kept[i]);
    }
  }

  /** A non-empty selection of catalogue ids saves a non-empty list, so
      the store keeps it rather than its default. */
  lemma SelectionSaved(selected: seq<string>)
    requires selected != [] && forall x :: x in selected ==> exists i :: 0 <= i < |Catalogue| && Catalogue[i].id == x
    ensures SubjectsToSave(selected) != []
    ensures FinalSubjects(SubjectsToSave(selected)) == SubjectsToSave(selected)
  {
    var x := selected[0];
    assert x in selected;
    var i :| 0 <= i < |Catalogue| && Catalogue[i].id == x;
    SavedNonEmpty(Catalogue, selected, Catalogue[i]);
  }

  lemma SavedNonEmpty(entries: seq<Entry>, selected: seq<string>, e: Entry)
    requires e in entries && e.id in selected
    ensures SubjectsFrom(entries, selected) != []
    ensures FinalSubjects(SubjectsFrom(entries, selected)) == SubjectsFrom(entries, selected)
  {
    SubjectsFromSpec(entries, selected);
  }

  /** The button's `disabled`. */
  predicate ContinueDisabled(isLoading: bool, selected: seq<string>) {
    isLoading || |selected| == 0
  }

  class Selection {
    var selected: seq<string>
    var isLoading: bool
    const data: DataState

    constructor (data: DataState)
      ensures this.data == data && selected == InitialSelection && !isLoading
      ensures !ContinueDisabled(isLoading, selected)
    {
      this.data := data;
      selected := InitialSelection;
      isLoading := false;
    }

    method Toggle(id: string)
      modifies this`selected
      ensures selected == ToggleList(old(selected), id)
    {
      if id in selected {
        selected := Filter(selected, (s: string) => s != id);
      } else {
        selected := selected + [id];
      }
    }

    /** `handleContinue` (the navigation after the delay left out). */
    method Continue()
      modifies this`isLoading, data`subjects
      ensures isLoading && data.subjects == FinalSubjects(SubjectsToSave(selected))
    {
      isLoading := true;
      data.SetSubjects(SubjectsToSave(selected));
    }
  }
}
