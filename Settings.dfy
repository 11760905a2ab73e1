/** The settings screen's subject list: the icon chosen for a subject from
    its id, and the confirmation that deletes the subject picked for
    deletion. */
module Settings {
  import opened Wrappers
  import opened Text
  import opened Types
  import opened DataStore
  import SubjectSelection

  const DefaultIcon := "book"

  /** `getSubjectIcon`: the lower-cased id is checked against fixed pieces
      in a fixed order. */
  function SubjectIcon(subjectId: string): string {
    var id := ToLower(subjectId);
    if Contains(id, "math") then "functions"
    else if Contains(id, "lit") then "menu_book"
    else if Contains(id, "eng") then "language"
    else if Contains(id, "phy") then "science"
    else if Contains(id, "chem") then "biotech"
    else if Contains(id, "bio") then "psychology"
    else if Contains(id, "code") then "terminal"
    else if Contains(id, "his") then "history_edu"
    else if Contains(id, "geo") then "public"
    else DefaultIcon
  }

  /** The same tests as a table: a piece of the id and its icon. */
  const IconRules: seq<(string, string)> := [
    ("math", "functions"), ("lit", "menu_book"), ("eng", "language"), ("phy", "science"),
    ("chem", "biotech"), ("bio", "psychology"), ("code", "terminal"), ("his", "history_edu"),
    ("geo", "public")]

  /** The icon of the first rule whose piece the text contains, if any. */
  function FirstMatch(rules: seq<(string, string)>, id: string): Option<string> {
    if rules == [] then None
    else if Contains(id, rules[0].0) then Some(rules[0].1)
    else FirstMatch(rules[1..], id)
  }

  /** The first matching rule decides: there is no match exactly when no
      piece occurs, and otherwise the icon is that of a rule whose piece
      occurs while no earlier piece does. */
  lemma {:induction false} FirstMatchSpec(rules: seq<(string, string)>, id: string)
    ensures FirstMatch(rules, id).None? <==> forall k :: 0 <= k < |rules| ==> !Contains(id, rules[k].0)
    ensures FirstMatch(rules, id).Some? ==>
            exists k :: && 0 <= k < |rules| && Contains(id, rules[k].0) && FirstMatch(rules, id).value == rules[k].1
                        && forall j :: 0 <= j < k ==> !Contains(id, rules[j].0)
  {
    if rules != [] && !Contains(id, rules[0].0) {
      var rest := rules[1..];
      assert forall k :: 0 <= k < |rest| ==> rest[k] == rules[k + 1];
      FirstMatchSpec(rest, id);
      if FirstMatch(rules, id).Some? {
        var k :| && 0 <= k < |rest| && Contains(id, rest[k].0) && FirstMatch(rest, id).value == rest[k].1
                 && forall j :: 0 <= j < k ==> !Contains(id, rest[j].0);
        assert forall j :: 1 <= j < k + 1 ==> rules[j] == rest[j - 1];
        assert Contains(id, rules[k + 1].0) && FirstMatch(rules, id).value == rules[k + 1].1;
      } else {
        forall k | 0 <= k < |rules|
          ensures !Contains(id, rules[k].0)
        {
          if k > 0 {
            assert rules[k] == rest[k - 1];
          }
        }
      }
    } else if rules != [] {
      assert Contains(id, rules[0].0) && FirstMatch(rules, id).value == rules[0].1;
    }
  }

  /** The chain of tests is the table read first to last, with `'book'`
      when no piece occurs in the lower-cased id. */
  lemma SubjectIconSpec(subjectId: string)
    ensures SubjectIcon(subjectId) == FirstMatch(IconRules, ToLower(subjectId)).GetOr(DefaultIcon)
  {
    var id, R := ToLower(subjectId), IconRules;
    IconTail(id);
    MatchStep(R, 3, id);
    MatchStep(R, 2, id);
    MatchStep(R, 1, id);
    MatchStep(R, 0, id);
    assert R[0..] == R;
  }

  /** The last five tests of the chain as the table from its fifth rule. */
  lemma IconTail(id: string)
    ensures FirstMatch(IconRules[4..], id)
            == if Contains(id, "chem") then Some("biotech")
               else if Contains(id, "bio") then Some("psychology")
               else if Contains(id, "code") then Some("terminal")
               else if Contains(id, "his") then Some("history_edu")
               else if Contains(id, "geo") then Some("public")
               else None
  {
    var R := IconRules;
    MatchStep(R, 8, id);
    MatchStep(R, 7, id);
    MatchStep(R, 6, id);
    MatchStep(R, 5, id);
    MatchStep(R, 4, id);
    assert R[9..] == [];
  }

  lemma MatchStep(rules: seq<(string, string)>, k: nat, id: string)
    requires k < |rules|
    ensures FirstMatch(rules[k..], id) == if Contains(id, rules[k].0) then Some(rules[k].1) else FirstMatch(rules[k + 1..], id)
  {
    assert rules[k..][0] == rules[k] && rules[k..][1..] == rules[k + 1..];
  }

  /** Helper: for ids no longer than a piece plus one character `includes` is a
      comparison of the id with the piece, or with its two ends. */
  lemma ContainsShort(s: string, sub: string)
    requires |s| <= |sub| + 1
    ensures Contains(s, sub) <==> s == sub || (|s| == |sub| + 1 && (s[..|sub|] == sub || s[1..] == sub))
  {
    if s != [] && |s| == |sub| + 1 {
      assert Contains(s[1..], sub) <==> s[1..] == sub by {
        if s[1..] != [] {
          assert !(sub <= s[1..][1..]);
        }
      }
    } else if s != [] {
      assert !(sub <= s[1..]);
      if |s[1..]| > 0 {
        ContainsShortFalse(s[1..], sub);
      }
    }
  }

  lemma {:induction false} ContainsShortFalse(s: string, sub: string)
    requires |s| < |sub|
    ensures !Contains(s, sub)
  {
    if s != [] {
      ContainsShortFalse(s[1..], sub);
    }
  }

  /** Lower-casing leaves text without capital letters as it is. */
  lemma ToLowerKeeps(s: string)
    requires forall i :: 0 <= i < |s| ==> !('A' <= s[i] <= 'Z')
    ensures ToLower(s) == s
  {
  }

  /** Helper: a short text that is not the piece and does not end or start with
      it does not contain it. */
  lemma Misses(s: string, sub: string)
    requires |s| <= |sub| + 1 && s != sub
    requires |s| == |sub| + 1 ==> s[..|sub|] != sub && s[1..] != sub
    ensures !Contains(s, sub)
  {
    ContainsShort(s, sub);
  }

  /** The icons of the catalogue ids, read through the chain. */
  lemma IconMath() ensures SubjectIcon("math") == "functions" {
    ToLowerKeeps("math");
    assert "math" <= "math";
  }

  lemma IconLit() ensures SubjectIcon("lit") == "menu_book" {
    ToLowerKeeps("lit");
    assert "lit" <= "lit";
    Misses("lit", "math");
  }

  lemma IconEng() ensures SubjectIcon("eng") == "language" {
    ToLowerKeeps("eng");
    assert "eng" <= "eng";
    Misses("eng", "math"); Misses("eng", "lit");
  }

  lemma IconChi() ensures SubjectIcon("chi") == DefaultIcon {
    ToLowerKeeps("chi");
    Misses("chi", "math"); Misses("chi", "lit"); Misses("chi", "eng"); Misses("chi", "phy");
    Misses("chi", "chem"); Misses("chi", "bio"); Misses("chi", "code"); Misses("chi", "his"); Misses("chi", "geo");
  }

  lemma IconCode() ensures SubjectIcon("code") == "terminal" {
    ToLowerKeeps("code");
    assert "code" <= "code";
    Misses("code", "math"); Misses("code", "lit"); Misses("code", "eng"); Misses("code", "phy");
    Misses("code", "chem"); Misses("code", "bio");
  }

  lemma IconPhy() ensures SubjectIcon("phy") == "science" {
    ToLowerKeeps("phy");
    assert "phy" <= "phy";
    Misses("phy", "math"); Misses("phy", "lit"); Misses("phy", "eng");
  }

  lemma IconChem() ensures SubjectIcon("chem") == "biotech" {
    ToLowerKeeps("chem");
    assert "chem" <= "chem";
    Misses("chem", "math"); Misses("chem", "lit"); Misses("chem", "eng"); Misses("chem", "phy");
  }

  lemma IconBio() ensures SubjectIcon("bio") == "psychology" {
    ToLowerKeeps("bio");
    assert "bio" <= "bio";
    Misses("bio", "math"); Misses("bio", "lit"); Misses("bio", "eng"); Misses("bio", "phy"); Misses("bio", "chem");
  }

  /** For the catalogue ids the settings icon is the catalogue's own icon,
      except Chinese (`chi`), which no piece matches and which gets the
      default book although the catalogue shows it with `translate`. */
  lemma CatalogueIcons(i: nat)
    requires i < |SubjectSelection.Catalogue|
    ensures SubjectSelection.Catalogue[i].id != "chi" ==>
              SubjectIcon(SubjectSelection.Catalogue[i].id) == SubjectSelection.Catalogue[i].icon
    ensures SubjectSelection.Catalogue[i].id == "chi" ==>
              SubjectIcon(SubjectSelection.Catalogue[i].id) == DefaultIcon != SubjectSelection.Catalogue[i].icon
  {
    var e := SubjectSelection.Catalogue[i];
    if i == 0 { IconMath(); assert e.id == "math" && e.icon == "functions"; }
    else if i == 1 { IconLit(); assert e.id == "lit" && e.icon == "menu_book"; }
    else if i == 2 { IconEng(); assert e.id == "eng" && e.icon == "language"; }
    else if i == 3 { IconChi(); assert e.id == "chi" && e.icon == "translate"; }
    else if i == 4 { IconCode(); assert e.id == "code" && e.icon == "terminal"; }
    else if i == 5 { IconPhy(); assert e.id == "phy" && e.icon == "science"; }
    else if i == 6 { IconChem(); assert e.id == "chem" && e.icon == "biotech"; }
    else { IconBio(); assert e.id == "bio" && e.icon == "psychology"; }
  }

  class SettingsScreen {
    var deletingSubject: Option<Subject>
    const data: DataState

    constructor (data: DataState)
      ensures this.data == data && deletingSubject == None
    {
      this.data := data;
      deletingSubject := None;
    }

    /** The delete button on a subject asks for confirmation. */
    method AskDelete(s: Subject)
      modifies this`deletingSubject
      ensures deletingSubject == Some(s)
    {
      deletingSubject := Some(s);
    }

    /** `handleConfirmDelete`: with a subject pending, the store deletes it
        with everything filed under it and nothing is pending any more;
        with none, nothing changes. */
    method ConfirmDelete()
      modifies this`deletingSubject, data`subjects, data`tasks, data`documents, data`documentGroups
      ensures deletingSubject == None
      ensures old(deletingSubject).Some? ==>
              Cascade(data.subjects, data.tasks, data.documents, data.documentGroups)
              == DeleteSubjectCascade(Cascade(old(data.subjects), old(data.tasks), old(data.documents),
                                                old(data.documentGroups)), old(deletingSubject).value.id)
      ensures old(deletingSubject).None? ==>
              data.subjects == old(data.subjects) && data.tasks == old(data.tasks)
              && data.documents == old(data.documents) && data.documentGroups == old(data.documentGroups)
    {
      if deletingSubject.Some? {
        data.DeleteSubject(deletingSubject.value.id);
        deletingSubject := None;
      }
    }
  }
}
