/** The education and skills editor of components/profile/sections/EducationSection.tsx.
    Its state starts from the user's record (`user.education || []`,
    `user.skills || []`): the education array is a new array holding the SAME entry
    objects as the record. Skills are strings and are only replaced, never mutated.

    An education entry is a `class`, because `handleEducationChange` assigns to a field of
    the entry object in place. `ChangeEducationAsWritten` does that, and
    `CancelKeepsEditAsWritten` shows the consequence: the record's own entry object was
    edited, so Cancel "restores" the edited value. `ChangeEducation` replaces the entry by
    an edited copy, and `EditThenCancel` proves that Cancel then restores the record. */
module EducationSection {
  import opened Common
  import opened Records

  // ---------------------------------------------------------------------------
  // Skills
  // ---------------------------------------------------------------------------

  /** `handleAddSkill`: the skill list and the input box afterwards. The trimmed skill is
      added when it is not empty and not yet listed; only then is the box cleared. */
  function AddSkill(skills: seq<string>, newSkill: string): (r: (seq<string>, string))
    ensures Blank(newSkill) || Trim(newSkill) in skills ==> r == (skills, newSkill)
    ensures !Blank(newSkill) && Trim(newSkill) !in skills ==> r == (skills + [Trim(newSkill)], "")
  {
    var skill := Trim(newSkill);
    if skill != "" && skill !in skills then (skills + [skill], "") else (skills, newSkill)
  }

  /** Adding a skill keeps the list free of duplicates and of blank entries. */
  lemma AddSkillKeepsList(skills: seq<string>, newSkill: string)
    requires NoDuplicates(skills) && forall k :: 0 <= k < |skills| ==> skills[k] != ""
    ensures NoDuplicates(AddSkill(skills, newSkill).0)
    ensures forall k :: 0 <= k < |AddSkill(skills, newSkill).0| ==> AddSkill(skills, newSkill).0[k] != ""
    ensures |AddSkill(skills, newSkill).0| == |skills| + (if AddSkill(skills, newSkill).1 == "" && newSkill != "" then 1 else 0)
  {
    if !Blank(newSkill) && Trim(newSkill) !in skills {
      var r := skills + [Trim(newSkill)];
      forall i, j | 0 <= i < j < |r| ensures r[i] != r[j] {
        if j == |skills| {
          assert r[i] in skills;
        }
      }
    }
  }

  function IsNotSkill(skill: string): string -> bool {
    (s: string) => s != skill
  }

  /** `handleRemoveSkill`: `skills.filter(skill => skill !== skillToRemove)` */
  function RemoveSkill(skills: seq<string>, skill: string): (r: seq<string>)
    ensures skill !in r
    ensures forall s :: s != skill ==> (s in r <==> s in skills)
  {
    Filter(skills, IsNotSkill(skill))
  }

  /** Removing a skill just added gives back the list as it was. */
  lemma RemoveUndoesAddSkill(skills: seq<string>, newSkill: string)
    requires !Blank(newSkill) && Trim(newSkill) !in skills
    ensures RemoveSkill(AddSkill(skills, newSkill).0, Trim(newSkill)) == skills
  {
    var skill := Trim(newSkill);
    FilterConcat(skills, [skill], IsNotSkill(skill));
    FilterAll(skills, IsNotSkill(skill));
    assert Filter([skill], IsNotSkill(skill)) == [];
  }

  // ---------------------------------------------------------------------------
  // Education entries
  // ---------------------------------------------------------------------------

  /** `parseInt(e.target.value) || 0`: no radix, and `NaN` becomes 0. */
  function YearValue(text: string): int {
    match ParseInt(text, false)
    case Int(n) => n
    case NaN => 0
  }

  /** A year typed in the box is stored as that year; text without leading digits is 0. */
  lemma YearValueOfNumber(n: int)
    ensures YearValue(IntToString(n)) == n
    ensures YearValue("") == 0
  {
    ParseIntToStringNoRadix(n);
  }

  /** The input an edit comes from (by its `name`) and its raw value. */
  datatype EducationEdit = Degree(degree: string) | Institution(institution: string) | YearOfCompletion(text: string)

  /** `{ ...entry, [field]: value }` as a value. */
  function Edited(e: Education, edit: EducationEdit): (r: Education)
    ensures r.id == e.id
    ensures edit.Degree? ==> r == e.(degree := edit.degree)
    ensures edit.Institution? ==> r == e.(institution := edit.institution)
    ensures edit.YearOfCompletion? ==> r == e.(yearOfCompletion := YearValue(edit.text))
  {
    match edit
    case Degree(v) => e.(degree := v)
    case Institution(v) => e.(institution := v)
    case YearOfCompletion(v) => e.(yearOfCompletion := YearValue(v))
  }

  /** One education entry object. */
  class EducationEntry {
    var id: string
    var degree: string
    var institution: string
    var yearOfCompletion: int

    constructor (e: Education)
      ensures Value() == e
    {
      id := e.id;
      degree := e.degree;
      institution := e.institution;
      yearOfCompletion := e.yearOfCompletion;
    }

    function Value(): Education
      reads this
    {
      Education(id, degree, institution, yearOfCompletion)
    }

    /** `(entry as any)[field] = value` */
    method Assign(edit: EducationEdit)
      modifies this
      ensures Value() == Edited(old(Value()), edit)
    {
      match edit
      case Degree(v) => degree := v;
      case Institution(v) => institution := v;
      case YearOfCompletion(v) => yearOfCompletion := YearValue(v);
    }
  }

  /** The entries' current values, in order. */
  function Values(entries: seq<EducationEntry>): (r: seq<Education>)
    reads set e | e in entries
    ensures |r| == |entries|
  {
    if |entries| == 0 then [] else Values(entries[..|entries| - 1]) + [entries[|entries| - 1].Value()]
  }

  lemma ValuesSnoc(entries: seq<EducationEntry>, e: EducationEntry)
    ensures Values(entries + [e]) == Values(entries) + [e.Value()]
  {
    assert (entries + [e])[..|entries|] == entries;
  }

  function IdIsNot(id: string): Education -> bool {
    (e: Education) => e.id != id
  }

  /** One step of the removal loop: the next entry is kept exactly when its id differs. */
  lemma RemoveStep(prefix: seq<EducationEntry>, entry: EducationEntry, kept: seq<EducationEntry>, id: string)
    requires Values(kept) == Filter(Values(prefix), IdIsNot(id))
    ensures Values(if entry.id != id then kept + [entry] else kept) == Filter(Values(prefix + [entry]), IdIsNot(id))
  {
    ValuesSnoc(prefix, entry);
    ValuesSnoc(kept, entry);
    FilterConcat(Values(prefix), [entry.Value()], IdIsNot(id));
  }

  /** The section's state next to the user record it edits. */
  class EducationEditor {
    /** The record's entries, `user.education || []`. */
    const savedEducation: seq<EducationEntry>
    /** `user.skills || []` */
    const savedSkills: seq<string>
    var education: seq<EducationEntry>
    var skills: seq<string>
    var newSkill: string

    /** The `useState` initial values. */
    constructor (savedEducation: seq<EducationEntry>, savedSkills: seq<string>)
      ensures this.savedEducation == savedEducation && this.savedSkills == savedSkills
      ensures education == savedEducation && skills == savedSkills && newSkill == ""
    {
      this.savedEducation := savedEducation;
      this.savedSkills := savedSkills;
      education := savedEducation;
      skills := savedSkills;
      newSkill := "";
    }

    /** `handleCancel` */
    method Cancel()
      modifies this`education, this`skills
      ensures education == savedEducation && skills == savedSkills
    {
      education := savedEducation;
      skills := savedSkills;
    }

    /** `handleSave`: the update handed to `onSave`. */
    function SaveRequest(): (u: UserPatch)
      reads this, set e | e in education
      ensures u == NoUserChange.(education := Some(Some(Values(education))), skills := Some(Some(skills)))
    {
      NoUserChange.(education := Some(Some(Values(education))), skills := Some(Some(skills)))
    }

    /** `handleAddSkill` */
    method AddSkillToList()
      modifies this`skills, this`newSkill
      ensures (skills, newSkill) == AddSkill(old(skills), old(newSkill))
    {
      var skill := Trim(newSkill);
      if skill != "" && skill !in skills {
        skills := skills + [skill];
        newSkill := "";
      }
    }

    /** `handleRemoveSkill` */
    method RemoveSkillFromList(skill: string)
      modifies this`skills
      ensures skills == RemoveSkill(old(skills), skill)
    {
      skills := RemoveSkill(skills, skill);
    }

    /** `handleAddEducation`: a new blank entry for the current year. */
    method AddEducation(id: string, currentYear: int)
      modifies this`education
      ensures |education| == |old(education)| + 1 && education[..|old(education)|] == old(education)
      ensures fresh(education[|old(education)|])
      ensures education[|old(education)|].Value() == Education(id, "", "", currentYear)
    {
      var entry := new EducationEntry(Education(id, "", "", currentYear));
      education := education + [entry];
    }

    /** `handleRemoveEducation`: `education.filter(edu => edu.id !== id)`, keeping the
        entry objects. */
    method RemoveEducation(id: string)
      modifies this`education
      ensures Values(education) == Filter(old(Values(education)), IdIsNot(id))
      ensures forall e :: e in education ==> e in old(education)
    {
      var entries := education;
      var kept: seq<EducationEntry> := [];
      var i := 0;
      while i < |entries|
        invariant 0 <= i <= |entries|
        invariant Values(kept) == Filter(Values(entries[..i]), IdIsNot(id))
        invariant forall e :: e in kept ==> e in entries
      {
        var entry := entries[i];
        assert entries[..i + 1] == entries[..i] + [entry];
        RemoveStep(entries[..i], entry, kept, id);
        if entry.id != id {
          kept := kept + [entry];
        }
        i := i + 1;
      }
      assert entries[..i] == entries;
      education := kept;
    }

    /** `handleEducationChange` as written: the array is copied, then the entry OBJECT at
        the index is assigned to, which is also the record's entry. */
    method ChangeEducationAsWritten(index: nat, edit: EducationEdit)
      requires index < |education|
      modifies this`education, education[index]
      ensures education == old(education)
      ensures education[index].Value() == Edited(old(education[index].Value()), edit)
    {
      var newEducation := education;
      newEducation[index].Assign(edit);
      education := newEducation;
    }

    /** `handleEducationChange` with the entry copied before it is changed. */
    method ChangeEducation(index: nat, edit: EducationEdit)
      requires index < |education|
      modifies this`education
      ensures |education| == |old(education)|
      ensures forall k :: 0 <= k < |education| && k != index ==> education[k] == old(education[k])
      ensures fresh(education[index])
      ensures education[index].Value() == Edited(old(education[index].Value()), edit)
    {
      var entry := new EducationEntry(Edited(education[index].Value(), edit));
      education := education[index := entry];
    }
  }

  /** Cancel after an edit, as written: the record's degree "BSc" is edited to "MSc", and
      after Cancel the list shows "MSc", not the saved "BSc". */
  method CancelKeepsEditAsWritten() returns (saved: Education, afterCancel: Education)
    ensures saved.degree == "BSc" && afterCancel.degree == "MSc"
  {
    var entry := new EducationEntry(Education("edu-1", "BSc", "State University", 2020));
    var editor := new EducationEditor([entry], []);
    saved := entry.Value();
    editor.ChangeEducationAsWritten(0, Degree("MSc"));
    editor.Cancel();
    afterCancel := editor.education[0].Value();
  }

  /** One action on the section while it is being edited. */
  datatype EditorAction =
    | AddSkillAction
    | RemoveSkillAction(skill: string)
    | AddEducationAction(id: string, currentYear: int)
    | RemoveEducationAction(id: string)
    | ChangeEducationAction(index: nat, edit: EducationEdit)

  /** With the copying edit, Cancel after any run of edits, additions and removals shows
      the record's entries and skills unchanged, so Save then sends the saved values. An
      edit is applied only to a row the list shows. */
  method EditThenCancel(editor: EducationEditor, actions: seq<EditorAction>)
    modifies editor
    ensures Values(editor.education) == old(Values(editor.savedEducation))
    ensures editor.skills == editor.savedSkills
    ensures editor.SaveRequest() ==
      NoUserChange.(education := Some(Some(old(Values(editor.savedEducation)))), skills := Some(Some(editor.savedSkills)))
  {
    var i := 0;
    while i < |actions|
      invariant 0 <= i <= |actions|
      invariant Values(editor.savedEducation) == old(Values(editor.savedEducation))
    {
      match actions[i] {
        case AddSkillAction => editor.AddSkillToList();
        case RemoveSkillAction(skill) => editor.RemoveSkillFromList(skill);
        case AddEducationAction(id, year) => editor.AddEducation(id, year);
        case RemoveEducationAction(id) => editor.RemoveEducation(id);
        case ChangeEducationAction(index, edit) =>
          if index < |editor.education| {
            editor.ChangeEducation(index, edit);
          }
      }
      i := i + 1;
    }
    editor.Cancel();
  }
}
