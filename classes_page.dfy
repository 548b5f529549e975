/**
 * The decisions of the classes screen (pages/Classes.tsx): which classes it lists, and
 * which store operation (if any) "save" and "import" call, with what defaults.
 */
module ClassesPage {
  import opened Wrappers
  import opened Seqs
  import opened Text
  import opened Types
  import opened StoreOps

  /** The store call a handler makes; `NoCall` when it does nothing or only alerts. */
  datatype ClassCall =
    | NoCall
    | AddClassCall(name: string, description: string, subject: string, shift: string)
    | EditClassCall(id: Id, name: string, description: string, subject: string, shift: string)
    | BulkAddClassesCall(entries: seq<ClassEntry>)

  /** The default shift of the form and of imported classes. */
  const Morning: string := "Manh\U{E3}"

  /** The description every imported class gets. */
  const ImportedDescription: string := "Turma importada"

  /**
   * `handleAddOrEdit`: nothing unless the name is not blank; then the class being edited
   * is edited, or else a new one is added, with an empty subject replaced by "Geral".
   */
  function AddOrEditCall(name: string, description: string, subject: string, shift: string,
                         editing: Option<SchoolClass>): (r: ClassCall)
    ensures r.NoCall? <==> Trim(name) == ""
    ensures r.AddClassCall? <==> !r.NoCall? && editing.None?
    ensures r.EditClassCall? <==> !r.NoCall? && editing.Some?
    ensures r.AddClassCall? ==> r.name == name && r.description == description && r.shift == shift &&
                                r.subject == (if subject == "" then "Geral" else subject)
    ensures r.EditClassCall? ==> r.id == editing.value.id && r.name == name &&
                                 r.description == description && r.shift == shift &&
                                 r.subject == (if subject == "" then "Geral" else subject)
  {
    if Trim(name) == "" then NoCall
    else
      var s := Fallback(Some(subject), "Geral");
      if editing.Some? then EditClassCall(editing.value.id, name, description, s, shift)
      else AddClassCall(name, description, s, shift)
  }

  /** The three fields every imported class gets: its line as name, fixed description and shift. */
  function ImportEntries(lines: seq<string>, defaultSubject: string): (r: seq<ClassEntry>)
    ensures |r| == |lines|
    ensures forall i :: 0 <= i < |lines| ==>
              r[i] == ClassEntry(lines[i], ImportedDescription, Some(defaultSubject), Some(Morning))
  {
    seq(|lines|, i requires 0 <= i < |lines| =>
      ClassEntry(lines[i], ImportedDescription, Some(defaultSubject), Some(Morning)))
  }

  /**
   * `handleBulkImport`: nothing without a non-blank line; otherwise one class per
   * non-blank line, trimmed, in order, described as imported, of the morning shift, with
   * the current school's default subject or else "Geral".
   */
  function BulkImportCall(db: Database, importText: string): (r: ClassCall)
    ensures r.NoCall? <==> ParseLines(importText) == []
    ensures !r.NoCall? ==> r.BulkAddClassesCall?
    ensures r.BulkAddClassesCall? ==>
              var lines := ParseLines(importText);
              var subject := Fallback(CurrentDefaultSubject(db), "Geral");
              |r.entries| == |lines| && subject != "" &&
              forall i :: 0 <= i < |lines| ==>
                r.entries[i] == ClassEntry(lines[i], ImportedDescription, Some(subject), Some(Morning))
  {
    var lines := ParseLines(importText);
    if lines == [] then NoCall
    else BulkAddClassesCall(ImportEntries(lines, Fallback(CurrentDefaultSubject(db), "Geral")))
  }

  /**
   * An import through the store lands every line as a class of the current school with
   * the page's subject and shift (the store's own fallbacks never apply).
   */
  lemma BulkImportStored(db: Database, importText: string, ids: seq<Id>, i: nat)
    requires HasSelection(db)
    requires BulkImportCall(db, importText).BulkAddClassesCall?
    requires |ids| == |BulkImportCall(db, importText).entries| && i < |ids|
    ensures var c := BulkAddClasses(db, BulkImportCall(db, importText).entries, ids).classes[|db.classes| + i];
            c.name == ParseLines(importText)[i] && c.description == ImportedDescription &&
            c.shift == Morning && c.subject == Fallback(CurrentDefaultSubject(db), "Geral") &&
            c.schoolId == db.currentSchoolId.value
  {
  }

  function OfSchool(sel: Option<Id>): SchoolClass -> bool {
    (c: SchoolClass) => sel == Some(c.schoolId)
  }

  /** `schoolClasses`: exactly the classes of the selected school (none when nothing is selected). */
  function SchoolClasses(db: Database): (r: seq<SchoolClass>)
    ensures forall c :: c in r <==> c in db.classes && db.currentSchoolId == Some(c.schoolId)
    ensures db.currentSchoolId.None? ==> r == []
  {
    var r := Filter(db.classes, OfSchool(db.currentSchoolId));
    assert r != [] ==> r[0] in r;
    r
  }

  /** A class added with a school selected is listed on the screen. */
  lemma AddedClassListed(db: Database, name: string, description: string, subject: string,
                         shift: string, newId: Id)
    requires HasSelection(db)
    ensures SchoolClass(newId, db.currentSchoolId.value, name, description, subject, shift) in
            SchoolClasses(AddClass(db, name, description, subject, shift, newId))
  {
    var r := AddClass(db, name, description, subject, shift, newId);
    assert r.classes[|db.classes|] in r.classes;
  }
}
