/**
 * The decisions of the students screen (pages/Students.tsx): which students the list
 * shows, and which store operation (if any) a click on "save" or "import" calls.
 */
module StudentsPage {
  import opened Wrappers
  import opened Seqs
  import opened Text
  import opened Types
  import opened StoreOps

  /** The store call a handler makes; `NoCall` when it only shows an alert. */
  datatype StudentCall =
    | NoCall
    | AddStudentCall(classId: Id, name: string, rollNumber: string, status: StudentStatus)
    | EditStudentCall(id: Id, name: string, rollNumber: string, status: StudentStatus, classId: Id)
    | BulkAddStudentsCall(classId: Id, entries: seq<StudentEntry>)

  /**
   * `handleAddOrEdit`: nothing unless the name is not blank and a class is chosen; then
   * the student being edited is edited, or else a new one is added. The roll number is
   * always "0" and the name is passed as typed (untrimmed).
   */
  function AddOrEditCall(name: string, selectedClass: Id, status: StudentStatus,
                         editing: Option<Student>): (r: StudentCall)
    ensures r.NoCall? <==> Trim(name) == "" || selectedClass == ""
    ensures r.AddStudentCall? <==> !r.NoCall? && editing.None?
    ensures r.EditStudentCall? <==> !r.NoCall? && editing.Some?
    ensures r.AddStudentCall? ==> r == AddStudentCall(selectedClass, name, "0", status)
    ensures r.EditStudentCall? ==>
              r == EditStudentCall(editing.value.id, name, "0", status, selectedClass)
  {
    if Trim(name) != "" && selectedClass != "" then
      if editing.Some? then EditStudentCall(editing.value.id, name, "0", status, selectedClass)
      else AddStudentCall(selectedClass, name, "0", status)
    else NoCall
  }

  function ImportEntries(names: seq<string>): (r: seq<StudentEntry>)
    ensures |r| == |names|
    ensures forall i :: 0 <= i < |names| ==> r[i] == StudentEntry(names[i], "0")
  {
    seq(|names|, i requires 0 <= i < |names| => StudentEntry(names[i], "0"))
  }

  /**
   * `handleBulkImport`: nothing without a chosen class or without a non-blank line;
   * otherwise one entry per non-blank line, trimmed, in order, each with roll number "0".
   */
  function BulkImportCall(selectedClass: Id, importText: string): (r: StudentCall)
    ensures r.NoCall? <==> selectedClass == "" || ParseLines(importText) == []
    ensures !r.NoCall? ==> r.BulkAddStudentsCall? && r.classId == selectedClass
    ensures r.BulkAddStudentsCall? ==>
              |r.entries| == |ParseLines(importText)| &&
              forall i :: 0 <= i < |r.entries| ==>
                r.entries[i].name == ParseLines(importText)[i] && r.entries[i].rollNumber == "0" &&
                r.entries[i].name != "" && IsTrimmed(r.entries[i].name)
  {
    if selectedClass == "" then NoCall
    else
      var names := ParseLines(importText);
      if names == [] then NoCall
      else
        assert forall i :: 0 <= i < |names| ==> names[i] in names;
        BulkAddStudentsCall(selectedClass, ImportEntries(names))
  }

  /** Names typed one per line (each non-empty, trimmed, on one line) are imported as typed. */
  lemma BulkImportOfNames(selectedClass: Id, names: seq<string>)
    requires selectedClass != "" && names != []
    requires forall l :: l in names ==> l != [] && IsTrimmed(l) && '\n' !in l
    ensures BulkImportCall(selectedClass, Join(names, '\n')) ==
            BulkAddStudentsCall(selectedClass, ImportEntries(names))
  {
    ParseLinesJoin(names);
  }

  function Matches(search: string, selectedClass: Id): Student -> bool {
    (s: Student) => Contains(ToLower(s.name), ToLower(search)) &&
                    (selectedClass == "" || s.classId == selectedClass)
  }

  /**
   * `filteredStudents`: the students whose lower-cased name contains the lower-cased
   * search text, restricted to the chosen class when there is one.
   */
  function FilteredStudents(students: seq<Student>, search: string, selectedClass: Id): (r: seq<Student>)
    ensures forall s :: s in r <==>
              s in students && Contains(ToLower(s.name), ToLower(search)) &&
              (selectedClass == "" || s.classId == selectedClass)
  {
    Filter(students, Matches(search, selectedClass))
  }

  /** With no search text and no class, the whole list is shown. */
  lemma FilteredAll(students: seq<Student>)
    ensures FilteredStudents(students, "", "") == students
  {
    assert forall s :: s in students ==> Contains(ToLower(s.name), ToLower("")) by {
      forall s | s in students ensures Contains(ToLower(s.name), ToLower("")) {
        ContainsEmpty(ToLower(s.name));
      }
    }
    FilterKeepsAll(students, Matches("", ""));
  }

  /** The search ignores capitals: searching the lower-cased text shows the same students. */
  lemma FilteredIgnoresCase(students: seq<Student>, search: string, selectedClass: Id)
    ensures FilteredStudents(students, ToLower(search), selectedClass) ==
            FilteredStudents(students, search, selectedClass)
  {
    ToLowerIdempotent(search);
    FilterAgree(students, Matches(ToLower(search), selectedClass), Matches(search, selectedClass));
  }
}
