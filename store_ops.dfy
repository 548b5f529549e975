/**
 * The state transitions of the store (store/AttendanceContext.tsx). Every operation of
 * the store replaces the whole `Database` with `setDb(prev => ...)`; each function here
 * is that `prev => ...` step. Fresh ids (`crypto.randomUUID()`) are parameters.
 */
module StoreOps {
  import opened Wrappers
  import opened Seqs
  import opened Text
  import opened Types
  import opened Roster

  // ---------------------------------------------------------------------------------
  // Loading, persisting and importing
  // ---------------------------------------------------------------------------------

  /** The profile of a first run: nobody registered, nobody logged in. */
  function DefaultSchoolInfo(): SchoolInfo {
    SchoolInfo("", "", "", Some(""), "", false, false)
  }

  /** The database of a first run (the `defaultData` of the loader). */
  function DefaultDatabase(): Database {
    Database([], None, [], [], [], DefaultSchoolInfo())
  }

  /**
   * A JSON object as `JSON.parse` returns it: a field that is absent reads as `undefined`
   * (None). `currentSchoolId` is absent (None), `null` (Some(None)) or a string.
   */
  datatype Document = Document(
    schools: Option<seq<School>>,
    currentSchoolId: Option<Option<Id>>,
    classes: Option<seq<SchoolClass>>,
    students: Option<seq<Student>>,
    attendance: Option<seq<AttendanceRecord>>,
    schoolInfo: Option<SchoolInfo>)

  /** What parsing a text gives: an exception (bad syntax, or `null`) or an object. */
  datatype JsonText = Unparsable | Object(doc: Document)

  /** `JSON.stringify(db)`: the document the store persists and exports. */
  function ToDocument(db: Database): (d: Document)
    ensures d.schools.Some? && d.currentSchoolId.Some? && d.classes.Some? && d.students.Some? &&
            d.attendance.Some? && d.schoolInfo.Some?
    ensures FromDocument(d) == db
  {
    Document(Some(db.schools), Some(db.currentSchoolId), Some(db.classes), Some(db.students),
             Some(db.attendance), Some(db.schoolInfo))
  }

  function OrElse<T>(o: Option<T>, d: T): T {
    if o.Some? then o.value else d
  }

  /** The database read from a parsed document; absent fields take their first-run value. */
  function FromDocument(d: Document): (db: Database)
    ensures d.schools.Some? ==> db.schools == d.schools.value
    ensures d.schools.None? ==> db.schools == []
    ensures d.currentSchoolId.Some? ==> db.currentSchoolId == d.currentSchoolId.value
    ensures d.currentSchoolId.None? ==> db.currentSchoolId == None
    ensures d.classes.Some? ==> db.classes == d.classes.value
    ensures d.classes.None? ==> db.classes == []
    ensures d.students.Some? ==> db.students == d.students.value
    ensures d.students.None? ==> db.students == []
    ensures d.attendance.Some? ==> db.attendance == d.attendance.value
    ensures d.attendance.None? ==> db.attendance == []
    ensures d.schoolInfo.Some? ==> db.schoolInfo == d.schoolInfo.value
    ensures d.schoolInfo.None? ==> db.schoolInfo == DefaultSchoolInfo()
  {
    Database(OrElse(d.schools, []), OrElse(d.currentSchoolId, None), OrElse(d.classes, []),
             OrElse(d.students, []), OrElse(d.attendance, []),
             OrElse(d.schoolInfo, DefaultSchoolInfo()))
  }

  /** The start-up state: the saved entry (None when there is none) or the first-run database. */
  function LoadDatabase(saved: Option<JsonText>): (db: Database)
    ensures saved.None? || saved == Some(Unparsable) ==> db == DefaultDatabase()
    ensures saved.Some? && saved.value.Object? ==>
              db.schools == OrElse(saved.value.doc.schools, []) &&
              db.currentSchoolId == OrElse(saved.value.doc.currentSchoolId, None)
    ensures saved.Some? && saved.value.Object? ==> db == FromDocument(saved.value.doc)
  {
    if saved.None? || saved.value.Unparsable? then DefaultDatabase()
    else FromDocument(saved.value.doc)
  }

  /** What the import does to the database. */
  datatype ImportOutcome = Imported(db: Database) | NotADatabase | ParseError

  /** `importData`: a document is taken exactly when it has `schools` or `schoolInfo`. */
  function ImportData(text: JsonText): (r: ImportOutcome)
    ensures r.ParseError? <==> text.Unparsable?
    ensures r.Imported? <==> text.Object? && (text.doc.schools.Some? || text.doc.schoolInfo.Some?)
    ensures r.Imported? ==> r.db == FromDocument(text.doc)
  {
    if text.Unparsable? then ParseError
    else if text.doc.schools.Some? || text.doc.schoolInfo.Some? then Imported(FromDocument(text.doc))
    else NotADatabase
  }

  /** What the store persists is what it loads on the next start. */
  lemma LoadPersisted(db: Database)
    ensures LoadDatabase(Some(Object(ToDocument(db)))) == db
  {
  }

  /** An exported backup imports back to the very same database. */
  lemma ImportExported(db: Database)
    ensures ImportData(Object(ToDocument(db))) == Imported(db)
  {
  }

  // ---------------------------------------------------------------------------------
  // Schools and the selection
  // ---------------------------------------------------------------------------------

  function IsSelected(sel: Option<Id>): School -> bool {
    (s: School) => sel == Some(s.id)
  }

  /** `currentSchool`: the first school whose id is the selected one, or `null`. */
  function CurrentSchool(db: Database): (r: Option<School>)
    ensures r.Some? ==> r.value in db.schools && db.currentSchoolId == Some(r.value.id)
    ensures r.Some? ==> exists i :: 0 <= i < |db.schools| && db.schools[i] == r.value &&
                          forall j :: 0 <= j < i ==> db.currentSchoolId != Some(db.schools[j].id)
    ensures r.None? <==> forall s :: s in db.schools ==> db.currentSchoolId != Some(s.id)
  {
    var r := FindFirst(db.schools, IsSelected(db.currentSchoolId));
    assert r.None? ==> forall s :: s in db.schools ==> db.currentSchoolId != Some(s.id) by {
      if r.None? {
        forall s | s in db.schools ensures db.currentSchoolId != Some(s.id) {
          var i :| 0 <= i < |db.schools| && db.schools[i] == s;
        }
      }
    }
    r
  }

  /** JavaScript truthiness of the selection: `null` and the empty id both mean none. */
  predicate HasSelection(db: Database) {
    db.currentSchoolId.Some? && db.currentSchoolId.value != ""
  }

  /**
   * `signup`: a new profile, registered and logged in; the schools and the selection are
   * reset, while the classes, students and attendance records stay as they were.
   */
  function Signup(db: Database, teacherName: string, password: Option<string>,
                  defaultSubject: string): (r: Database)
    ensures r.schools == [] && r.currentSchoolId == None
    ensures r.schoolInfo == SchoolInfo(teacherName, "", "", password, defaultSubject, true, true)
    ensures r.classes == db.classes && r.students == db.students && r.attendance == db.attendance
  {
    db.(schools := [], currentSchoolId := None,
        schoolInfo := SchoolInfo(teacherName, "", "", password, defaultSubject, true, true))
  }

  /** `addSchool`: the new school goes last and becomes the selected one. */
  function AddSchool(db: Database, name: string, teacherName: string, email: string,
                     password: Option<string>, defaultSubject: string, newId: Id): (r: Database)
    ensures r.schools == db.schools + [School(newId, name, teacherName, email, password, defaultSubject)]
    ensures r.currentSchoolId == Some(newId)
    ensures r == db.(schools := r.schools, currentSchoolId := r.currentSchoolId)
  {
    db.(schools := db.schools + [School(newId, name, teacherName, email, password, defaultSubject)],
        currentSchoolId := Some(newId))
  }

  /** With a fresh id, the school just added is the current school. */
  lemma AddSchoolSelects(db: Database, name: string, teacherName: string, email: string,
                         password: Option<string>, defaultSubject: string, newId: Id)
    requires forall s :: s in db.schools ==> s.id != newId
    ensures CurrentSchool(AddSchool(db, name, teacherName, email, password, defaultSubject, newId))
            == Some(School(newId, name, teacherName, email, password, defaultSubject))
  {
    var r := AddSchool(db, name, teacherName, email, password, defaultSubject, newId);
    var cur := CurrentSchool(r);
    assert r.schools[|db.schools|].id == newId;
    assert cur.Some? ==> cur.value !in db.schools;
  }

  /** `switchSchool`: only the selection changes (to any id, even an unknown one). */
  function SwitchSchool(db: Database, id: Id): (r: Database)
    ensures r.currentSchoolId == Some(id)
    ensures r == db.(currentSchoolId := r.currentSchoolId)
  {
    db.(currentSchoolId := Some(id))
  }

  /** `newSchools[0]?.id || null`: the first school's id, unless there is none or it is empty. */
  function FirstSchoolId(schools: seq<School>): (r: Option<Id>)
    ensures r.Some? <==> schools != [] && schools[0].id != ""
    ensures r.Some? ==> r.value == schools[0].id
  {
    if schools == [] || schools[0].id == "" then None else Some(schools[0].id)
  }

  function SchoolIdIsNot(id: Id): School -> bool {
    (s: School) => s.id != id
  }

  function ClassOutsideSchool(id: Id): SchoolClass -> bool {
    (c: SchoolClass) => c.schoolId != id
  }

  /** Some class of school `schoolId` has the id `classId` (`classes.find(...)` is truthy). */
  predicate ClassOfSchool(classes: seq<SchoolClass>, schoolId: Id, classId: Id) {
    exists c :: c in classes && c.id == classId && c.schoolId == schoolId
  }

  function StudentOutsideSchool(classes: seq<SchoolClass>, id: Id): Student -> bool {
    (s: Student) => !ClassOfSchool(classes, id, s.classId)
  }

  /**
   * `deleteSchool`: the school, its classes and the students of its classes go; the
   * attendance records stay. The selection moves to the first remaining school (in list
   * order) only when the deleted one was selected.
   */
  function DeleteSchool(db: Database, id: Id): (r: Database)
    ensures forall s :: s in r.schools <==> s in db.schools && s.id != id
    ensures forall c :: c in r.classes <==> c in db.classes && c.schoolId != id
    ensures forall s :: s in r.students <==> s in db.students && !ClassOfSchool(db.classes, id, s.classId)
    ensures r.attendance == db.attendance && r.schoolInfo == db.schoolInfo
    ensures db.currentSchoolId != Some(id) ==> r.currentSchoolId == db.currentSchoolId
    ensures db.currentSchoolId == Some(id) ==> r.currentSchoolId == FirstSchoolId(r.schools)
    ensures db.currentSchoolId == Some(id) ==>
              r.currentSchoolId == match FindFirst(db.schools, SchoolIdIsNot(id))
                                   case None => None
                                   case Some(s) => if s.id == "" then None else Some(s.id)
  {
    FilterHead(db.schools, SchoolIdIsNot(id));
    var schools := Filter(db.schools, SchoolIdIsNot(id));
    var current := if db.currentSchoolId == Some(id) then FirstSchoolId(schools) else db.currentSchoolId;
    db.(schools := schools, currentSchoolId := current,
        classes := Filter(db.classes, ClassOutsideSchool(id)),
        students := Filter(db.students, StudentOutsideSchool(db.classes, id)))
  }

  /** What `deleteSchool` keeps stays in order: the old lists with elements left out. */
  lemma DeleteSchoolKeepsOrder(db: Database, id: Id)
    ensures var r := DeleteSchool(db, id);
            IsSubsequence(r.schools, db.schools) && IsSubsequence(r.classes, db.classes) &&
            IsSubsequence(r.students, db.students)
  {
    FilterSubsequence(db.schools, SchoolIdIsNot(id));
    FilterSubsequence(db.classes, ClassOutsideSchool(id));
    FilterSubsequence(db.students, StudentOutsideSchool(db.classes, id));
  }

  /** Every school and class `deleteSchool` keeps is kept as often as it was listed. */
  lemma DeleteSchoolKeepsCopies(db: Database, id: Id)
    ensures var r := DeleteSchool(db, id);
            (forall s :: multiset(r.schools)[s] == if s.id != id then multiset(db.schools)[s] else 0) &&
            (forall c :: multiset(r.classes)[c] == if c.schoolId != id then multiset(db.classes)[c] else 0)
  {
    FilterMultiset(db.schools, SchoolIdIsNot(id));
    FilterMultiset(db.classes, ClassOutsideSchool(id));
  }

  /** After deleting the selected school, the selection is never the deleted id. */
  lemma DeleteSchoolDeselects(db: Database, id: Id)
    requires db.currentSchoolId == Some(id)
    ensures DeleteSchool(db, id).currentSchoolId != Some(id)
  {
    var r := DeleteSchool(db, id);
    if r.schools != [] { assert r.schools[0] in r.schools; }
  }

  // ---------------------------------------------------------------------------------
  // Referential links between the entities
  // ---------------------------------------------------------------------------------

  function SchoolIds(schools: seq<School>): set<Id> {
    set s | s in schools :: s.id
  }

  function ClassIds(classes: seq<SchoolClass>): set<Id> {
    set c | c in classes :: c.id
  }

  /** Every class belongs to an existing school (`SchoolClass.schoolId`). */
  predicate ClassesHaveSchools(db: Database) {
    forall c :: c in db.classes ==> c.schoolId in SchoolIds(db.schools)
  }

  /** Every student belongs to an existing class (`Student.classId`). */
  predicate StudentsHaveClasses(db: Database) {
    forall s :: s in db.students ==> s.classId in ClassIds(db.classes)
  }

  /** Every attendance record names an existing class (`AttendanceRecord.classId`). */
  predicate RecordsHaveClasses(db: Database) {
    forall a :: a in db.attendance ==> a.classId in ClassIds(db.classes)
  }

  /** Deleting a school keeps every remaining class and student attached. */
  lemma DeleteSchoolKeepsLinks(db: Database, id: Id)
    requires ClassesHaveSchools(db) && StudentsHaveClasses(db)
    ensures ClassesHaveSchools(DeleteSchool(db, id)) && StudentsHaveClasses(DeleteSchool(db, id))
  {
    var r := DeleteSchool(db, id);
    forall c | c in r.classes ensures c.schoolId in SchoolIds(r.schools) {
      var s :| s in db.schools && s.id == c.schoolId;
      assert s in r.schools;
    }
    forall st | st in r.students ensures st.classId in ClassIds(r.classes) {
      var c :| c in db.classes && c.id == st.classId;
      assert c.schoolId != id;
      assert c in r.classes;
    }
  }

  /**
   * Deleting a school can leave attendance records of its classes behind: here the only
   * class goes, and its record stays, naming a class that no longer exists.
   */
  lemma DeleteSchoolOrphansRecords()
    ensures var db := Database(
              [School("s", "Escola", "Ana", "", None, "")], Some("s"),
              [SchoolClass("c", "s", "5A", "", "Geral", "Manh\U{E3}")],
              [], [AttendanceRecord("r", "2024-03-01", "c", "x", Present)], DefaultSchoolInfo());
            RecordsHaveClasses(db) && !RecordsHaveClasses(DeleteSchool(db, "s"))
  {
    var db := Database(
              [School("s", "Escola", "Ana", "", None, "")], Some("s"),
              [SchoolClass("c", "s", "5A", "", "Geral", "Manh\U{E3}")],
              [], [AttendanceRecord("r", "2024-03-01", "c", "x", Present)], DefaultSchoolInfo());
    var r := DeleteSchool(db, "s");
    assert db.classes[0] in db.classes;
    assert db.attendance[0] in r.attendance;
    assert r.classes == [];
  }

  /** `signup` detaches every class that was there: no school is left for it. */
  lemma SignupOrphansClasses(db: Database, teacherName: string, password: Option<string>,
                             defaultSubject: string)
    requires db.classes != []
    ensures !ClassesHaveSchools(Signup(db, teacherName, password, defaultSubject))
  {
    assert db.classes[0] in Signup(db, teacherName, password, defaultSubject).classes;
  }

  // ---------------------------------------------------------------------------------
  // The session
  // ---------------------------------------------------------------------------------

  /**
   * The credentials `login` accepts: a registered profile, the same teacher name once
   * lower-cased and trimmed, and exactly the stored password.
   */
  predicate LoginAccepted(info: SchoolInfo, name: string, pass: string) {
    info.isRegistered && Trim(ToLower(info.teacherName)) == Trim(ToLower(name)) &&
    info.password == Some(pass)
  }

  /** `login`: sets the logged-in flag when the credentials are accepted, else changes nothing. */
  function Login(db: Database, name: string, pass: string): (r: Database)
    ensures LoginAccepted(db.schoolInfo, name, pass) ==>
              r == db.(schoolInfo := db.schoolInfo.(isLoggedIn := true))
    ensures !LoginAccepted(db.schoolInfo, name, pass) ==> r == db
  {
    if LoginAccepted(db.schoolInfo, name, pass) then db.(schoolInfo := db.schoolInfo.(isLoggedIn := true))
    else db
  }

  /** `logout`: only the logged-in flag is cleared. */
  function Logout(db: Database): (r: Database)
    ensures !r.schoolInfo.isLoggedIn
    ensures r == db.(schoolInfo := db.schoolInfo.(isLoggedIn := false))
  {
    db.(schoolInfo := db.schoolInfo.(isLoggedIn := false))
  }

  /**
   * The name is compared without regard to capitals or leading spaces: whatever name
   * logs in, its lower-cased form with a space in front logs in too.
   */
  lemma LoginIgnoresCaseAndSpace(info: SchoolInfo, name: string, pass: string)
    requires LoginAccepted(info, name, pass)
    ensures LoginAccepted(info, " " + ToLower(name), pass)
  {
    NormalizedSpaced(name);
  }

  lemma NormalizedSpaced(name: string)
    ensures Trim(ToLower(" " + ToLower(name))) == Trim(ToLower(name))
  {
    var l := ToLower(name);
    assert ToLower(" " + l) == " " + l by {
      ToLowerIdempotent(name);
      assert ToLower(" " + l) == " " + ToLower(l);
    }
    TrimSkipsLeadingSpace(' ', l);
  }

  /** Whoever signs up with a password can log in with it after logging out. */
  lemma SignupThenLogin(db: Database, teacherName: string, pass: string, defaultSubject: string)
    ensures var r := Logout(Signup(db, teacherName, Some(pass), defaultSubject));
            LoginAccepted(r.schoolInfo, teacherName, pass) &&
            Login(r, teacherName, pass).schoolInfo.isLoggedIn
  {
  }

  /** A profile without a password (`password?` absent) accepts no login at all. */
  lemma NoPasswordNoLogin(info: SchoolInfo, name: string, pass: string)
    requires info.password.None?
    ensures !LoginAccepted(info, name, pass)
  {
  }

  /** `updateSchoolInfo`: the profile fields it copies onto the selected school. */
  function Reprofiled(s: School, info: SchoolInfo): School {
    s.(name := info.schoolName, teacherName := info.teacherName, email := info.email,
       defaultSubject := info.defaultSubject)
  }

  function ReprofileSchools(schools: seq<School>, sel: Option<Id>, info: SchoolInfo): (r: seq<School>)
    ensures |r| == |schools|
    ensures forall i :: 0 <= i < |schools| ==>
              r[i] == if sel == Some(schools[i].id) then Reprofiled(schools[i], info) else schools[i]
  {
    if schools == [] then []
    else [if sel == Some(schools[0].id) then Reprofiled(schools[0], info) else schools[0]] +
         ReprofileSchools(schools[1..], sel, info)
  }

  /**
   * `updateSchoolInfo`: the profile is replaced, and every school with the selected id
   * takes its name, teacher, e-mail and default subject (not its password).
   */
  function UpdateSchoolInfo(db: Database, info: SchoolInfo): (r: Database)
    ensures r.schoolInfo == info
    ensures |r.schools| == |db.schools|
    ensures forall i :: 0 <= i < |db.schools| ==>
              r.schools[i].id == db.schools[i].id && r.schools[i].password == db.schools[i].password
    ensures forall i :: 0 <= i < |db.schools| && db.currentSchoolId != Some(db.schools[i].id) ==>
              r.schools[i] == db.schools[i]
    ensures forall i :: 0 <= i < |db.schools| && db.currentSchoolId == Some(db.schools[i].id) ==>
              r.schools[i].name == info.schoolName && r.schools[i].teacherName == info.teacherName &&
              r.schools[i].email == info.email && r.schools[i].defaultSubject == info.defaultSubject
    ensures r == db.(schoolInfo := info, schools := r.schools)
  {
    db.(schoolInfo := info, schools := ReprofileSchools(db.schools, db.currentSchoolId, info))
  }

  /** After a profile update the current school shows the new profile. */
  lemma {:induction false} ReprofileCurrent(schools: seq<School>, sel: Option<Id>, info: SchoolInfo)
    ensures FindFirst(ReprofileSchools(schools, sel, info), IsSelected(sel)) ==
            match FindFirst(schools, IsSelected(sel))
            case None => None
            case Some(s) => Some(Reprofiled(s, info))
  {
    if schools != [] {
      var r := ReprofileSchools(schools, sel, info);
      assert r[1..] == ReprofileSchools(schools[1..], sel, info);
      ReprofileCurrent(schools[1..], sel, info);
    }
  }

  lemma UpdateSchoolInfoCurrent(db: Database, info: SchoolInfo)
    ensures CurrentSchool(UpdateSchoolInfo(db, info)) ==
            match CurrentSchool(db)
            case None => None
            case Some(s) => Some(Reprofiled(s, info))
  {
    ReprofileCurrent(db.schools, db.currentSchoolId, info);
  }

  // ---------------------------------------------------------------------------------
  // Classes
  // ---------------------------------------------------------------------------------

  /** `addClass`: without a selected school nothing happens; otherwise the class goes last. */
  function AddClass(db: Database, name: string, description: string, subject: string,
                    shift: string, newId: Id): (r: Database)
    ensures !HasSelection(db) ==> r == db
    ensures HasSelection(db) ==>
              r == db.(classes := db.classes +
                         [SchoolClass(newId, db.currentSchoolId.value, name, description, subject, shift)])
  {
    if !HasSelection(db) then db
    else db.(classes := db.classes +
               [SchoolClass(newId, db.currentSchoolId.value, name, description, subject, shift)])
  }

  function ClassEdited(c: SchoolClass, id: Id, name: string, description: string,
                       subject: string, shift: string): SchoolClass {
    if c.id == id then c.(name := name, description := description, subject := subject, shift := shift)
    else c
  }

  /** `editClass`: the class with that id takes the four fields; nothing else changes. */
  function EditClass(db: Database, id: Id, name: string, description: string, subject: string,
                     shift: string): (r: Database)
    ensures |r.classes| == |db.classes|
    ensures forall i :: 0 <= i < |db.classes| ==>
              r.classes[i].id == db.classes[i].id && r.classes[i].schoolId == db.classes[i].schoolId
    ensures forall i :: 0 <= i < |db.classes| && db.classes[i].id != id ==> r.classes[i] == db.classes[i]
    ensures forall i :: 0 <= i < |db.classes| && db.classes[i].id == id ==>
              r.classes[i] == SchoolClass(id, db.classes[i].schoolId, name, description, subject, shift)
    ensures r == db.(classes := r.classes)
  {
    db.(classes := seq(|db.classes|, i requires 0 <= i < |db.classes| =>
                         ClassEdited(db.classes[i], id, name, description, subject, shift)))
  }

  /** Editing a class keeps every link between the entities. */
  lemma EditClassKeepsLinks(db: Database, id: Id, name: string, description: string,
                            subject: string, shift: string)
    ensures var r := EditClass(db, id, name, description, subject, shift);
            ClassIds(r.classes) == ClassIds(db.classes) &&
            (ClassesHaveSchools(db) ==> ClassesHaveSchools(r))
  {
    var r := EditClass(db, id, name, description, subject, shift);
    forall x | x in ClassIds(db.classes) ensures x in ClassIds(r.classes) {
      var c :| c in db.classes && c.id == x;
      var i :| 0 <= i < |db.classes| && db.classes[i] == c;
      assert r.classes[i] in r.classes;
    }
    forall c | c in r.classes
      ensures c.id in ClassIds(db.classes) && c.schoolId == db.classes[IndexIn(r.classes, c)].schoolId
    {
      var i := IndexIn(r.classes, c);
      assert db.classes[i] in db.classes;
    }
  }

  function IndexIn<T(==)>(s: seq<T>, x: T): (i: nat)
    requires x in s
    ensures i < |s| && s[i] == x
  {
    if s[0] == x then 0 else 1 + IndexIn(s[1..], x)
  }

  /** One line of a bulk class import; `subject` and `shift` may be absent. */
  datatype ClassEntry = ClassEntry(name: string, description: string,
                                   subject: Option<string>, shift: Option<string>)

  /** JavaScript `v || d` on an optional string: `d` when `v` is absent or empty. */
  function Fallback(v: Option<string>, d: string): (r: string)
    ensures v.Some? && v.value != "" ==> r == v.value
    ensures v.None? || v.value == "" ==> r == d
  {
    if v.Some? && v.value != "" then v.value else d
  }

  /** `currentSchool?.defaultSubject`. */
  function CurrentDefaultSubject(db: Database): Option<string> {
    match CurrentSchool(db)
    case None => None
    case Some(s) => Some(s.defaultSubject)
  }

  /** The shift of an imported class without one, as the source spells it. */
  const UnknownShift: string := "N\U{C3}\U{A3}o informado"

  function ImportedClass(db: Database, e: ClassEntry, newId: Id): SchoolClass
    requires HasSelection(db)
  {
    SchoolClass(newId, db.currentSchoolId.value, e.name, e.description,
                Fallback(e.subject, Fallback(CurrentDefaultSubject(db), "Geral")),
                Fallback(e.shift, UnknownShift))
  }

  /**
   * `bulkAddClasses`: without a selected school nothing happens; otherwise one class per
   * entry is appended in entry order, each with a non-empty subject and shift; an entry
   * without a shift gets `UnknownShift`.
   */
  function BulkAddClasses(db: Database, entries: seq<ClassEntry>, ids: seq<Id>): (r: Database)
    requires |ids| == |entries|
    ensures !HasSelection(db) ==> r == db
    ensures HasSelection(db) ==>
              r == db.(classes := r.classes) && |r.classes| == |db.classes| + |entries| &&
              r.classes[..|db.classes|] == db.classes
    ensures HasSelection(db) ==> forall i :: 0 <= i < |entries| ==>
              var c := r.classes[|db.classes| + i];
              c.id == ids[i] && c.schoolId == db.currentSchoolId.value &&
              c.name == entries[i].name && c.description == entries[i].description &&
              c.subject != "" && c.shift != "" &&
              (entries[i].subject.Some? && entries[i].subject.value != "" ==>
                 c.subject == entries[i].subject.value) &&
              (entries[i].shift.Some? && entries[i].shift.value != "" ==>
                 c.shift == entries[i].shift.value) &&
              (entries[i].shift.None? || entries[i].shift.value == "" ==> c.shift == UnknownShift)
  {
    if !HasSelection(db) then db
    else
      var added := seq(|entries|, i requires 0 <= i < |entries| => ImportedClass(db, entries[i], ids[i]));
      db.(classes := db.classes + added)
  }

  /** An imported entry without a subject takes the current school's default, else "Geral". */
  lemma BulkAddClassesSubject(db: Database, entries: seq<ClassEntry>, ids: seq<Id>, i: nat)
    requires |ids| == |entries| && HasSelection(db) && i < |entries|
    requires entries[i].subject.None? || entries[i].subject.value == ""
    ensures var subject := BulkAddClasses(db, entries, ids).classes[|db.classes| + i].subject;
            match CurrentSchool(db)
            case Some(s) => subject == (if s.defaultSubject != "" then s.defaultSubject else "Geral")
            case None => subject == "Geral"
  {
  }

  function ClassIdIsNot(id: Id): SchoolClass -> bool {
    (c: SchoolClass) => c.id != id
  }

  function RecordOutsideClass(id: Id): AttendanceRecord -> bool {
    (a: AttendanceRecord) => a.classId != id
  }

  /**
   * `deleteClass`: the class, its students and its attendance records go; everything
   * that names another class stays.
   */
  function DeleteClass(db: Database, id: Id): (r: Database)
    ensures forall c :: c in r.classes <==> c in db.classes && c.id != id
    ensures forall s :: s in r.students <==> s in db.students && s.classId != id
    ensures forall a :: a in r.attendance <==> a in db.attendance && a.classId != id
    ensures r == db.(classes := r.classes, students := r.students, attendance := r.attendance)
  {
    db.(classes := Filter(db.classes, ClassIdIsNot(id)),
        students := OtherClasses(db.students, id),
        attendance := Filter(db.attendance, RecordOutsideClass(id)))
  }

  /** What `deleteClass` keeps stays in order: the old lists with elements left out. */
  lemma DeleteClassKeepsOrder(db: Database, id: Id)
    ensures var r := DeleteClass(db, id);
            IsSubsequence(r.classes, db.classes) && IsSubsequence(r.students, db.students) &&
            IsSubsequence(r.attendance, db.attendance)
  {
    FilterSubsequence(db.classes, ClassIdIsNot(id));
    FilterSubsequence(db.students, NotInClass(id));
    FilterSubsequence(db.attendance, RecordOutsideClass(id));
  }

  /** Every class, student and record `deleteClass` keeps is kept as often as it was listed. */
  lemma DeleteClassKeepsCopies(db: Database, id: Id)
    ensures var r := DeleteClass(db, id);
            (forall c :: multiset(r.classes)[c] == if c.id != id then multiset(db.classes)[c] else 0) &&
            (forall s :: multiset(r.students)[s] == if s.classId != id then multiset(db.students)[s] else 0) &&
            (forall a :: multiset(r.attendance)[a] == if a.classId != id then multiset(db.attendance)[a] else 0)
  {
    FilterMultiset(db.classes, ClassIdIsNot(id));
    FilterMultiset(db.students, NotInClass(id));
    FilterMultiset(db.attendance, RecordOutsideClass(id));
  }

  /** Deleting a class keeps every remaining student and record attached to a class. */
  lemma DeleteClassKeepsLinks(db: Database, id: Id)
    requires ClassesHaveSchools(db) && StudentsHaveClasses(db) && RecordsHaveClasses(db)
    ensures var r := DeleteClass(db, id);
            ClassesHaveSchools(r) && StudentsHaveClasses(r) && RecordsHaveClasses(r) &&
            id !in ClassIds(r.classes)
  {
    var r := DeleteClass(db, id);
    forall s | s in r.students ensures s.classId in ClassIds(r.classes) {
      var c :| c in db.classes && c.id == s.classId;
      assert c in r.classes;
    }
    forall a | a in r.attendance ensures a.classId in ClassIds(r.classes) {
      var c :| c in db.classes && c.id == a.classId;
      assert c in r.classes;
    }
  }

  // ---------------------------------------------------------------------------------
  // Students
  // ---------------------------------------------------------------------------------

  /**
   * Appending students of class `c` and renumbering `c`: everybody is kept up to roll
   * numbers, the other classes are untouched, and `c` grows by the appended students.
   */
  lemma AppendRenumbered(students: seq<Student>, added: seq<Student>, c: Id)
    requires forall s :: s in added ==> s.classId == c
    ensures var r := AutoNumber(students + added, c);
            multiset(Unnumbered(r)) == multiset(Unnumbered(students)) + multiset(Unnumbered(added)) &&
            OtherClasses(r, c) == OtherClasses(students, c) &&
            |ClassStudents(r, c)| == |ClassStudents(students, c)| + |added|
  {
    var list := students + added;
    var r := AutoNumber(list, c);
    UnnumberedConcat(students, added);
    FilterConcat(students, added, NotInClass(c));
    FilterConcat(students, added, InClass(c));
    FilterDropsAll(added, NotInClass(c));
    FilterKeepsAll(added, InClass(c));
    ClassSizeAfterRenumber(list, r, c);
  }

  /** `addStudent`: the new student gets the placeholder roll number "0", then its class is renumbered. */
  function AddStudent(db: Database, classId: Id, name: string, rollNumber: string,
                      status: StudentStatus, newId: Id): (r: Database)
    ensures multiset(Unnumbered(r.students)) ==
            multiset(Unnumbered(db.students)) + multiset{Student(newId, classId, name, "", status)}
    ensures OtherClasses(r.students, classId) == OtherClasses(db.students, classId)
    ensures NumberedInOrder(ClassStudents(r.students, classId))
    ensures |ClassStudents(r.students, classId)| == |ClassStudents(db.students, classId)| + 1
    ensures r.students == OtherClasses(r.students, classId) + ClassStudents(r.students, classId)
    ensures r == db.(students := r.students)
  {
    AppendOne(db.students, Student(newId, classId, name, "0", status));
    db.(students := AutoNumber(db.students + [Student(newId, classId, name, "0", status)], classId))
  }

  /** `AppendRenumbered` for a single student. */
  lemma AppendOne(students: seq<Student>, x: Student)
    ensures var r := AutoNumber(students + [x], x.classId);
            multiset(Unnumbered(r)) == multiset(Unnumbered(students)) + multiset{x.(rollNumber := "")} &&
            OtherClasses(r, x.classId) == OtherClasses(students, x.classId) &&
            |ClassStudents(r, x.classId)| == |ClassStudents(students, x.classId)| + 1
  {
    AppendRenumbered(students, [x], x.classId);
    assert Unnumbered([x]) == [x.(rollNumber := "")];
  }

  /** Renumbering keeps the size of every class. */
  lemma ClassSizeAfterRenumber(list: seq<Student>, r: seq<Student>, c: Id)
    requires r == AutoNumber(list, c)
    ensures |ClassStudents(r, c)| == |ClassStudents(list, c)|
  {
    SplitByClass(list, c);
    assert |r| == |OtherClasses(r, c)| + |ClassStudents(r, c)|;
    assert |list| == |multiset(list)| == |OtherClasses(list, c) + ClassStudents(list, c)|;
  }

  /** The roll number argument of `addStudent` is ignored. */
  lemma AddStudentIgnoresRollNumber(db: Database, classId: Id, name: string, roll1: string,
                                    roll2: string, status: StudentStatus, newId: Id)
    ensures AddStudent(db, classId, name, roll1, status, newId) ==
            AddStudent(db, classId, name, roll2, status, newId)
  {
  }

  /** One line of a bulk student import; its roll number is ignored. */
  datatype StudentEntry = StudentEntry(name: string, rollNumber: string)

  /** The students a bulk import creates: active, in class `classId`, numbered "0", in entry order. */
  function NewStudents(classId: Id, entries: seq<StudentEntry>, ids: seq<Id>): (r: seq<Student>)
    requires |ids| == |entries|
    ensures |r| == |entries|
    ensures forall i :: 0 <= i < |entries| ==>
              r[i] == Student(ids[i], classId, entries[i].name, "0", Ativo)
  {
    seq(|entries|, i requires 0 <= i < |entries| => Student(ids[i], classId, entries[i].name, "0", Ativo))
  }

  /** `bulkAddStudents`: one active student per entry, then the class is renumbered. */
  function BulkAddStudents(db: Database, classId: Id, entries: seq<StudentEntry>, ids: seq<Id>): (r: Database)
    requires |ids| == |entries|
    ensures multiset(Unnumbered(r.students)) ==
            multiset(Unnumbered(db.students)) + multiset(Unnumbered(NewStudents(classId, entries, ids)))
    ensures OtherClasses(r.students, classId) == OtherClasses(db.students, classId)
    ensures NumberedInOrder(ClassStudents(r.students, classId))
    ensures |ClassStudents(r.students, classId)| == |ClassStudents(db.students, classId)| + |entries|
    ensures r.students == OtherClasses(r.students, classId) + ClassStudents(r.students, classId)
    ensures r == db.(students := r.students)
  {
    var added := NewStudents(classId, entries, ids);
    AppendRenumbered(db.students, added, classId);
    db.(students := AutoNumber(db.students + added, classId))
  }

  function StudentEdited(s: Student, id: Id, name: string, status: StudentStatus, classId: Id): Student {
    if s.id == id then s.(name := name, status := status, classId := classId) else s
  }

  /** `students.map(s => s.id === id ? { ...s, name, status, classId } : s)`. */
  function EditFields(students: seq<Student>, id: Id, name: string, status: StudentStatus,
                      classId: Id): (r: seq<Student>)
    ensures |r| == |students|
    ensures forall i :: 0 <= i < |students| ==> r[i] == StudentEdited(students[i], id, name, status, classId)
  {
    seq(|students|, i requires 0 <= i < |students| => StudentEdited(students[i], id, name, status, classId))
  }

  /**
   * `editStudent`: the student with that id takes the new name, status and class; then
   * only the destination class is renumbered.
   */
  function EditStudent(db: Database, id: Id, name: string, rollNumber: string,
                       status: StudentStatus, classId: Id): (r: Database)
    ensures multiset(Unnumbered(r.students)) ==
            multiset(Unnumbered(EditFields(db.students, id, name, status, classId)))
    ensures OtherClasses(r.students, classId) ==
            OtherClasses(EditFields(db.students, id, name, status, classId), classId)
    ensures NumberedInOrder(ClassStudents(r.students, classId))
    ensures r.students == OtherClasses(r.students, classId) + ClassStudents(r.students, classId)
    ensures r == db.(students := r.students)
  {
    db.(students := AutoNumber(EditFields(db.students, id, name, status, classId), classId))
  }

  function IdIsNot(id: Id): Student -> bool {
    (s: Student) => s.id != id
  }

  function HasId(id: Id): Student -> bool {
    (s: Student) => s.id == id
  }

  function RecordOfOther(studentId: Id): AttendanceRecord -> bool {
    (a: AttendanceRecord) => a.studentId != studentId
  }

  /** Outside the destination class, the edit only takes the moved student out of its class. */
  lemma {:induction false} EditFieldsOtherClass(students: seq<Student>, id: Id, name: string,
                                                status: StudentStatus, classId: Id, other: Id)
    requires other != classId
    ensures ClassStudents(EditFields(students, id, name, status, classId), other) ==
            Filter(ClassStudents(students, other), IdIsNot(id))
  {
    if students != [] {
      var e := EditFields(students, id, name, status, classId);
      assert e[1..] == EditFields(students[1..], id, name, status, classId);
      assert e == [e[0]] + e[1..];
      EditFieldsOtherClass(students[1..], id, name, status, classId, other);
      FilterConcat([e[0]], e[1..], InClass(other));
      var m := if students[0].classId == other then [students[0]] else [];
      FilterConcat(m, ClassStudents(students[1..], other), IdIsNot(id));
    }
  }

  /**
   * The class a student leaves is not renumbered: its other students keep their roll
   * numbers and their order, the moved student is simply gone.
   */
  lemma EditStudentSourceClass(db: Database, id: Id, name: string, rollNumber: string,
                               status: StudentStatus, classId: Id, other: Id)
    requires other != classId
    ensures ClassStudents(EditStudent(db, id, name, rollNumber, status, classId).students, other) ==
            Filter(ClassStudents(db.students, other), IdIsNot(id))
  {
    var list := EditFields(db.students, id, name, status, classId);
    var r := AutoNumber(list, classId);
    var o, m := OtherClasses(r, classId), ClassStudents(r, classId);
    FilterConcat(o, m, InClass(other));
    FilterDropsAll(m, InClass(other));
    FilterFilter(list, NotInClass(classId), InClass(other));
    EditFieldsOtherClass(db.students, id, name, status, classId, other);
  }

  /**
   * Moving the student numbered "01" out of a class of two or more leaves a gap: the class
   * left behind now starts at "02".
   */
  lemma EditStudentLeavesGap(db: Database, id: Id, name: string, rollNumber: string,
                             status: StudentStatus, classId: Id, other: Id)
    requires other != classId
    requires NumberedInOrder(ClassStudents(db.students, other))
    requires |ClassStudents(db.students, other)| >= 2
    requires ClassStudents(db.students, other)[0].id == id
    requires forall k :: 1 <= k < |ClassStudents(db.students, other)| ==>
               ClassStudents(db.students, other)[k].id != id
    ensures !NumberedInOrder(ClassStudents(EditStudent(db, id, name, rollNumber, status, classId).students, other))
  {
    var a := ClassStudents(db.students, other);
    EditStudentSourceClass(db, id, name, rollNumber, status, classId, other);
    DropLeading(a, id);
    GapAtStart(a);
  }

  /** Filtering out an id that only the first student has drops just that student. */
  lemma DropLeading(a: seq<Student>, id: Id)
    requires a != [] && a[0].id == id
    requires forall k :: 1 <= k < |a| ==> a[k].id != id
    ensures Filter(a, IdIsNot(id)) == a[1..]
  {
    assert a == [a[0]] + a[1..];
    FilterConcat([a[0]], a[1..], IdIsNot(id));
    assert forall x :: x in a[1..] ==> x.id != id;
    FilterKeepsAll(a[1..], IdIsNot(id));
  }

  /** A numbered roster of two or more without its first student starts at "02". */
  lemma GapAtStart(a: seq<Student>)
    requires NumberedInOrder(a) && |a| >= 2
    ensures !NumberedInOrder(a[1..])
  {
    assert a[1..][0] == a[1];
    if PadTwo(2) == PadTwo(1) { PadTwoInjective(2, 1); }
  }

  /** The student list `deleteStudent` leaves: the others, renumbered in the removed student's class. */
  function RemainingStudents(students: seq<Student>, id: Id): seq<Student> {
    var removed := FindFirst(students, HasId(id));
    var remaining := Filter(students, IdIsNot(id));
    if removed.Some? && removed.value.classId != "" then AutoNumber(remaining, removed.value.classId)
    else remaining
  }

  /** What `RemainingStudents` keeps: everyone but the id, up to roll numbers, and nobody with the id. */
  lemma RemainingStudentsFacts(students: seq<Student>, id: Id)
    ensures var r := RemainingStudents(students, id);
            (forall s :: s in r ==> s.id != id) &&
            multiset(Unnumbered(r)) == multiset(Unnumbered(Filter(students, IdIsNot(id)))) &&
            ((forall s :: s in students ==> s.id != id) ==> r == students)
  {
    var removed := FindFirst(students, HasId(id));
    var remaining := Filter(students, IdIsNot(id));
    if forall s :: s in students ==> s.id != id {
      FilterKeepsAll(students, IdIsNot(id));
    }
    if removed.Some? && removed.value.classId != "" {
      forall s | s in AutoNumber(remaining, removed.value.classId) ensures s.id != id {
        AutoNumberMember(remaining, removed.value.classId, s);
      }
    }
  }

  /**
   * `deleteStudent`: the student and exactly its attendance records go; its former class
   * is renumbered when it has a (non-empty) class id. An unknown id changes no student.
   */
  function DeleteStudent(db: Database, id: Id): (r: Database)
    ensures forall s :: s in r.students ==> s.id != id
    ensures multiset(Unnumbered(r.students)) == multiset(Unnumbered(Filter(db.students, IdIsNot(id))))
    ensures forall a :: a in r.attendance <==> a in db.attendance && a.studentId != id
    ensures (forall s :: s in db.students ==> s.id != id) ==> r.students == db.students
    ensures var found := FindFirst(db.students, HasId(id));
            found.Some? && found.value.classId != "" ==>
              NumberedInOrder(ClassStudents(r.students, found.value.classId)) &&
              OtherClasses(r.students, found.value.classId) ==
                OtherClasses(Filter(db.students, IdIsNot(id)), found.value.classId)
    ensures var found := FindFirst(db.students, HasId(id));
            !(found.Some? && found.value.classId != "") ==> r.students == Filter(db.students, IdIsNot(id))
    ensures r == db.(students := r.students, attendance := r.attendance)
  {
    RemainingStudentsFacts(db.students, id);
    db.(students := RemainingStudents(db.students, id), attendance := Filter(db.attendance, RecordOfOther(id)))
  }
  /** The records `deleteStudent` keeps stay in order, each as often as before. */
  lemma DeleteStudentKeepsRecordOrder(db: Database, id: Id)
    ensures var r := DeleteStudent(db, id);
            IsSubsequence(r.attendance, db.attendance) &&
            forall a :: multiset(r.attendance)[a] == if a.studentId != id then multiset(db.attendance)[a] else 0
  {
    FilterSubsequence(db.attendance, RecordOfOther(id));
    FilterMultiset(db.attendance, RecordOfOther(id));
  }

  // ---------------------------------------------------------------------------------
  // Attendance
  // ---------------------------------------------------------------------------------

  /** One entry of the attendance call. */
  datatype CallEntry = CallEntry(studentId: Id, status: AttendanceStatus)

  function OnSession(classId: Id, date: string): AttendanceRecord -> bool {
    (a: AttendanceRecord) => a.classId == classId && a.date == date
  }

  function OffSession(classId: Id, date: string): AttendanceRecord -> bool {
    (a: AttendanceRecord) => !(a.classId == classId && a.date == date)
  }

  /** The records of one class on one date, in list order. */
  function RecordsOn(attendance: seq<AttendanceRecord>, classId: Id, date: string): seq<AttendanceRecord> {
    Filter(attendance, OnSession(classId, date))
  }

  function NewRecords(classId: Id, date: string, entries: seq<CallEntry>, ids: seq<Id>): (r: seq<AttendanceRecord>)
    requires |ids| == |entries|
    ensures |r| == |entries|
    ensures forall i :: 0 <= i < |entries| ==>
              r[i] == AttendanceRecord(ids[i], date, classId, entries[i].studentId, entries[i].status)
  {
    seq(|entries|, i requires 0 <= i < |entries| =>
      AttendanceRecord(ids[i], date, classId, entries[i].studentId, entries[i].status))
  }

  /**
   * `saveAttendance`: the records of `(classId, date)` become exactly one per entry, in
   * entry order; every other record stays, in its order.
   */
  function SaveAttendance(db: Database, classId: Id, date: string, entries: seq<CallEntry>,
                          ids: seq<Id>): (r: Database)
    requires |ids| == |entries|
    ensures var on := RecordsOn(r.attendance, classId, date);
            |on| == |entries| &&
            forall i :: 0 <= i < |entries| ==>
              on[i].studentId == entries[i].studentId && on[i].status == entries[i].status &&
              on[i].id == ids[i]
    ensures Filter(r.attendance, OffSession(classId, date)) == Filter(db.attendance, OffSession(classId, date))
    ensures r == db.(attendance := r.attendance)
  {
    var kept := Filter(db.attendance, OffSession(classId, date));
    var added := NewRecords(classId, date, entries, ids);
    SaveAttendanceSplit(db.attendance, classId, date, added);
    db.(attendance := kept + added)
  }

  lemma SaveAttendanceSplit(attendance: seq<AttendanceRecord>, classId: Id, date: string,
                            added: seq<AttendanceRecord>)
    requires forall a :: a in added ==> a.classId == classId && a.date == date
    ensures var kept := Filter(attendance, OffSession(classId, date));
            RecordsOn(kept + added, classId, date) == added &&
            Filter(kept + added, OffSession(classId, date)) == kept
  {
    var kept := Filter(attendance, OffSession(classId, date));
    FilterConcat(kept, added, OnSession(classId, date));
    FilterConcat(kept, added, OffSession(classId, date));
    FilterDropsAll(kept, OnSession(classId, date));
    FilterKeepsAll(added, OnSession(classId, date));
    FilterKeepsAll(kept, OffSession(classId, date));
    FilterDropsAll(added, OffSession(classId, date));
  }

  /** Saving a call again replaces the first save entirely. */
  lemma SaveAttendanceTwice(db: Database, classId: Id, date: string, first: seq<CallEntry>,
                            ids1: seq<Id>, second: seq<CallEntry>, ids2: seq<Id>)
    requires |ids1| == |first| && |ids2| == |second|
    ensures SaveAttendance(SaveAttendance(db, classId, date, first, ids1), classId, date, second, ids2)
            == SaveAttendance(db, classId, date, second, ids2)
  {
    var once := SaveAttendance(db, classId, date, first, ids1);
    assert Filter(once.attendance, OffSession(classId, date)) ==
           Filter(db.attendance, OffSession(classId, date));
  }

  /** Saving one call leaves the records of every other class and date as they were. */
  lemma SaveAttendanceOtherSession(db: Database, classId: Id, date: string, entries: seq<CallEntry>,
                                   ids: seq<Id>, otherClass: Id, otherDate: string)
    requires |ids| == |entries|
    requires otherClass != classId || otherDate != date
    ensures RecordsOn(SaveAttendance(db, classId, date, entries, ids).attendance, otherClass, otherDate) ==
            RecordsOn(db.attendance, otherClass, otherDate)
  {
    var r := SaveAttendance(db, classId, date, entries, ids);
    var kept := Filter(db.attendance, OffSession(classId, date));
    var added := NewRecords(classId, date, entries, ids);
    var on := OnSession(otherClass, otherDate);
    FilterConcat(kept, added, on);
    FilterDropsAll(added, on);
    FilterFilter(db.attendance, OffSession(classId, date), on);
  }
}
