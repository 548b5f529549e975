/**
 * The store of store/AttendanceContext.tsx as an object: one `db` field that every
 * operation replaces with the transition of the same name in `StoreOps`. Persisting
 * `db` after each change is `StoreOps.ToDocument`; what is read back is `StoreOps.LoadPersisted`.
 */
module Store {
  import opened Wrappers
  import opened Types
  import StoreOps

  class AttendanceStore {
    var db: Database

    /** The start-up state: the saved document, or the first-run database without one. */
    constructor Load(saved: Option<StoreOps.JsonText>)
      ensures db == StoreOps.LoadDatabase(saved)
    {
      db := StoreOps.LoadDatabase(saved);
    }

    /** `currentSchool`. */
    function Current(): Option<School>
      reads this
    {
      StoreOps.CurrentSchool(db)
    }

    method Signup(teacherName: string, password: Option<string>, defaultSubject: string)
      modifies this
      ensures db == StoreOps.Signup(old(db), teacherName, password, defaultSubject)
      ensures db.schoolInfo.isRegistered && db.schoolInfo.isLoggedIn
    {
      db := StoreOps.Signup(db, teacherName, password, defaultSubject);
    }

    method AddSchool(name: string, teacherName: string, email: string, password: Option<string>,
                     defaultSubject: string, newId: Id)
      modifies this
      ensures db == StoreOps.AddSchool(old(db), name, teacherName, email, password, defaultSubject, newId)
      ensures (forall s :: s in old(db).schools ==> s.id != newId) ==>
                Current() == Some(School(newId, name, teacherName, email, password, defaultSubject))
    {
      db := StoreOps.AddSchool(db, name, teacherName, email, password, defaultSubject, newId);
      if forall s :: s in old(db).schools ==> s.id != newId {
        StoreOps.AddSchoolSelects(old(db), name, teacherName, email, password, defaultSubject, newId);
      }
    }

    method SwitchSchool(id: Id)
      modifies this
      ensures db == StoreOps.SwitchSchool(old(db), id)
    {
      db := StoreOps.SwitchSchool(db, id);
    }

    method DeleteSchool(id: Id)
      modifies this
      ensures db == StoreOps.DeleteSchool(old(db), id)
      ensures db.attendance == old(db).attendance
    {
      db := StoreOps.DeleteSchool(db, id);
    }

    /** `login`: the answer is whether the credentials are accepted. */
    method Login(name: string, pass: string) returns (ok: bool)
      modifies this
      ensures ok == StoreOps.LoginAccepted(old(db).schoolInfo, name, pass)
      ensures db == StoreOps.Login(old(db), name, pass)
    {
      ok := StoreOps.LoginAccepted(db.schoolInfo, name, pass);
      db := StoreOps.Login(db, name, pass);
    }

    method Logout()
      modifies this
      ensures db == StoreOps.Logout(old(db))
    {
      db := StoreOps.Logout(db);
    }

    method AddClass(name: string, description: string, subject: string, shift: string, newId: Id)
      modifies this
      ensures db == StoreOps.AddClass(old(db), name, description, subject, shift, newId)
    {
      db := StoreOps.AddClass(db, name, description, subject, shift, newId);
    }

    method EditClass(id: Id, name: string, description: string, subject: string, shift: string)
      modifies this
      ensures db == StoreOps.EditClass(old(db), id, name, description, subject, shift)
    {
      db := StoreOps.EditClass(db, id, name, description, subject, shift);
    }

    method BulkAddClasses(entries: seq<StoreOps.ClassEntry>, ids: seq<Id>)
      requires |ids| == |entries|
      modifies this
      ensures db == StoreOps.BulkAddClasses(old(db), entries, ids)
    {
      db := StoreOps.BulkAddClasses(db, entries, ids);
    }

    method UpdateSchoolInfo(info: SchoolInfo)
      modifies this
      ensures db == StoreOps.UpdateSchoolInfo(old(db), info)
    {
      db := StoreOps.UpdateSchoolInfo(db, info);
    }

    method DeleteClass(id: Id)
      modifies this
      ensures db == StoreOps.DeleteClass(old(db), id)
    {
      db := StoreOps.DeleteClass(db, id);
    }

    method AddStudent(classId: Id, name: string, rollNumber: string, status: StudentStatus, newId: Id)
      modifies this
      ensures db == StoreOps.AddStudent(old(db), classId, name, rollNumber, status, newId)
    {
      db := StoreOps.AddStudent(db, classId, name, rollNumber, status, newId);
    }

    method EditStudent(id: Id, name: string, rollNumber: string, status: StudentStatus, classId: Id)
      modifies this
      ensures db == StoreOps.EditStudent(old(db), id, name, rollNumber, status, classId)
    {
      db := StoreOps.EditStudent(db, id, name, rollNumber, status, classId);
    }

    method BulkAddStudents(classId: Id, entries: seq<StoreOps.StudentEntry>, ids: seq<Id>)
      requires |ids| == |entries|
      modifies this
      ensures db == StoreOps.BulkAddStudents(old(db), classId, entries, ids)
    {
      db := StoreOps.BulkAddStudents(db, classId, entries, ids);
    }

    method DeleteStudent(id: Id)
      modifies this
      ensures db == StoreOps.DeleteStudent(old(db), id)
    {
      db := StoreOps.DeleteStudent(db, id);
    }

    method SaveAttendance(classId: Id, date: string, entries: seq<StoreOps.CallEntry>, ids: seq<Id>)
      requires |ids| == |entries|
      modifies this
      ensures db == StoreOps.SaveAttendance(old(db), classId, date, entries, ids)
    {
      db := StoreOps.SaveAttendance(db, classId, date, entries, ids);
    }

    /** `importData`: an accepted document replaces the whole database; otherwise nothing changes. */
    method ImportData(text: StoreOps.JsonText) returns (outcome: StoreOps.ImportOutcome)
      modifies this
      ensures outcome == StoreOps.ImportData(text)
      ensures outcome.Imported? ==> db == outcome.db
      ensures !outcome.Imported? ==> db == old(db)
    {
      outcome := StoreOps.ImportData(text);
      if outcome.Imported? {
        db := outcome.db;
      }
    }
  }
}
