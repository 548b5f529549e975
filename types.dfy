/**
 * The entities of the attendance application (types.ts). Every entity is a plain value;
 * the whole application state is one `Database` value.
 */
module Types {
  import opened Wrappers

  /** Entity ids are strings (fresh ones come from `crypto.randomUUID`). */
  type Id = string

  /** `AttendanceStatus`: PRESENT, ABSENT, JUSTIFIED. */
  datatype AttendanceStatus = Present | Absent | Justified

  /** `StudentStatus`: ATIVO, TRANSFERIDO, INDEFINIDO. */
  datatype StudentStatus = Ativo | Transferido | Indefinido

  datatype School = School(
    id: Id,
    name: string,
    teacherName: string,
    email: string,
    password: Option<string>,
    defaultSubject: string)

  /** The single global profile and session record that gates the application. */
  datatype SchoolInfo = SchoolInfo(
    teacherName: string,
    schoolName: string,
    email: string,
    password: Option<string>,
    defaultSubject: string,
    isRegistered: bool,
    isLoggedIn: bool)

  /** A class (`SchoolClass`); `schoolId` names the owning school. */
  datatype SchoolClass = SchoolClass(
    id: Id,
    schoolId: Id,
    name: string,
    description: string,
    subject: string,
    shift: string)

  /** A student; `classId` names the class. The roll number is a string such as "01". */
  datatype Student = Student(
    id: Id,
    classId: Id,
    name: string,
    rollNumber: string,
    status: StudentStatus)

  /** One status for one student on one date; `classId` and `studentId` are references. */
  datatype AttendanceRecord = AttendanceRecord(
    id: Id,
    date: string,
    classId: Id,
    studentId: Id,
    status: AttendanceStatus)

  /** The whole state; `currentSchoolId` is `null` (None) when no school is selected. */
  datatype Database = Database(
    schools: seq<School>,
    currentSchoolId: Option<Id>,
    classes: seq<SchoolClass>,
    students: seq<Student>,
    attendance: seq<AttendanceRecord>,
    schoolInfo: SchoolInfo)
}
