# Chamada: a verified model of the attendance store

"Chamada" is a small single-page application for teachers. A teacher keeps schools,
classes (turmas) and students, calls the roll of a class on a date, and prints monthly
and annual attendance reports. All data lives in one `Database` value. It is held by a
React context (`store/AttendanceContext.tsx`) and persisted as JSON in the browser's
local storage.

This project models the following in Dafny:

- **The data model** (`types.ts`): module `Types`.
- **The store** (`store/AttendanceContext.tsx`):
  - Module `StoreOps` holds every store operation as a pure transition `Database -> Database`. Each is the `prev => ...` step that operation hands to `setDb`.
  - Module `Store` holds class `AttendanceStore`. Its one `db` field is replaced by each of its methods.
  - Loading, persisting, export and import go through `StoreOps.Document`. It stands for the parsed JSON object, where any field may be absent.
- **Renumbering** (`applyAutoNumbering`): module `Roster`. It is a stable sort by name followed by roll numbers "01", "02", ...
- **The report tables** (`services/pdfService.ts`): module `Reports`. It covers the values in each cell, not the drawing.
- **The call screen** (`pages/Attendance.tsx`): module `AttendancePage`.
  - The status map is an insertion-ordered list of entries.
  - The effect that fills it is a `method` with two loops.
  - The screen itself is class `AttendanceView`, which calls the store.
- **The student and class screens** (`pages/Students.tsx`, `pages/Classes.tsx`): modules `StudentsPage` and `ClassesPage`. They hold the guards of the "save" and "import" handlers, which store call each handler makes, and the filtered lists.
- **Helpers:**
  - `Seqs`: `filter`, `find`.
  - `Text`: `trim`, `toLowerCase`, `split`, `startsWith`, `includes`, `padStart`.
  - `Wrappers`: `Option`.

Ids from `crypto.randomUUID()` are parameters (`newId`, `ids`). So are today's date and
the number of days in a month.

Some behaviour of the source is captured as written and proved as such:

- `deleteSchool` keeps the attendance records of the classes it deletes (`StoreOps.DeleteSchoolOrphansRecords`).
- `signup` resets the schools but keeps every class, student and record (`StoreOps.SignupOrphansClasses`).
- `editStudent` renumbers only the destination class. The class a student leaves keeps its old numbers and can be left with a gap (`StoreOps.EditStudentSourceClass`, `StoreOps.EditStudentLeavesGap`).

## Model

| member | source | states |
|---|---|---|
| Seqs.FilterSubsequence | store/AttendanceContext.tsx:114 | `filter` only leaves elements out: what it keeps is in its original order, with no element repeated |
| Roster.SortByName | store/AttendanceContext.tsx:73 | the result is sorted by name and is a permutation of the input |
| Roster.SortByNameStable | store/AttendanceContext.tsx:73 | students of equal name keep their relative order (stable sort) |
| Roster.SortByNameOfSorted | store/AttendanceContext.tsx:73 | sorting a roster already in name order leaves it unchanged |
| Roster.ClassRoster | services/pdfService.ts:48 | the students of a class in name order: sorted, a permutation of the class's students, and membership exactly "in the list and in the class" |
| Roster.AutoNumber | store/AttendanceContext.tsx:69-80 | same students up to roll numbers (multiset); other classes first, unchanged and in order; then the class sorted by name and numbered PadTwo(i+1) |
| Roster.AutoNumberMember | store/AttendanceContext.tsx:69-80 | every student of the renumbered list was in the input, up to its roll number |
| Roster.AutoNumberStable | store/AttendanceContext.tsx:71-73 | within the renumbered class, the students of any one name keep their relative order (stable sort), up to roll numbers |
| Roster.WithNameRenumbered | store/AttendanceContext.tsx:74-77 | changing only roll numbers leaves, for any one name, the same students in the same order up to roll numbers |
| Text.PadTwo | store/AttendanceContext.tsx:76 | `padStart(2,'0')` of a number: a one-digit number gets a single leading zero, a larger one is its own `toString()`; the digits denote the number |
| Text.PadTwoInjective | store/AttendanceContext.tsx:76 | distinct positions get distinct roll numbers |
| Text.ParseLines | pages/Students.tsx:60 | the lines of a bulk import are non-empty, trimmed and contain no newline |
| Text.ParseOneLine | pages/Students.tsx:60 | a text without a line break gives its trimmed self, or nothing when that is empty |
| Text.ParseFirstLine | pages/Classes.tsx:55 | a text read line by line: the first line trimmed, dropped when blank, then the lines of the rest |
| Text.TrimAllLines | pages/Students.tsx:60 | pieces without a line break, each trimmed, are trimmed and without a line break |
| Text.Split | pages/Students.tsx:60 | `split('\n')`: at least one piece, no piece holds the separator, and joining the pieces with it gives the text back |
| Text.SplitJoin | pages/Classes.tsx:55 | splitting pieces joined by the separator, none of which holds it, gives those pieces back |
| Text.Trim | store/AttendanceContext.tsx:129 | `trim()`: no white space at either end; an infix of the input from which only white space was cut at each end; a string already trimmed is unchanged |
| Text.TrimCutsSpace | pages/Students.tsx:34 | cutting white space off the front and then off the back leaves a trimmed infix of the input, with only white space on either side |
| Text.TrimSkipsLeadingSpace | store/AttendanceContext.tsx:129 | a leading white-space character does not change what `trim` returns |
| Text.ToLower | store/AttendanceContext.tsx:129 | `toLowerCase()`: same length, each character lower-cased on its own |
| Text.ToLowerIdempotent | pages/Students.tsx:22 | lower-casing twice is lower-casing once |
| Text.ParseLinesJoin | pages/Students.tsx:60 | names already trimmed, non-empty and single-line, written one per line, parse back to exactly those names |
| StoreOps.ToDocument | store/AttendanceContext.tsx:64 | `JSON.stringify(db)`: every field of the database is written, and reading the document back gives the database |
| StoreOps.FromDocument | store/AttendanceContext.tsx:54-57 | every field present in the parsed object is taken as written, an absent one gets its first-run value (`schools` `[]`, `currentSchoolId` `null`) |
| StoreOps.LoadDatabase | store/AttendanceContext.tsx:33-60 | no saved entry or an unparsable one gives the first-run database; a saved object gives the database read from it, every present field as saved |
| StoreOps.LoadPersisted | store/AttendanceContext.tsx:63-65 | what the store persists loads back as the same database |
| StoreOps.ImportData | store/AttendanceContext.tsx:275-285 | parse error iff the text is unparsable; imported iff it is an object with `schools` or `schoolInfo`; the imported database is read from that document |
| StoreOps.ImportExported | store/AttendanceContext.tsx:266-285 | an exported backup imports back to the same database |
| StoreOps.CurrentSchool | store/AttendanceContext.tsx:67 | the first school in list order whose id is the selection, as `find` returns, or none iff no school has the selected id |
| StoreOps.Signup | store/AttendanceContext.tsx:82-97 | the profile is the given one, registered and logged in, with empty email and school name; schools and selection reset; classes, students and records kept |
| StoreOps.SignupOrphansClasses | store/AttendanceContext.tsx:91-96 | after signup any existing class belongs to no school |
| StoreOps.SignupThenLogin | store/AttendanceContext.tsx:82-139 | after signup with a password and logout, the same name and password log in |
| StoreOps.AddSchool | store/AttendanceContext.tsx:99-106 | the new school is appended and selected; nothing else changes |
| StoreOps.AddSchoolSelects | store/AttendanceContext.tsx:99-106 | with a fresh id, the current school is the school just added |
| StoreOps.SwitchSchool | store/AttendanceContext.tsx:108-110 | only the selection changes, to the given id |
| StoreOps.FirstSchoolId | store/AttendanceContext.tsx:115 | the first remaining school's id: some iff the list is non-empty and its first id is non-empty, and then that id |
| StoreOps.DeleteSchool | store/AttendanceContext.tsx:112-124 | exactly the school, its classes and their students are removed; records and profile unchanged; selection kept unless it was the deleted school, then the id of the first school in list order other than the deleted one, none when there is none or its id is empty |
| StoreOps.DeleteSchoolDeselects | store/AttendanceContext.tsx:115 | deleting the selected school never leaves its id selected |
| StoreOps.DeleteSchoolKeepsOrder | store/AttendanceContext.tsx:114-121 | the remaining schools, classes and students are the old lists with elements left out, in their old order |
| StoreOps.DeleteSchoolKeepsCopies | store/AttendanceContext.tsx:114-120 | every school and class not of the deleted school is kept exactly as often as it was listed, the others not at all |
| StoreOps.DeleteSchoolKeepsLinks | store/AttendanceContext.tsx:112-124 | remaining classes still have schools and remaining students still have classes |
| StoreOps.DeleteSchoolOrphansRecords | store/AttendanceContext.tsx:116-122 | a record of a deleted class survives and names a class that no longer exists |
| StoreOps.Login | store/AttendanceContext.tsx:126-139 | accepted credentials set only the logged-in flag; rejected ones change nothing |
| StoreOps.LoginIgnoresCaseAndSpace | store/AttendanceContext.tsx:129 | the name compare ignores capitals and a leading space: a name that logs in still logs in lower-cased with a space in front |
| StoreOps.NoPasswordNoLogin | store/AttendanceContext.tsx:130 | a profile without a password accepts no login |
| StoreOps.Logout | store/AttendanceContext.tsx:141-147 | only the logged-in flag is cleared |
| StoreOps.UpdateSchoolInfo | store/AttendanceContext.tsx:182-195 | the profile is replaced; every school keeps its id and password; only the selected school takes name, teacher, e-mail and default subject |
| StoreOps.ReprofileCurrent | store/AttendanceContext.tsx:184-191 | the first selected school of the updated list is the old one with the new profile fields |
| StoreOps.UpdateSchoolInfoCurrent | store/AttendanceContext.tsx:182-195 | after the update the current school shows the new profile (and there is one iff there was one) |
| StoreOps.AddClass | store/AttendanceContext.tsx:149-160 | without a selected school nothing changes; otherwise the class of the selected school is appended |
| StoreOps.EditClass | store/AttendanceContext.tsx:162-167 | the class with that id takes the four fields, keeps its id and school; every other class and all else unchanged |
| StoreOps.EditClassKeepsLinks | store/AttendanceContext.tsx:162-167 | the set of class ids and the class–school links are preserved |
| StoreOps.Fallback | store/AttendanceContext.tsx:176 | JavaScript's logical-or default on an optional string: the value when present and non-empty, else the default |
| StoreOps.BulkAddClasses | store/AttendanceContext.tsx:169-180 | without a selection nothing changes; otherwise one class per entry is appended in order, in the selected school, with a non-empty subject and shift that keep the entry's own when given; an entry without a shift gets `UnknownShift`, the source's "NÃ£o informado" |
| StoreOps.BulkAddClassesSubject | store/AttendanceContext.tsx:176 | an entry without subject takes the current school's default subject, else "Geral" |
| StoreOps.DeleteClass | store/AttendanceContext.tsx:197-204 | exactly the class, its students and its records are removed |
| StoreOps.DeleteClassKeepsOrder | store/AttendanceContext.tsx:197-204 | the remaining classes, students and records are the old lists with elements left out, in their old order |
| StoreOps.DeleteClassKeepsCopies | store/AttendanceContext.tsx:197-204 | every class, student and record not of the deleted class is kept exactly as often as it was listed, the others not at all |
| StoreOps.DeleteClassKeepsLinks | store/AttendanceContext.tsx:197-204 | all links between the entities are preserved and the id is gone |
| StoreOps.AppendRenumbered | store/AttendanceContext.tsx:209-210 | appending to a class and renumbering keeps everyone up to roll numbers, the other classes, and grows the class by the appended students |
| StoreOps.AddStudent | store/AttendanceContext.tsx:206-212 | the new student (roll "0") is added, other classes unchanged, its class numbered in order, one larger and placed after every other class |
| StoreOps.ClassSizeAfterRenumber | store/AttendanceContext.tsx:69-80 | renumbering keeps the size of the class |
| StoreOps.AddStudentIgnoresRollNumber | store/AttendanceContext.tsx:207 | the roll number argument has no effect |
| StoreOps.NewStudents | store/AttendanceContext.tsx:222-228 | one active student numbered "0" per entry, in order |
| StoreOps.BulkAddStudents | store/AttendanceContext.tsx:221-233 | the new students are added, other classes unchanged, the class numbered in order, larger by the entries and placed after every other class |
| StoreOps.EditFields | store/AttendanceContext.tsx:216 | the student with the id takes name, status and class; all others unchanged, same positions |
| StoreOps.EditStudent | store/AttendanceContext.tsx:214-219 | the edited list up to roll numbers; classes other than the destination as in the edited list; the destination numbered in order and placed after every other class |
| StoreOps.EditFieldsOtherClass | store/AttendanceContext.tsx:216 | in any class other than the destination, the edit only removes the moved student |
| StoreOps.EditStudentSourceClass | store/AttendanceContext.tsx:214-219 | the class a student leaves keeps its other students, their numbers and order |
| StoreOps.EditStudentLeavesGap | store/AttendanceContext.tsx:214-219 | moving the first-numbered student out of a class of two or more leaves that class out of numbering order |
| StoreOps.RemainingStudentsFacts | store/AttendanceContext.tsx:237-241 | the list left by a delete holds nobody with the id, everyone else up to roll numbers, and is unchanged for an unknown id |
| StoreOps.DeleteStudent | store/AttendanceContext.tsx:235-249 | no student with the id is left; everyone else kept up to roll numbers; exactly its records go; an unknown id changes no student; when the former class id is non-empty that class is renumbered and every other class is as after the removal, otherwise the list is the input without the student |
| StoreOps.DeleteStudentKeepsRecordOrder | store/AttendanceContext.tsx:246 | the remaining records are the old ones with the student's left out, in order and each as often as before |
| StoreOps.NewRecords | store/AttendanceContext.tsx:252-258 | one record per entry, of the class and date, in order |
| StoreOps.SaveAttendance | store/AttendanceContext.tsx:251-264 | the records of the class and date become one per entry, in entry order; every other record stays in order |
| StoreOps.SaveAttendanceSplit | store/AttendanceContext.tsx:261-262 | the kept and new records split back exactly by session |
| StoreOps.SaveAttendanceTwice | store/AttendanceContext.tsx:251-264 | saving again replaces the first save entirely |
| StoreOps.SaveAttendanceOtherSession | store/AttendanceContext.tsx:261 | records of any other class or date are unchanged |
| Store.AttendanceStore.Load | store/AttendanceContext.tsx:33-60 | the initial state is the loaded database |
| Store.AttendanceStore.Signup | store/AttendanceContext.tsx:82-97 | the state after `signup`; registered and logged in |
| Store.AttendanceStore.AddSchool | store/AttendanceContext.tsx:99-106 | the state after `addSchool`; with a fresh id the new school is current |
| Store.AttendanceStore.SwitchSchool | store/AttendanceContext.tsx:108-110 | the state after `switchSchool` |
| Store.AttendanceStore.DeleteSchool | store/AttendanceContext.tsx:112-124 | the state after `deleteSchool`; records unchanged |
| Store.AttendanceStore.Login | store/AttendanceContext.tsx:126-139 | the answer is whether the credentials are accepted, and the state after `login` |
| Store.AttendanceStore.Logout | store/AttendanceContext.tsx:141-147 | the state after `logout` |
| Store.AttendanceStore.AddClass | store/AttendanceContext.tsx:149-160 | the state after `addClass` |
| Store.AttendanceStore.EditClass | store/AttendanceContext.tsx:162-167 | the state after `editClass` |
| Store.AttendanceStore.BulkAddClasses | store/AttendanceContext.tsx:169-180 | the state after `bulkAddClasses` |
| Store.AttendanceStore.UpdateSchoolInfo | store/AttendanceContext.tsx:182-195 | the state after `updateSchoolInfo` |
| Store.AttendanceStore.DeleteClass | store/AttendanceContext.tsx:197-204 | the state after `deleteClass` |
| Store.AttendanceStore.AddStudent | store/AttendanceContext.tsx:206-212 | the state after `addStudent` |
| Store.AttendanceStore.EditStudent | store/AttendanceContext.tsx:214-219 | the state after `editStudent` |
| Store.AttendanceStore.BulkAddStudents | store/AttendanceContext.tsx:221-233 | the state after `bulkAddStudents` |
| Store.AttendanceStore.DeleteStudent | store/AttendanceContext.tsx:235-249 | the state after `deleteStudent` |
| Store.AttendanceStore.SaveAttendance | store/AttendanceContext.tsx:251-264 | the state after `saveAttendance` |
| Store.AttendanceStore.ImportData | store/AttendanceContext.tsx:275-285 | an accepted document replaces the database, otherwise nothing changes |
| Reports.StatusChar | services/pdfService.ts:6-13 | one of P, F, J; P iff present, F iff absent |
| Reports.StatusCharInjective | services/pdfService.ts:6-13 | distinct statuses print differently and never as '-' |
| Reports.PeriodRecords | services/pdfService.ts:101 | exactly the student's records whose date starts with the period, whatever their class |
| Reports.CountsAddUp | services/pdfService.ts:102-105 | present + absent + justified = total |
| Reports.FrequencyOf | services/pdfService.ts:106 | '-' iff there are no records; otherwise present out of total, total > 0 |
| Reports.TallyOf | services/pdfService.ts:100-108 | present, absent and justified are the numbers of records of each status; they add up to the total; frequency empty iff no records |
| Reports.CountStatusConcat | services/pdfService.ts:102-104 | counting one status over two lists adds the two counts |
| Reports.CountStatusOne | services/pdfService.ts:102-104 | a single record counts 1 for its own status and 0 for any other |
| Reports.DayCellMeaning | services/pdfService.ts:60-61 | a cell is '-' iff no record has its date; otherwise the letter of the first record with that date |
| Reports.DayCells | services/pdfService.ts:58-62 | one cell per day; '-' iff no record is dated that day; otherwise the letter of the first such record |
| Reports.KnownClassIff | services/pdfService.ts:45-46 | the report is made iff some class has the id |
| Reports.MonthlyDetailedRows | services/pdfService.ts:43-69 | none iff the class is unknown; otherwise one row per student in roster order, with its roll number, name, day cells, and the frequency of its records in the month, empty iff it has none |
| Reports.TallyRows | services/pdfService.ts:89-109 | none iff the class is unknown; otherwise one row per student in roster order whose tally is that of its records in the period |
| Reports.ReportRollNumbers | services/pdfService.ts:94-108 | a class numbered as renumbering leaves it prints "01", "02", ... from top to bottom |
| AttendancePage.ActiveStudents | pages/Attendance.tsx:15-17 | sorted by name; a permutation of the active students of the class |
| AttendancePage.Keys | pages/Attendance.tsx:42 | the keys of the status map in insertion order |
| AttendancePage.PutLookup | pages/Attendance.tsx:34 | after writing a key it holds the value, every other key what it held |
| AttendancePage.PutKeys | pages/Attendance.tsx:34 | writing a key keeps an existing key's place and appends a new one |
| AttendancePage.PutDistinct | pages/Attendance.tsx:34 | writing never makes a key appear twice |
| AttendancePage.LastStatus | pages/Attendance.tsx:26-28 | none iff the student has no record of the session |
| AttendancePage.PresetLookup | pages/Attendance.tsx:23-25 | after the first loop: PRESENT exactly for the roster's students |
| AttendancePage.OverrideLookup | pages/Attendance.tsx:26-28 | after the second loop: the status of the student's last record, else what the map held |
| AttendancePage.InitialRecords | pages/Attendance.tsx:19-31 | the filled map has distinct keys and holds, for each student, the last saved status, else PRESENT for an active student, else nothing |
| AttendancePage.SavedOncePerStudent | pages/Attendance.tsx:42-43 | the saved records of the session name each student at most once |
| AttendancePage.AttendanceView.constructor | pages/Attendance.tsx:10-31 | no class, today's date, and the map the effect fills |
| AttendancePage.AttendanceView.SelectClass | pages/Attendance.tsx:19-31 | the map is refilled only when the class changes |
| AttendancePage.AttendanceView.SetDate | pages/Attendance.tsx:19-31 | the map is refilled only when the date changes |
| AttendancePage.AttendanceView.ToggleStatus | pages/Attendance.tsx:33-35 | only the given student's entry changes, to the given status |
| AttendancePage.AttendanceView.HandleSave | pages/Attendance.tsx:37-46 | saves iff a class is chosen, passing the map's entries in key order; the saved session names each student once |
| StudentsPage.AddOrEditCall | pages/Students.tsx:33-44 | no call iff the trimmed name is empty or no class is chosen; an edit call iff a call is made while editing, else an add call; roll number "0" |
| StudentsPage.ImportEntries | pages/Students.tsx:65 | one entry per name, roll number "0" |
| StudentsPage.BulkImportCall | pages/Students.tsx:55-67 | no call iff no class or no non-blank line; otherwise one trimmed entry per non-blank line, in order |
| StudentsPage.BulkImportOfNames | pages/Students.tsx:60-66 | names typed one per line are imported exactly |
| StudentsPage.FilteredStudents | pages/Students.tsx:21-24 | exactly the students whose lower-cased name contains the lower-cased search, in the chosen class if any |
| StudentsPage.FilteredAll | pages/Students.tsx:21-24 | with no search and no class all students are shown, in order |
| StudentsPage.FilteredIgnoresCase | pages/Students.tsx:21-24 | the search ignores capitals |
| ClassesPage.AddOrEditCall | pages/Classes.tsx:33-43 | no call iff the trimmed name is empty; an edit call iff a call is made while editing, else an add call; an empty subject becomes "Geral" |
| ClassesPage.ImportEntries | pages/Classes.tsx:60 | one imported class entry per line, with fixed description and shift |
| ClassesPage.BulkImportCall | pages/Classes.tsx:54-61 | no call iff no non-blank line; otherwise one entry per line with the school's default subject else "Geral", shift "Manhã" |
| ClassesPage.BulkImportStored | pages/Classes.tsx:54-61 | through the store each line lands as a class of the current school with the page's subject and shift |
| ClassesPage.SchoolClasses | pages/Classes.tsx:22 | exactly the classes of the selected school; none without a selection |
| ClassesPage.AddedClassListed | pages/Classes.tsx:22 | a class added with a school selected is listed |

## Left out

- Rendering, routing (`window.location.hash`), alerts and confirmation dialogs are not modelled. Only the store calls the handlers make, and the lists they show, are modelled.
- Local storage, `JSON.parse`/`JSON.stringify` and the export download are replaced by `StoreOps.Document` and `StoreOps.JsonText`:
  - The export download (`Blob`, anchor element, click) is left out. `StoreOps.ToDocument` is what it writes.
  - JSON values that are neither objects nor `null`, such as a number or an array, are not modelled.
- StoreOps.LoadDatabase: a saved document missing a field gets that field's first-run value. The source instead leaves the field `undefined`, except `schools` (set to `[]`) and `currentSchoolId` (set to `null`).
- StoreOps.ImportData: an accepted document missing a field also gets that field's first-run value. The source stores the parsed object as it is.
- Roster.SortByName: `localeCompare` (with 'pt-BR' in the store, the default locale in the pages and reports) is modelled as plain character-code order. Collation, accents and case are not modelled.
- Text.ToLower: only ASCII and Latin-1 letters are lower-cased. Full Unicode case mapping is not modelled.
- Reports.FrequencyOf: the percentage is kept as the pair (present, total). The floating-point division and `toFixed` are not modelled.
- Reports.MonthlyDetailedRows: the number of days in the month is a parameter. The `Date` arithmetic that computes it is not modelled.
- The PDF drawing (jsPDF, header, table layout, file names) is not modelled. The simple summary does not print `total`; the model keeps it in `Tally`.
- `getStatusChar`'s default branch ('-') cannot be reached for the three statuses of the enum.
- Fresh ids (`crypto.randomUUID()`) and today's date are parameters; the clock and the random source are not modelled.
- `addClass`, `bulkAddClasses` and `login` read the `db` of the last render, not the pending state. The model applies them to the current state. This is the same whenever no other update is pending.
- JavaScript orders integer-like object keys first. The model keeps plain insertion order, which is what the status map gets for UUID keys.
- The pages not named above (home, settings, reports, sign-in, layout, application shell) are not part of this model.
