/**
 * The values of the report tables of services/pdfService.ts: the monthly grid of days
 * (`generateMonthlyDetailedPDF`) and the tallies of the annual map and of the simple
 * summary (`generateAnnualFinalMapPDF`, `generateAttendancePDF`). Drawing is not modelled.
 */
module Reports {
  import opened Wrappers
  import opened Seqs
  import opened Text
  import opened Types
  import opened Roster

  /** `getStatusChar`: P for present, F for absent (falta), J for justified. */
  function StatusChar(s: AttendanceStatus): (c: char)
    ensures c in "PFJ"
    ensures c == 'P' <==> s == Present
    ensures c == 'F' <==> s == Absent
  {
    match s
    case Present => 'P'
    case Absent => 'F'
    case Justified => 'J'
  }

  /** Different statuses print differently, and no status prints as the empty cell '-'. */
  lemma StatusCharInjective(s: AttendanceStatus, t: AttendanceStatus)
    ensures StatusChar(s) == StatusChar(t) ==> s == t
    ensures StatusChar(s) != '-'
  {
  }

  function InPeriod(studentId: Id, period: string): AttendanceRecord -> bool {
    (a: AttendanceRecord) => a.studentId == studentId && StartsWith(a.date, period)
  }

  /**
   * A student's records for a period: those with the student's id whose date starts with
   * the period string ("2024-03" or "2024"). The class of the record is not looked at.
   */
  function PeriodRecords(attendance: seq<AttendanceRecord>, studentId: Id, period: string): (r: seq<AttendanceRecord>)
    ensures forall a :: a in r <==> a in attendance && a.studentId == studentId && StartsWith(a.date, period)
  {
    Filter(attendance, InPeriod(studentId, period))
  }

  function HasStatus(s: AttendanceStatus): AttendanceRecord -> bool {
    (a: AttendanceRecord) => a.status == s
  }

  /** `records.filter(a => a.status === s).length`. */
  function CountStatus(records: seq<AttendanceRecord>, s: AttendanceStatus): nat {
    |Filter(records, HasStatus(s))|
  }

  /** Counting a concatenation counts each part: one count per record of that status. */
  lemma CountStatusConcat(a: seq<AttendanceRecord>, b: seq<AttendanceRecord>, s: AttendanceStatus)
    ensures CountStatus(a + b, s) == CountStatus(a, s) + CountStatus(b, s)
  {
    FilterConcat(a, b, HasStatus(s));
  }

  /** A single record counts once for its own status and not at all for the others. */
  lemma CountStatusOne(x: AttendanceRecord, s: AttendanceStatus)
    ensures CountStatus([x], s) == if x.status == s then 1 else 0
  {
    assert [x][1..] == [];
  }

  /** Every record has exactly one of the three statuses, so the three counts add up to the total. */
  lemma {:induction false} CountsAddUp(records: seq<AttendanceRecord>)
    ensures CountStatus(records, Present) + CountStatus(records, Absent) +
            CountStatus(records, Justified) == |records|
  {
    if records != [] {
      CountsAddUp(records[1..]);
      assert records == [records[0]] + records[1..];
      FilterConcat([records[0]], records[1..], HasStatus(Present));
      FilterConcat([records[0]], records[1..], HasStatus(Absent));
      FilterConcat([records[0]], records[1..], HasStatus(Justified));
    }
  }

  /** The last column: '-' when there is nothing to count, else present out of total. */
  datatype Frequency = NoData | Percent(present: nat, total: nat)

  /** `total > 0 ? (present / total * 100) + '%' : '-'`; the division never sees a zero. */
  function FrequencyOf(present: nat, total: nat): (f: Frequency)
    ensures f.NoData? <==> total == 0
    ensures f.Percent? ==> f.total > 0 && f.present == present && f.total == total
  {
    if total > 0 then Percent(present, total) else NoData
  }

  /** The counts of one student in one period. */
  datatype Tally = Tally(present: nat, absent: nat, justified: nat, total: nat, freq: Frequency)

  function TallyOf(records: seq<AttendanceRecord>): (t: Tally)
    ensures t.present == CountStatus(records, Present) && t.absent == CountStatus(records, Absent) &&
            t.justified == CountStatus(records, Justified)
    ensures t.present + t.absent + t.justified == t.total == |records|
    ensures t.present <= t.total
    ensures t.freq.NoData? <==> records == []
    ensures t.freq.Percent? ==> t.freq.present == t.present && t.freq.total == t.total
  {
    CountsAddUp(records);
    var present := CountStatus(records, Present);
    Tally(present, CountStatus(records, Absent), CountStatus(records, Justified), |records|,
          FrequencyOf(present, |records|))
  }

  function DatedOn(date: string): AttendanceRecord -> bool {
    (a: AttendanceRecord) => a.date == date
  }

  /** The date of day `i` (0-based) of a month: `${monthStr}-${(i + 1).padStart(2, '0')}`. */
  function DayDate(monthStr: string, i: nat): string {
    monthStr + "-" + PadTwo(i + 1)
  }

  /** One cell of the grid: the first record of that day, or '-' when there is none. */
  function DayCell(records: seq<AttendanceRecord>, date: string): char {
    match FindFirst(records, DatedOn(date))
    case None => '-'
    case Some(a) => StatusChar(a.status)
  }

  /** A cell is '-' exactly when no record has its date; otherwise it is the first such record's letter. */
  lemma DayCellMeaning(records: seq<AttendanceRecord>, date: string)
    ensures DayCell(records, date) == '-' <==> forall a :: a in records ==> a.date != date
    ensures DayCell(records, date) != '-' ==>
              exists k :: 0 <= k < |records| && records[k].date == date &&
                          DayCell(records, date) == StatusChar(records[k].status) &&
                          forall j :: 0 <= j < k ==> records[j].date != date
  {
    var f := FindFirst(records, DatedOn(date));
    if f.Some? {
      var k :| 0 <= k < |records| && records[k] == f.value && DatedOn(date)(records[k]) &&
               forall j :: 0 <= j < k ==> !DatedOn(date)(records[j]);
      assert records[k] in records;
    } else {
      forall a | a in records ensures a.date != date {
        var i :| 0 <= i < |records| && records[i] == a;
      }
    }
  }

  /**
   * The day columns: one per day of the month. Cell `i` is '-' exactly when no record is
   * dated on day `i + 1`; otherwise it is the status letter of the first such record.
   */
  function DayCells(records: seq<AttendanceRecord>, monthStr: string, daysInMonth: nat): (r: seq<char>)
    ensures |r| == daysInMonth
    ensures forall i :: 0 <= i < daysInMonth ==>
              (r[i] == '-' <==> forall a :: a in records ==> a.date != DayDate(monthStr, i))
    ensures forall i :: 0 <= i < daysInMonth && r[i] != '-' ==>
              exists k :: 0 <= k < |records| && records[k].date == DayDate(monthStr, i) &&
                          r[i] == StatusChar(records[k].status) &&
                          forall j :: 0 <= j < k ==> records[j].date != DayDate(monthStr, i)
  {
    var r := seq(daysInMonth, i requires 0 <= i < daysInMonth => DayCell(records, DayDate(monthStr, i)));
    forall i | 0 <= i < daysInMonth
      ensures (r[i] == '-' <==> forall a :: a in records ==> a.date != DayDate(monthStr, i))
      ensures r[i] != '-' ==>
                exists k :: 0 <= k < |records| && records[k].date == DayDate(monthStr, i) &&
                            r[i] == StatusChar(records[k].status) &&
                            forall j :: 0 <= j < k ==> records[j].date != DayDate(monthStr, i)
    {
      DayCellMeaning(records, DayDate(monthStr, i));
    }
    r
  }

  /** A row of the monthly grid: roll number, name, the day cells and the frequency. */
  datatype DetailedRow = DetailedRow(rollNumber: string, name: string, days: seq<char>, freq: Frequency)

  /** A row of the annual map and of the simple summary (which does not print `total`). */
  datatype TallyRow = TallyRow(rollNumber: string, name: string, tally: Tally)

  function ClassIdIs(id: Id): SchoolClass -> bool {
    (c: SchoolClass) => c.id == id
  }

  /** `db.classes.find(c => c.id === classId)`: a report is made only for a known class. */
  predicate KnownClass(db: Database, classId: Id) {
    FindFirst(db.classes, ClassIdIs(classId)).Some?
  }

  lemma KnownClassIff(db: Database, classId: Id)
    ensures KnownClass(db, classId) <==> exists c :: c in db.classes && c.id == classId
  {
    if exists c :: c in db.classes && c.id == classId {
      var c :| c in db.classes && c.id == classId;
      var i :| 0 <= i < |db.classes| && db.classes[i] == c;
    }
  }

  function DetailedRowOf(db: Database, s: Student, monthStr: string, daysInMonth: nat): DetailedRow {
    var records := PeriodRecords(db.attendance, s.id, monthStr);
    DetailedRow(s.rollNumber, s.name, DayCells(records, monthStr, daysInMonth),
                FrequencyOf(CountStatus(records, Present), |records|))
  }

  /**
   * The body of the monthly detailed report: nothing for an unknown class, else one row
   * per student of the class in name order.
   */
  function MonthlyDetailedRows(db: Database, classId: Id, monthStr: string, daysInMonth: nat): (r: Option<seq<DetailedRow>>)
    ensures r.None? <==> !KnownClass(db, classId)
    ensures r.Some? ==>
              var roster := ClassRoster(db.students, classId);
              |r.value| == |roster| &&
              forall i :: 0 <= i < |roster| ==>
                r.value[i].rollNumber == roster[i].rollNumber && r.value[i].name == roster[i].name &&
                var recs := PeriodRecords(db.attendance, roster[i].id, monthStr);
                |r.value[i].days| == daysInMonth &&
                r.value[i].days == DayCells(recs, monthStr, daysInMonth) &&
                r.value[i].freq == FrequencyOf(CountStatus(recs, Present), |recs|) &&
                (r.value[i].freq.NoData? <==> recs == [])
  {
    if !KnownClass(db, classId) then None
    else
      var roster := ClassRoster(db.students, classId);
      Some(seq(|roster|, i requires 0 <= i < |roster| => DetailedRowOf(db, roster[i], monthStr, daysInMonth)))
  }

  function TallyRowOf(db: Database, s: Student, period: string): TallyRow {
    TallyRow(s.rollNumber, s.name, TallyOf(PeriodRecords(db.attendance, s.id, period)))
  }

  /**
   * The body of the annual map (period = a year) and of the simple summary (period = a
   * month): nothing for an unknown class, else one row per student in name order whose
   * counts add up to the number of its records in the period.
   */
  function TallyRows(db: Database, classId: Id, period: string): (r: Option<seq<TallyRow>>)
    ensures r.None? <==> !KnownClass(db, classId)
    ensures r.Some? ==>
              var roster := ClassRoster(db.students, classId);
              |r.value| == |roster| &&
              forall i :: 0 <= i < |roster| ==>
                var t := r.value[i].tally;
                r.value[i].rollNumber == roster[i].rollNumber && r.value[i].name == roster[i].name &&
                t == TallyOf(PeriodRecords(db.attendance, roster[i].id, period)) &&
                t.present + t.absent + t.justified == t.total ==
                  |PeriodRecords(db.attendance, roster[i].id, period)| &&
                (t.freq.NoData? <==> t.total == 0)
  {
    if !KnownClass(db, classId) then None
    else
      var roster := ClassRoster(db.students, classId);
      Some(seq(|roster|, i requires 0 <= i < |roster| => TallyRowOf(db, roster[i], period)))
  }

  /**
   * When a class is numbered as renumbering leaves it, its report rows read "01", "02",
   * ... from top to bottom.
   */
  lemma ReportRollNumbers(db: Database, classId: Id, period: string)
    requires KnownClass(db, classId)
    requires NumberedInOrder(ClassStudents(db.students, classId))
    ensures var rows := TallyRows(db, classId, period).value;
            forall i :: 0 <= i < |rows| ==> rows[i].rollNumber == PadTwo(i + 1)
  {
    SortByNameOfSorted(ClassStudents(db.students, classId));
  }
}
