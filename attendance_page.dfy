/**
 * The call screen (pages/Attendance.tsx): the roster of active students, the per-student
 * status map the screen edits, and the save that hands the map to the store.
 *
 * The status map is a JavaScript object keyed by student id; it is modelled as a list of
 * `(studentId, status)` entries in key insertion order, with no key twice, because
 * `Object.entries` hands the keys to `saveAttendance` in that order.
 */
module AttendancePage {
  import opened Wrappers
  import opened Seqs
  import opened Types
  import opened Roster
  import opened StoreOps
  import opened Store

  function ActiveIn(classId: Id): Student -> bool {
    (s: Student) => s.classId == classId && s.status == Ativo
  }

  /** `activeStudents`: the active (ATIVO) students of the class, in name order. */
  function ActiveStudents(students: seq<Student>, classId: Id): (r: seq<Student>)
    ensures SortedByName(r)
    ensures multiset(r) == multiset(Filter(students, ActiveIn(classId)))
    ensures forall s :: s in r <==> s in students && s.classId == classId && s.status == Ativo
  {
    var m := Filter(students, ActiveIn(classId));
    var r := SortByName(m);
    forall s ensures s in r <==> s in m {
      assert s in r <==> s in multiset(r);
    }
    r
  }

  // ---------------------------------------------------------------------------------
  // The status map
  // ---------------------------------------------------------------------------------

  /** The keys of the map, in insertion order. */
  function Keys(m: seq<CallEntry>): (r: seq<Id>)
    ensures |r| == |m|
    ensures forall i :: 0 <= i < |m| ==> r[i] == m[i].studentId
  {
    seq(|m|, i requires 0 <= i < |m| => m[i].studentId)
  }

  predicate Distinct(ids: seq<Id>) {
    forall i, j :: 0 <= i < j < |ids| ==> ids[i] != ids[j]
  }

  /** A well-formed map: no student id is a key twice. */
  predicate DistinctKeys(m: seq<CallEntry>) {
    Distinct(Keys(m))
  }

  /** `records[k]`: the status stored under `k`, if any. */
  function Lookup(m: seq<CallEntry>, k: Id): Option<AttendanceStatus> {
    if m == [] then None
    else if m[0].studentId == k then Some(m[0].status)
    else Lookup(m[1..], k)
  }

  /** `records[k] = v`: an existing key keeps its place and takes the new value; a new key goes last. */
  function Put(m: seq<CallEntry>, k: Id, v: AttendanceStatus): seq<CallEntry> {
    if m == [] then [CallEntry(k, v)]
    else if m[0].studentId == k then [CallEntry(k, v)] + m[1..]
    else [m[0]] + Put(m[1..], k, v)
  }

  /** After `records[k] = v`, `k` holds `v` and every other key holds what it held. */
  lemma {:induction false} PutLookup(m: seq<CallEntry>, k: Id, v: AttendanceStatus, x: Id)
    ensures Lookup(Put(m, k, v), x) == if x == k then Some(v) else Lookup(m, x)
  {
    if m != [] && m[0].studentId != k {
      PutLookup(m[1..], k, v, x);
      assert Put(m, k, v)[1..] == Put(m[1..], k, v);
    } else if m != [] {
      assert ([CallEntry(k, v)] + m[1..])[1..] == m[1..];
    }
  }

  lemma KeysCons(e: CallEntry, t: seq<CallEntry>)
    ensures Keys([e] + t) == [e.studentId] + Keys(t)
  {
  }

  /** The key order after `records[k] = v`: unchanged for an existing key, `k` appended otherwise. */
  lemma {:induction false} PutKeys(m: seq<CallEntry>, k: Id, v: AttendanceStatus)
    ensures Keys(Put(m, k, v)) == if k in Keys(m) then Keys(m) else Keys(m) + [k]
  {
    if m != [] {
      var t := m[1..];
      assert m == [m[0]] + t;
      KeysCons(m[0], t);
      if m[0].studentId != k {
        PutKeys(t, k, v);
        KeysCons(m[0], Put(t, k, v));
        assert k in Keys(m) <==> k in Keys(t);
      } else {
        KeysCons(CallEntry(k, v), t);
      }
    }
  }

  /** Writing a key never makes a key appear twice. */
  lemma PutDistinct(m: seq<CallEntry>, k: Id, v: AttendanceStatus)
    requires DistinctKeys(m)
    ensures DistinctKeys(Put(m, k, v))
  {
    PutKeys(m, k, v);
  }

  /** The map after the first loop: every student of `students` set to PRESENT, in order. */
  function Preset(students: seq<Student>): seq<CallEntry> {
    if students == [] then []
    else Put(Preset(students[..|students| - 1]), students[|students| - 1].id, Present)
  }

  /** The map after the second loop: each record, in order, writes its student's status. */
  function Override(m: seq<CallEntry>, existing: seq<AttendanceRecord>): seq<CallEntry> {
    if existing == [] then m
    else
      var last := existing[|existing| - 1];
      Put(Override(m, existing[..|existing| - 1]), last.studentId, last.status)
  }

  /** The status of the last record of student `k`, if there is one. */
  function LastStatus(existing: seq<AttendanceRecord>, k: Id): (r: Option<AttendanceStatus>)
    ensures r.None? <==> forall a :: a in existing ==> a.studentId != k
  {
    if existing == [] then None
    else
      var n := |existing| - 1;
      assert existing == existing[..n] + [existing[n]];
      if existing[n].studentId == k then Some(existing[n].status) else LastStatus(existing[..n], k)
  }

  predicate HasStudent(students: seq<Student>, k: Id) {
    exists s :: s in students && s.id == k
  }

  /**
   * What the screen starts with for student `k`: the status of its last saved record for
   * this class and date, else PRESENT when it is on the roster, else nothing.
   */
  function InitialStatus(active: seq<Student>, existing: seq<AttendanceRecord>, k: Id): Option<AttendanceStatus> {
    if LastStatus(existing, k).Some? then LastStatus(existing, k)
    else if HasStudent(active, k) then Some(Present)
    else None
  }

  lemma {:induction false} PresetLookup(students: seq<Student>, k: Id)
    ensures Lookup(Preset(students), k) == if HasStudent(students, k) then Some(Present) else None
  {
    if students != [] {
      var n := |students| - 1;
      PresetLookup(students[..n], k);
      PutLookup(Preset(students[..n]), students[n].id, Present, k);
      assert students == students[..n] + [students[n]];
      assert HasStudent(students, k) <==> HasStudent(students[..n], k) || students[n].id == k;
    }
  }

  lemma {:induction false} OverrideLookup(m: seq<CallEntry>, existing: seq<AttendanceRecord>, k: Id)
    ensures Lookup(Override(m, existing), k) ==
            if LastStatus(existing, k).Some? then LastStatus(existing, k) else Lookup(m, k)
  {
    if existing != [] {
      var n := |existing| - 1;
      OverrideLookup(m, existing[..n], k);
      PutLookup(Override(m, existing[..n]), existing[n].studentId, existing[n].status, k);
    }
  }

  /** The map the screen shows when a class and a date are chosen. */
  function InitialMap(db: Database, classId: Id, date: string): seq<CallEntry> {
    Override(Preset(ActiveStudents(db.students, classId)), RecordsOn(db.attendance, classId, date))
  }

  /**
   * The effect that fills the map: every active student set to PRESENT, then every
   * record saved for this class and date writes its student's status, active or not.
   */
  method InitialRecords(active: seq<Student>, existing: seq<AttendanceRecord>) returns (records: seq<CallEntry>)
    ensures records == Override(Preset(active), existing)
    ensures DistinctKeys(records)
    ensures forall k :: Lookup(records, k) == InitialStatus(active, existing, k)
  {
    records := [];
    var i := 0;
    while i < |active|
      invariant 0 <= i <= |active|
      invariant records == Preset(active[..i])
      invariant DistinctKeys(records)
    {
      assert active[..i + 1][..i] == active[..i];
      PutDistinct(records, active[i].id, Present);
      records := Put(records, active[i].id, Present);
      i := i + 1;
    }
    assert active[..i] == active;
    var j := 0;
    while j < |existing|
      invariant 0 <= j <= |existing|
      invariant records == Override(Preset(active), existing[..j])
      invariant DistinctKeys(records)
    {
      assert existing[..j + 1][..j] == existing[..j];
      PutDistinct(records, existing[j].studentId, existing[j].status);
      records := Put(records, existing[j].studentId, existing[j].status);
      j := j + 1;
    }
    assert existing[..j] == existing;
    forall k ensures Lookup(records, k) == InitialStatus(active, existing, k) {
      OverrideLookup(Preset(active), existing, k);
      PresetLookup(active, k);
    }
  }

  /** Saved entries name each student at most once. */
  lemma SavedOncePerStudent(db: Database, classId: Id, date: string, records: seq<CallEntry>, ids: seq<Id>)
    requires DistinctKeys(records) && |ids| == |records|
    ensures var on := RecordsOn(SaveAttendance(db, classId, date, records, ids).attendance, classId, date);
            forall i, j :: 0 <= i < j < |on| ==> on[i].studentId != on[j].studentId
  {
    var on := RecordsOn(SaveAttendance(db, classId, date, records, ids).attendance, classId, date);
    forall i, j | 0 <= i < j < |on| ensures on[i].studentId != on[j].studentId {
      assert on[i].studentId == Keys(records)[i] && on[j].studentId == Keys(records)[j];
    }
  }

  // ---------------------------------------------------------------------------------
  // The screen
  // ---------------------------------------------------------------------------------

  /** The screen's state: the chosen class ("" for none), the date and the status map. */
  class AttendanceView {
    const store: AttendanceStore
    var selectedClass: Id
    var date: string
    var records: seq<CallEntry>

    ghost predicate Valid()
      reads this
    {
      DistinctKeys(records)
    }

    /** The screen opens on no class and today's date, and runs the effect once. */
    constructor (store: AttendanceStore, today: string)
      ensures this.store == store && selectedClass == "" && date == today
      ensures records == InitialMap(store.db, "", today) && Valid()
    {
      var initial := InitialRecords(ActiveStudents(store.db.students, ""), RecordsOn(store.db.attendance, "", today));
      this.store := store;
      selectedClass := "";
      date := today;
      records := initial;
    }

    /** Choosing a class: the effect runs again only when the choice changes. */
    method SelectClass(classId: Id)
      requires Valid()
      modifies this
      ensures Valid() && selectedClass == classId && date == old(date)
      ensures records == if classId != old(selectedClass) then InitialMap(store.db, classId, date) else old(records)
    {
      if classId != selectedClass {
        selectedClass := classId;
        records := InitialRecords(ActiveStudents(store.db.students, classId),
                                  RecordsOn(store.db.attendance, classId, date));
      }
    }

    /** Choosing a date: the effect runs again only when the date changes. */
    method SetDate(newDate: string)
      requires Valid()
      modifies this
      ensures Valid() && date == newDate && selectedClass == old(selectedClass)
      ensures records == if newDate != old(date) then InitialMap(store.db, selectedClass, newDate) else old(records)
    {
      if newDate != date {
        date := newDate;
        records := InitialRecords(ActiveStudents(store.db.students, selectedClass),
                                  RecordsOn(store.db.attendance, selectedClass, newDate));
      }
    }

    /** `toggleStatus`: only the given student's entry changes. */
    method ToggleStatus(studentId: Id, status: AttendanceStatus)
      requires Valid()
      modifies this
      ensures Valid() && selectedClass == old(selectedClass) && date == old(date)
      ensures records == Put(old(records), studentId, status)
      ensures Lookup(records, studentId) == Some(status)
      ensures forall k :: k != studentId ==> Lookup(records, k) == Lookup(old(records), k)
    {
      PutDistinct(records, studentId, status);
      forall k ensures Lookup(Put(records, studentId, status), k) ==
                       if k == studentId then Some(status) else Lookup(records, k) {
        PutLookup(records, studentId, status, k);
      }
      records := Put(records, studentId, status);
    }

    /**
     * `handleSave`: with no class chosen the store is not called; otherwise the map's
     * entries, in key order, become the call of the chosen class and date.
     */
    method HandleSave(ids: seq<Id>) returns (saved: bool)
      requires Valid() && |ids| == |records|
      modifies store
      ensures saved <==> selectedClass != ""
      ensures saved ==> store.db == SaveAttendance(old(store.db), selectedClass, date, records, ids)
      ensures !saved ==> store.db == old(store.db)
      ensures saved ==> var on := RecordsOn(store.db.attendance, selectedClass, date);
                        forall i, j :: 0 <= i < j < |on| ==> on[i].studentId != on[j].studentId
    {
      if selectedClass == "" {
        return false;
      }
      SavedOncePerStudent(store.db, selectedClass, date, records, ids);
      store.SaveAttendance(selectedClass, date, records, ids);
      saved := true;
    }
  }
}
