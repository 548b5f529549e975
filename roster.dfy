/**
 * Roll numbering (`applyAutoNumbering` in store/AttendanceContext.tsx): the students of one
 * class are sorted by name and numbered "01", "02", ... in that order; every other
 * student is kept as it was, in front.
 */
module Roster {
  import opened Seqs
  import opened Text
  import opened Types

  /**
   * The order names are sorted in: lexicographic by character code. It stands for the
   * locale-aware `localeCompare` of the application (a total order on names).
   */
  predicate NameLe(a: string, b: string) {
    if a == [] then true
    else if b == [] then false
    else if a[0] != b[0] then a[0] < b[0]
    else NameLe(a[1..], b[1..])
  }

  lemma {:induction false} NameLeReflexive(a: string)
    ensures NameLe(a, a)
  {
    if a != [] { NameLeReflexive(a[1..]); }
  }

  lemma {:induction false} NameLeTotal(a: string, b: string)
    ensures NameLe(a, b) || NameLe(b, a)
  {
    if a != [] && b != [] && a[0] == b[0] { NameLeTotal(a[1..], b[1..]); }
  }

  lemma {:induction false} NameLeTransitive(a: string, b: string, c: string)
    requires NameLe(a, b) && NameLe(b, c)
    ensures NameLe(a, c)
  {
    if a != [] && b != [] && c != [] && a[0] == b[0] && b[0] == c[0] {
      NameLeTransitive(a[1..], b[1..], c[1..]);
    }
  }

  lemma {:induction false} NameLeAntisymmetric(a: string, b: string)
    requires NameLe(a, b) && NameLe(b, a)
    ensures a == b
  {
    if a != [] && b != [] {
      NameLeAntisymmetric(a[1..], b[1..]);
      assert a == [a[0]] + a[1..] && b == [b[0]] + b[1..];
    }
  }

  predicate SortedByName(s: seq<Student>) {
    forall i, j :: 0 <= i < j < |s| ==> NameLe(s[i].name, s[j].name)
  }

  /** One step of a stable insertion sort: `x` goes before the first student not below it. */
  function Insert(x: Student, s: seq<Student>): (r: seq<Student>)
    ensures |r| == |s| + 1
  {
    if s == [] || NameLe(x.name, s[0].name) then [x] + s else [s[0]] + Insert(x, s[1..])
  }

  /** Insertion adds `x` and loses nobody. */
  lemma {:induction false} InsertPerm(x: Student, s: seq<Student>)
    ensures multiset(Insert(x, s)) == multiset(s) + multiset{x}
  {
    if s != [] && !NameLe(x.name, s[0].name) {
      InsertPerm(x, s[1..]);
      assert s == [s[0]] + s[1..];
    }
  }

  /** Inserting into a roster in name order keeps it in name order. */
  lemma {:induction false} InsertSorted(x: Student, s: seq<Student>)
    requires SortedByName(s)
    ensures SortedByName(Insert(x, s))
  {
    if s == [] || NameLe(x.name, s[0].name) {
      forall j | 0 <= j < |s| ensures NameLe(x.name, s[j].name) {
        if j > 0 { NameLeTransitive(x.name, s[0].name, s[j].name); }
      }
    } else {
      NameLeTotal(x.name, s[0].name);
      InsertSorted(x, s[1..]);
      InsertPerm(x, s[1..]);
      var t := Insert(x, s[1..]);
      assert s == [s[0]] + s[1..];
      forall j | 0 <= j < |t| ensures NameLe(s[0].name, t[j].name) {
        assert t[j] in multiset(t);
        if t[j] != x {
          assert t[j] in multiset(s[1..]);
          var k :| 0 <= k < |s[1..]| && s[1..][k] == t[j];
          assert s[k + 1] == t[j];
        }
      }
    }
  }

  /**
   * The sort of `applyAutoNumbering` and of the pages and reports: it orders students
   * by name and, like JavaScript's stable `sort`, keeps students of equal name in their
   * original order (see `SortByNameStable`).
   */
  function SortByName(s: seq<Student>): (r: seq<Student>)
    ensures SortedByName(r)
    ensures multiset(r) == multiset(s)
  {
    if s == [] then []
    else
      assert s == [s[0]] + s[1..];
      InsertSorted(s[0], SortByName(s[1..]));
      InsertPerm(s[0], SortByName(s[1..]));
      Insert(s[0], SortByName(s[1..]))
  }

  /** The students named `n`, in order. */
  function WithName(s: seq<Student>, n: string): seq<Student> {
    if s == [] then [] else (if s[0].name == n then [s[0]] else []) + WithName(s[1..], n)
  }

  /** Keeping the students named `n` of a roster that starts with `y`. */
  lemma WithNameCons(y: Student, t: seq<Student>, n: string)
    ensures WithName([y] + t, n) == (if y.name == n then [y] else []) + WithName(t, n)
  {
    assert ([y] + t)[1..] == t;
  }

  lemma {:induction false} InsertWithName(x: Student, s: seq<Student>, n: string)
    ensures WithName(Insert(x, s), n) == (if x.name == n then [x] else []) + WithName(s, n)
  {
    if s != [] && !NameLe(x.name, s[0].name) {
      NameLeReflexive(x.name);
      InsertWithName(x, s[1..], n);
      assert ([s[0]] + Insert(x, s[1..]))[1..] == Insert(x, s[1..]);
    }
  }

  /** Sorting is stable: the students of any one name keep their relative order. */
  lemma {:induction false} SortByNameStable(s: seq<Student>, n: string)
    ensures WithName(SortByName(s), n) == WithName(s, n)
  {
    if s != [] {
      SortByNameStable(s[1..], n);
      InsertWithName(s[0], SortByName(s[1..]), n);
    }
  }

  /** Sorting a roster that is already in name order changes nothing. */
  lemma {:induction false} SortByNameOfSorted(s: seq<Student>)
    requires SortedByName(s)
    ensures SortByName(s) == s
  {
    if s != [] {
      assert SortedByName(s[1..]);
      SortByNameOfSorted(s[1..]);
      assert s == [s[0]] + s[1..];
    }
  }

  function NotInClass(c: Id): Student -> bool {
    (s: Student) => s.classId != c
  }

  function InClass(c: Id): Student -> bool {
    (s: Student) => s.classId == c
  }

  /** The students of other classes than `c` (`students.filter(s => s.classId !== classId)`). */
  function OtherClasses(students: seq<Student>, c: Id): seq<Student> {
    Filter(students, NotInClass(c))
  }

  /** The students of class `c`, in list order (`students.filter(s => s.classId === classId)`). */
  function ClassStudents(students: seq<Student>, c: Id): seq<Student> {
    Filter(students, InClass(c))
  }

  /** Every student is in class `c` or in another class, never both. */
  lemma SplitByClass(students: seq<Student>, c: Id)
    ensures multiset(OtherClasses(students, c) + ClassStudents(students, c)) == multiset(students)
  {
    var o, m := OtherClasses(students, c), ClassStudents(students, c);
    FilterMultiset(students, NotInClass(c));
    FilterMultiset(students, InClass(c));
    assert forall x :: multiset(o + m)[x] == multiset(students)[x];
  }

  /** The students of class `c` in name order, as the pages and the reports list them. */
  function ClassRoster(students: seq<Student>, c: Id): (r: seq<Student>)
    ensures SortedByName(r)
    ensures multiset(r) == multiset(ClassStudents(students, c))
    ensures forall s :: s in r <==> s in students && s.classId == c
  {
    var m := ClassStudents(students, c);
    var r := SortByName(m);
    forall s ensures s in r <==> s in m {
      assert s in r <==> s in multiset(r);
    }
    r
  }

  /** A student with the roll number cleared: everything renumbering does not touch. */
  function Unnumbered(s: seq<Student>): (r: seq<Student>)
    ensures |r| == |s|
    ensures forall i :: 0 <= i < |s| ==> r[i] == s[i].(rollNumber := "")
  {
    seq(|s|, i requires 0 <= i < |s| => s[i].(rollNumber := ""))
  }

  lemma UnnumberedConcat(a: seq<Student>, b: seq<Student>)
    ensures Unnumbered(a + b) == Unnumbered(a) + Unnumbered(b)
  {
  }

  /** Permuting students permutes their unnumbered copies. */
  lemma {:induction false} UnnumberedPerm(a: seq<Student>, b: seq<Student>)
    requires multiset(a) == multiset(b)
    ensures multiset(Unnumbered(a)) == multiset(Unnumbered(b))
    decreases |a|
  {
    if a == [] {
      assert |b| == |multiset(b)| == 0;
    } else {
      var x := a[0];
      assert x in multiset(b);
      var j :| 0 <= j < |b| && b[j] == x;
      var rest := b[..j] + b[j + 1..];
      assert b == b[..j] + [x] + b[j + 1..];
      assert a == [x] + a[1..];
      assert multiset(rest) == multiset(b) - multiset{x};
      assert multiset(a[1..]) == multiset(a) - multiset{x};
      UnnumberedPerm(a[1..], rest);
      UnnumberedConcat([x], a[1..]);
      UnnumberedConcat(b[..j] + [x], b[j + 1..]);
      UnnumberedConcat(b[..j], [x]);
      UnnumberedConcat(b[..j], b[j + 1..]);
    }
  }

  /** The roll number of position `i` (0-based) of a roster: `(i + 1).toString().padStart(2, '0')`. */
  function NumberInOrder(sorted: seq<Student>): (r: seq<Student>)
    ensures |r| == |sorted|
    ensures forall i :: 0 <= i < |sorted| ==> r[i] == sorted[i].(rollNumber := PadTwo(i + 1))
  {
    seq(|sorted|, i requires 0 <= i < |sorted| => sorted[i].(rollNumber := PadTwo(i + 1)))
  }

  /** A roster as renumbering leaves it: in name order and numbered "01", "02", ... */
  predicate NumberedInOrder(roster: seq<Student>) {
    SortedByName(roster) && forall i :: 0 <= i < |roster| ==> roster[i].rollNumber == PadTwo(i + 1)
  }

  lemma RosterInClass(students: seq<Student>, c: Id)
    ensures forall s :: s in NumberInOrder(ClassRoster(students, c)) ==> s.classId == c
  {
    var roster := ClassRoster(students, c);
    var numbered := NumberInOrder(roster);
    forall s | s in numbered ensures s.classId == c {
      var i :| 0 <= i < |numbered| && numbered[i] == s;
      assert roster[i] in roster;
    }
  }

  /** Keeping the other classes' students drops none of them when all are in other classes. */
  lemma OtherClassesOfOthers(students: seq<Student>, c: Id)
    ensures OtherClasses(OtherClasses(students, c), c) == OtherClasses(students, c)
  {
    FilterKeepsAll(OtherClasses(students, c), NotInClass(c));
  }

  /** Renumbering puts class `c`'s numbered roster after the others and keeps the split. */
  lemma AutoNumberSplit(students: seq<Student>, c: Id)
    ensures var numbered := NumberInOrder(ClassRoster(students, c));
      OtherClasses(OtherClasses(students, c) + numbered, c) == OtherClasses(students, c) &&
      ClassStudents(OtherClasses(students, c) + numbered, c) == numbered
  {
    var others := OtherClasses(students, c);
    var numbered := NumberInOrder(ClassRoster(students, c));
    RosterInClass(students, c);
    FilterConcat(others, numbered, NotInClass(c));
    FilterConcat(others, numbered, InClass(c));
    OtherClassesOfOthers(students, c);
    FilterDropsAll(numbered, NotInClass(c));
    FilterDropsAll(others, InClass(c));
    FilterKeepsAll(numbered, InClass(c));
  }

  /** Renumbering changes roll numbers only. */
  lemma AutoNumberPerm(students: seq<Student>, c: Id)
    ensures var roster := ClassRoster(students, c);
      multiset(Unnumbered(OtherClasses(students, c) + NumberInOrder(roster))) ==
      multiset(Unnumbered(students))
  {
    var others := OtherClasses(students, c);
    var roster := ClassRoster(students, c);
    var numbered := NumberInOrder(roster);
    SplitByClass(students, c);
    UnnumberedPerm(others + roster, students);
    UnnumberedConcat(others, numbered);
    UnnumberedConcat(others, roster);
    assert Unnumbered(numbered) == Unnumbered(roster);
  }

  /**
   * `applyAutoNumbering(students, c)`. The result holds the same students up to their
   * roll numbers; the other classes' students come first, unchanged and in their order;
   * class `c`'s students follow, in name order, numbered "01", "02", ...
   */
  function AutoNumber(students: seq<Student>, c: Id): (r: seq<Student>)
    ensures |r| == |students|
    ensures multiset(Unnumbered(r)) == multiset(Unnumbered(students))
    ensures OtherClasses(r, c) == OtherClasses(students, c)
    ensures r == OtherClasses(r, c) + ClassStudents(r, c)
    ensures NumberedInOrder(ClassStudents(r, c))
  {
    AutoNumberSplit(students, c);
    AutoNumberPerm(students, c);
    var r := OtherClasses(students, c) + NumberInOrder(ClassRoster(students, c));
    assert |Unnumbered(r)| == |multiset(Unnumbered(r))|;
    assert |Unnumbered(students)| == |multiset(Unnumbered(students))|;
    r
  }

  /** Every student of a renumbered list is a student of the list, up to the roll number. */
  lemma AutoNumberMember(students: seq<Student>, c: Id, s: Student)
    requires s in AutoNumber(students, c)
    ensures exists t :: t in students && t.(rollNumber := "") == s.(rollNumber := "")
  {
    var r := AutoNumber(students, c);
    var i :| 0 <= i < |r| && r[i] == s;
    var u := Unnumbered(r)[i];
    assert u in multiset(Unnumbered(r));
    assert u in multiset(Unnumbered(students));
    var j :| 0 <= j < |students| && Unnumbered(students)[j] == u;
    assert students[j] in students;
  }

  /** Changing roll numbers only changes, for any one name, the roll numbers of its students. */
  lemma {:induction false} WithNameRenumbered(s: seq<Student>, t: seq<Student>, n: string)
    requires |t| == |s|
    requires forall i :: 0 <= i < |s| ==> t[i].(rollNumber := "") == s[i].(rollNumber := "")
    ensures Unnumbered(WithName(t, n)) == Unnumbered(WithName(s, n))
  {
    if s != [] {
      assert t[0].(rollNumber := "").name == s[0].(rollNumber := "").name;
      assert forall i :: 0 <= i < |s[1..]| ==> t[1..][i] == t[i + 1] && s[1..][i] == s[i + 1];
      WithNameRenumbered(s[1..], t[1..], n);
      var hs := if s[0].name == n then [s[0]] else [];
      var ht := if t[0].name == n then [t[0]] else [];
      UnnumberedConcat(hs, WithName(s[1..], n));
      UnnumberedConcat(ht, WithName(t[1..], n));
      assert Unnumbered(ht) == Unnumbered(hs);
    }
  }

  /**
   * Renumbering is stable: in class `c`, the students of any one name keep the relative
   * order they had before, as the stable `sort` of `applyAutoNumbering` leaves them.
   */
  lemma AutoNumberStable(students: seq<Student>, c: Id, n: string)
    ensures Unnumbered(WithName(ClassStudents(AutoNumber(students, c), c), n)) ==
            Unnumbered(WithName(ClassStudents(students, c), n))
  {
    var roster := ClassRoster(students, c);
    var numbered := NumberInOrder(roster);
    AutoNumberSplit(students, c);
    assert ClassStudents(AutoNumber(students, c), c) == numbered;
    WithNameRenumbered(roster, numbered, n);
    SortByNameStable(ClassStudents(students, c), n);
    assert Unnumbered(WithName(roster, n)) == Unnumbered(WithName(ClassStudents(students, c), n));
  }
}
