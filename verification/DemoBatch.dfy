/** The demonstration batch: which students it takes and which scores it gives them. */
module DemoBatch {
  import opened Prelude
  import opened Text
  import opened StableSort

  datatype DemoStudent = DemoStudent(id: string, eduplusId: string, eduplusUserId: Option<string>)

  /** A position in the list of the three demonstration exams or of the three subjects. */
  type Index = i: int | 0 <= i < 3

  const EXAM_KEYS := ["weekly", "monthly", "midterm"]

  const SUBJECT_KEYS := ["chinese", "math", "english"]

  datatype Cell = Cell(studentId: string, exam: Index, subject: Index, value: nat)

  datatype Problem = NoStudents | DuplicateUser

  // ---- the students ----

  /** The EduPlus user a student is bound to; a blank one does not count. */
  function BoundUser(s: DemoStudent): Option<string> {
    if s.eduplusUserId.None? || Trim(s.eduplusUserId.value) == "" then None else Some(Trim(s.eduplusUserId.value))
  }

  predicate ShareUser(students: seq<DemoStudent>) {
    exists i, j :: 0 <= i < j < |students| && BoundUser(students[i]).Some? && BoundUser(students[i]) == BoundUser(students[j])
  }

  function CheckStudents(students: seq<DemoStudent>): Result<nat, Problem> {
    if students == [] then Err(NoStudents) else if ShareUser(students) then Err(DuplicateUser) else Ok(|students|)
  }

  method CheckDemoStudents(students: seq<DemoStudent>) returns (r: Result<nat, Problem>)
    ensures r == CheckStudents(students)
  {
    hide BoundUser;
    if |students| == 0 { return Err(NoStudents); }
    var userIds: set<string> := {};
    for i := 0 to |students|
      invariant forall u :: u in userIds <==> exists j :: 0 <= j < i && BoundUser(students[j]) == Some(u)
      invariant forall j, k | 0 <= j < k < i :: BoundUser(students[j]).None? || BoundUser(students[j]) != BoundUser(students[k])
    {
      var userId := BoundUser(students[i]);
      if userId.None? { continue; }
      if userId.value in userIds { return Err(DuplicateUser); }
      userIds := userIds + {userId.value};
    }
    return Ok(|students|);
  }

  // ---- the cells ----

  /** digest is the first byte of the SHA-256 of a text. */
  function ValueOf(digest: string -> nat, s: DemoStudent, exam: Index, subject: Index): nat {
    65 + digest(s.eduplusId + ":" + SUBJECT_KEYS[subject]) % 24 + exam * 5
  }

  function CellFor(digest: string -> nat, s: DemoStudent, exam: Index, subject: Index): Cell {
    Cell(s.id, exam, subject, ValueOf(digest, s, exam, subject))
  }

  /** The nine cells of a student, exam by exam. */
  function StudentCells(digest: string -> nat, s: DemoStudent): (r: seq<Cell>)
    ensures |r| == 9
  {
    seq(9, k requires 0 <= k < 9 => CellFor(digest, s, k / 3, k % 3))
  }

  function CellsOf(digest: string -> nat, students: seq<DemoStudent>): (r: seq<Cell>)
    ensures |r| == 9 * |students|
  {
    if students == [] then []
    else CellsOf(digest, students[..|students| - 1]) + StudentCells(digest, students[|students| - 1])
  }

  function BuildDemoScores(le: (DemoStudent, DemoStudent) -> bool, digest: string -> nat, students: seq<DemoStudent>): Result<seq<Cell>, Problem> {
    match CheckStudents(students)
    case Err(p) => Err(p)
    case Ok(_) => Ok(CellsOf(digest, Sort(students, le)))
  }

  /** The batch holds the cell of every student, exam and subject, at a fixed place. */
  lemma {:induction false} CellAt(digest: string -> nat, students: seq<DemoStudent>, p: nat, exam: Index, subject: Index)
    requires p < |students|
    ensures CellsOf(digest, students)[9 * p + 3 * exam + subject] == CellFor(digest, students[p], exam, subject)
  {
    hide CellFor;
    var n := |students| - 1;
    if p < n {
      CellAt(digest, students[..n], p, exam, subject);
    } else {
      var k := 3 * exam + subject;
      assert k / 3 == exam && k % 3 == subject;
      assert StudentCells(digest, students[n])[k] == CellFor(digest, students[n], exam, subject);
    }
  }

  lemma Position(c: nat)
    ensures c == 9 * (c / 9) + 3 * (c % 9 / 3) + c % 9 % 3
    ensures 0 <= c % 9 / 3 < 3
  {
    var r := c % 9;
    assert c == 9 * (c / 9) + r;
    assert r == 3 * (r / 3) + r % 3;
  }

  /** And nothing else: every position is that of one student, exam and subject. */
  lemma EveryCellIsOne(digest: string -> nat, students: seq<DemoStudent>, c: nat)
    requires c < 9 * |students|
    ensures c / 9 < |students| && CellsOf(digest, students)[c] == CellFor(digest, students[c / 9], c % 9 / 3, c % 9 % 3)
  {
    hide CellsOf, CellFor;
    Position(c);
    CellAt(digest, students, c / 9, c % 9 / 3, c % 9 % 3);
  }

  predicate SameSlot(a: Cell, b: Cell) {
    a.studentId == b.studentId && a.exam == b.exam && a.subject == b.subject
  }

  predicate DistinctIds(students: seq<DemoStudent>) {
    forall i, j | 0 <= i < j < |students| :: students[i].id != students[j].id
  }

  /**
   Nine cells a student, no two for the same student, exam and subject; values
   from 65 to 98; and every subject rises by five from one exam to the next.
   */
  lemma BatchShape(digest: string -> nat, students: seq<DemoStudent>)
    requires DistinctIds(students)
    ensures
      var cells := CellsOf(digest, students);
      && |cells| == 9 * |students|
      && (forall a, b | 0 <= a < b < |cells| :: !SameSlot(cells[a], cells[b]))
      && (forall a | 0 <= a < |cells| :: 65 <= cells[a].value <= 98)
      && (forall a, b | 0 <= a < |cells| && 0 <= b < |cells| && cells[a].studentId == cells[b].studentId && cells[a].subject == cells[b].subject
            :: cells[b].value - cells[a].value == 5 * (cells[b].exam - cells[a].exam))
  {
    hide CellsOf, ValueOf;
    var cells := CellsOf(digest, students);
    forall a | 0 <= a < |cells| ensures 65 <= cells[a].value <= 98 {
      EveryCellIsOne(digest, students, a);
      ValueInRange(digest, students[a / 9], a % 9 / 3, a % 9 % 3);
    }
    forall a, b | 0 <= a < b < |cells| ensures !SameSlot(cells[a], cells[b]) {
      EveryCellIsOne(digest, students, a);
      EveryCellIsOne(digest, students, b);
      DifferentPositions(a, b);
    }
    forall a, b | 0 <= a < |cells| && 0 <= b < |cells| && cells[a].studentId == cells[b].studentId && cells[a].subject == cells[b].subject
      ensures cells[b].value - cells[a].value == 5 * (cells[b].exam - cells[a].exam)
    {
      EveryCellIsOne(digest, students, a);
      EveryCellIsOne(digest, students, b);
      ValueRises(digest, students[a / 9], a % 9 / 3, b % 9 / 3, a % 9 % 3);
    }
  }

  lemma DifferentPositions(a: nat, b: nat)
    ensures a != b ==> a / 9 != b / 9 || a % 9 / 3 != b % 9 / 3 || a % 9 % 3 != b % 9 % 3
  {
    Position(a);
    Position(b);
  }

  lemma ValueInRange(digest: string -> nat, s: DemoStudent, exam: Index, subject: Index)
    ensures 65 <= ValueOf(digest, s, exam, subject) <= 98
  {
  }

  lemma ValueRises(digest: string -> nat, s: DemoStudent, a: Index, b: Index, subject: Index)
    ensures ValueOf(digest, s, b, subject) - ValueOf(digest, s, a, subject) == 5 * (b - a)
  {
  }

  /**
   Each student has one cell for each of the three exams and three subjects: 65,
   and the digest of the student's external id and the subject modulo 24, and
   five for each exam before it.
   */
  lemma CellsAre(digest: string -> nat, students: seq<DemoStudent>, p: nat, exam: Index, subject: Index)
    requires p < |students|
    ensures
      var cell := CellsOf(digest, students)[9 * p + 3 * exam + subject];
      && cell.studentId == students[p].id && cell.exam == exam && cell.subject == subject
      && cell.value == 65 + digest(students[p].eduplusId + ":" + ["chinese", "math", "english"][subject]) % 24 + 5 * exam
  {
    hide CellsOf, CellFor;
    CellAt(digest, students, p, exam, subject);
    CellForIs(digest, students[p], exam, subject);
  }

  lemma CellForIs(digest: string -> nat, s: DemoStudent, exam: Index, subject: Index)
    ensures
      var cell := CellFor(digest, s, exam, subject);
      && cell.studentId == s.id && cell.exam == exam && cell.subject == subject
      && cell.value == 65 + digest(s.eduplusId + ":" + ["chinese", "math", "english"][subject]) % 24 + 5 * exam
  {
  }

  // ---- order ----

  predicate NoTies(students: seq<DemoStudent>, le: (DemoStudent, DemoStudent) -> bool) {
    forall i, j | 0 <= i < j < |students| :: !Tied(students[i], students[j], le)
  }

  lemma FirstIsMember(students: seq<DemoStudent>)
    ensures students != [] ==> students[0] in students
  {
  }

  lemma {:induction false} TiesAtMostOne(students: seq<DemoStudent>, x: DemoStudent, le: (DemoStudent, DemoStudent) -> bool)
    requires NoTies(students, le) && TotalPreorder(le)
    ensures |Ties(students, x, le)| <= 1
  {
    if students != [] {
      TiesAtMostOne(students[1..], x, le);
      if Tied(students[0], x, le) {
        forall y ensures y !in Ties(students[1..], x, le) {
          TiesMembers(students[1..], x, y, le);
          assert forall j | 0 < j < |students| :: !Tied(students[0], students[j], le);
          assert y in students[1..] ==> !Tied(students[0], y, le);
        }
        FirstIsMember(Ties(students[1..], x, le));
      }
    }
  }

  /** Two listings of the same students give the same batch, as long as the comparison ties no two of them. */
  lemma BatchForgetsOrder(le: (DemoStudent, DemoStudent) -> bool, digest: string -> nat, students: seq<DemoStudent>, other: seq<DemoStudent>)
    requires TotalPreorder(le) && NoTies(students, le) && NoTies(other, le)
    requires forall s :: s in students <==> s in other
    ensures CellsOf(digest, Sort(students, le)) == CellsOf(digest, Sort(other, le))
  {
    hide Sort, CellsOf, TotalPreorder, NoTies, Tied, Ties;
    forall x ensures Ties(students, x, le) == Ties(other, x, le) {
      TiesAtMostOne(students, x, le);
      TiesAtMostOne(other, x, le);
      var a, b := Ties(students, x, le), Ties(other, x, le);
      forall y ensures y in a <==> y in b {
        TiesMembers(students, x, y, le);
        TiesMembers(other, x, y, le);
      }
      if a != [] { assert a[0] in b; }
      if b != [] { assert b[0] in a; }
    }
    SortEqualIff(students, other, le);
  }
}
