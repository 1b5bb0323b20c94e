/** The tables of the examination domain and the directory rows it refers to. */
module ExamStore {
  import opened Prelude

  datatype PersonType = Staff | Teacher | Student | Parent

  datatype Actor = Actor(tenantId: string, personId: string, identityType: PersonType)

  datatype Person = Person(id: string, kind: PersonType, active: bool)

  datatype Classroom = Classroom(tenantId: string, active: bool)

  datatype Assignment = Assignment(tenantId: string, teacherId: string, classroomId: string, courseId: string, active: bool)

  datatype Membership = Membership(tenantId: string, studentId: string, classroomId: string, active: bool)

  /**
   What the directory sync writes and the examination services only read:
   people by their unique (tenant, EduPlus id), classrooms by id, courses by
   (tenant, id), and the two relations.
   */
  datatype Directory = Directory(
    people: map<(string, string), Person>, classrooms: map<string, Classroom>, courses: set<(string, string)>,
    assignments: set<Assignment>, memberships: set<Membership>)

  datatype ExamStatus = Draft | Published | Withdrawn

  datatype Exam = Exam(
    tenantId: string, creatorId: string, classroomId: string, title: string, kind: string, examDate: int,
    status: ExamStatus, publishedAt: Option<int>, withdrawnAt: Option<int>)

  /** The bounds the request validation puts on a maximum, in hundredths: 0.01 to 999999.99. */
  type MaximumScore = m: int | 1 <= m <= 99_999_999 witness 1

  /** maximumScore is a Decimal(8,2), counted in hundredths. */
  datatype Subject = Subject(tenantId: string, examId: string, courseId: string, maximumScore: MaximumScore, displayOrder: nat)

  /** The unique key of the score table. */
  datatype ScoreKey = ScoreKey(tenantId: string, examId: string, studentId: string, subjectId: string)

  /** value is a nullable Decimal(8,2), counted in hundredths. */
  datatype Score = Score(graderId: string, value: Option<int>, absent: bool)

  datatype Error =
    | NotStaff | NoExam | NoClassroom | NotDraft | NotPublished | NotOwner | NotAssigned | NoSubjects
    | DuplicateCell | UnknownSubject | AbsentWithScore | OutOfRange | UnknownStudent | OutsideClass
    | ForeignKey | UniqueViolation

  datatype ImportCode =
    | InvalidHeader | InvalidColumns | InvalidAbsent | InvalidScore | DuplicateRow
    | ValidationFailed(message: Option<Error>)

  datatype ImportError = ImportError(rowNumber: nat, code: ImportCode, rawValue: Option<seq<string>>)

  datatype ImportStatus = Validating | Failed | Applied

  datatype ScoreImport = ScoreImport(
    tenantId: string, examId: string, createdById: string, filename: string,
    status: ImportStatus, totalRows: nat, appliedRows: nat, errors: seq<ImportError>)

  datatype ExamDb = ExamDb(
    exams: map<string, Exam>, subjects: map<string, Subject>, scores: map<ScoreKey, Score>, imports: map<string, ScoreImport>)

  class Database {
    var exams: map<string, Exam>
    var subjects: map<string, Subject>
    var scores: map<ScoreKey, Score>
    var imports: map<string, ScoreImport>

    function Contents(): ExamDb
      reads this
    {
      ExamDb(exams, subjects, scores, imports)
    }
  }

  // ---- lookups ----

  predicate IsStaffActor(actor: Actor) {
    actor.identityType == Teacher || actor.identityType == Staff
  }

  predicate ExamVisible(db: ExamDb, tenantId: string, examId: string) {
    examId in db.exams && db.exams[examId].tenantId == tenantId
  }

  /** The rows of the exam's subjects relation. */
  function SubjectsOf(db: ExamDb, tenantId: string, examId: string): map<string, Subject> {
    map s | s in db.subjects && db.subjects[s].tenantId == tenantId && db.subjects[s].examId == examId :: db.subjects[s]
  }

  function ScoresOf(db: ExamDb, examId: string): map<ScoreKey, Score> {
    map k | k in db.scores && k.examId == examId :: db.scores[k]
  }

  /** A foreign key to people on (tenant, id). */
  predicate PersonExists(dir: Directory, tenantId: string, id: string) {
    exists e :: e in dir.people && e.0 == tenantId && dir.people[e].id == id
  }

  /** The primary key of people. */
  predicate UniquePeople(dir: Directory) {
    forall a, b | a in dir.people && b in dir.people && dir.people[a].id == dir.people[b].id :: a == b
  }

  /** A teacher needs an active assignment to the class and course; staff do not. */
  predicate MayTeach(dir: Directory, actor: Actor, classroomId: string, courseId: string) {
    actor.identityType == Teacher ==>
      Assignment(actor.tenantId, actor.personId, classroomId, courseId, true) in dir.assignments
  }
}
