/** A student's published results: totals, averages, ranks, and the limited query behind the widgets. */
module Results {
  import opened Prelude
  import opened StableSort
  import opened Ranking
  import opened Permutations

  datatype Score = Score(studentId: string, subjectId: string, value: Option<int>, absent: bool)

  datatype Subject = Subject(id: string, name: string, maximumScore: int)

  datatype Exam = Exam(id: string, title: string, kind: string, isDemo: bool, examDate: int, published: bool,
                       subjects: seq<Subject>, scores: seq<Score>)

  datatype SubjectResult = SubjectResult(
    id: string, name: string, maximumScore: int, score: Option<int>, absent: bool, rank: Option<nat>)

  datatype ExamResult = ExamResult(
    examId: string, title: string, isDemo: bool, kind: string, examDate: int,
    total: int, average: real, classRank: Option<nat>, subjects: seq<SubjectResult>)

  // ---- sums over the score rows of one exam ----

  function ValueOf(score: Score): int { score.value.GetOr(0) }

  /** The sum of a student's numeric scores. */
  function TotalOf(scores: seq<Score>, id: string): int {
    if scores == [] then 0
    else (if scores[0].studentId == id then ValueOf(scores[0]) else 0) + TotalOf(scores[1..], id)
  }

  function NumericCount(scores: seq<Score>, id: string): nat {
    if scores == [] then 0
    else (if scores[0].studentId == id && scores[0].value.Some? then 1 else 0) + NumericCount(scores[1..], id)
  }

  predicate HasNumeric(scores: seq<Score>, id: string) {
    exists i | 0 <= i < |scores| :: scores[i].studentId == id && scores[i].value.Some?
  }

  function SumOfAll(scores: seq<Score>): int {
    if scores == [] then 0 else ValueOf(scores[0]) + SumOfAll(scores[1..])
  }

  function SumOfEntries(entries: seq<Entry>): int {
    if entries == [] then 0 else entries[0].value + SumOfEntries(entries[1..])
  }

  lemma {:induction false} TotalOfAppend(scores: seq<Score>, s: Score, id: string)
    ensures TotalOf(scores + [s], id) == TotalOf(scores, id) + if s.studentId == id then ValueOf(s) else 0
    ensures NumericCount(scores + [s], id) == NumericCount(scores, id) + if s.studentId == id && s.value.Some? then 1 else 0
  {
    if scores == [] {
      assert ([] + [s])[1..] == [];
    } else {
      TotalOfAppend(scores[1..], s, id);
      assert (scores + [s])[1..] == scores[1..] + [s];
    }
  }

  lemma {:induction false} SumOfAllAppend(scores: seq<Score>, s: Score)
    ensures SumOfAll(scores + [s]) == SumOfAll(scores) + ValueOf(s)
  {
    if scores == [] {
      assert ([] + [s])[1..] == [];
    } else {
      SumOfAllAppend(scores[1..], s);
      assert (scores + [s])[1..] == scores[1..] + [s];
    }
  }

  lemma {:induction false} NoNumericNoTotal(scores: seq<Score>, id: string)
    requires !HasNumeric(scores, id)
    ensures TotalOf(scores, id) == 0 && NumericCount(scores, id) == 0
  {
    if scores != [] {
      assert !(scores[0].studentId == id && scores[0].value.Some?);
      forall i | 0 <= i < |scores[1..]| ensures !(scores[1..][i].studentId == id && scores[1..][i].value.Some?) {
        assert scores[1..][i] == scores[i + 1];
      }
      NoNumericNoTotal(scores[1..], id);
    }
  }

  /** A Map in insertion order: what iterating it yields. */
  ghost predicate EntriesOf(scores: seq<Score>, entries: seq<Entry>) {
    && DistinctIds(entries)
    && (forall i | 0 <= i < |entries| :: HasNumeric(scores, entries[i].id) && entries[i].value == TotalOf(scores, entries[i].id))
    && (forall id | HasNumeric(scores, id) :: exists i :: 0 <= i < |entries| && entries[i].id == id)
    && SumOfEntries(entries) == SumOfAll(scores)
  }

  function IndexOf(entries: seq<Entry>, id: string): (r: Option<nat>)
    ensures r.Some? ==> r.value < |entries| && entries[r.value].id == id
    ensures r.None? ==> forall i | 0 <= i < |entries| :: entries[i].id != id
  {
    if entries == [] then None
    else if entries[0].id == id then Some(0)
    else match IndexOf(entries[1..], id)
         case None => assert forall i | 0 < i < |entries| :: entries[i] == entries[1..][i - 1]; None
         case Some(k) => Some(k + 1)
  }

  lemma {:induction false} SumOfEntriesUpdate(entries: seq<Entry>, k: nat, value: int)
    requires k < |entries|
    ensures SumOfEntries(entries[k := entries[k].(value := value)]) == SumOfEntries(entries) - entries[k].value + value
  {
    var u := entries[k := entries[k].(value := value)];
    if k == 0 {
      assert u[1..] == entries[1..];
    } else {
      SumOfEntriesUpdate(entries[1..], k - 1, value);
      assert u[1..] == entries[1..][k - 1 := entries[1..][k - 1].(value := value)];
    }
  }

  lemma {:induction false} SumOfEntriesAppend(entries: seq<Entry>, e: Entry)
    ensures SumOfEntries(entries + [e]) == SumOfEntries(entries) + e.value
  {
    if entries == [] {
      assert ([] + [e])[1..] == [];
    } else {
      SumOfEntriesAppend(entries[1..], e);
      assert (entries + [e])[1..] == entries[1..] + [e];
    }
  }

  /** Adds a value to an id's total, entering the id last if it has none. */
  function AddTo(entries: seq<Entry>, id: string, value: int): seq<Entry> {
    match IndexOf(entries, id)
    case None => entries + [Entry(id, value)]
    case Some(k) => entries[k := Entry(id, entries[k].value + value)]
  }

  lemma HasNumericAppend(scores: seq<Score>, s: Score, id: string)
    ensures HasNumeric(scores + [s], id) <==> HasNumeric(scores, id) || (s.studentId == id && s.value.Some?)
  {
    var longer := scores + [s];
    if HasNumeric(scores, id) {
      var i :| 0 <= i < |scores| && scores[i].studentId == id && scores[i].value.Some?;
      assert longer[i] == scores[i];
    }
    assert longer[|scores|] == s;
  }

  lemma EntriesStepNull(scores: seq<Score>, entries: seq<Entry>, s: Score)
    requires EntriesOf(scores, entries) && s.value.None?
    ensures EntriesOf(scores + [s], entries)
  {
    hide TotalOf, HasNumeric, SumOfAll, SumOfEntries;
    SumOfAllAppend(scores, s);
    forall id ensures HasNumeric(scores + [s], id) <==> HasNumeric(scores, id) { HasNumericAppend(scores, s, id); }
    forall id ensures TotalOf(scores + [s], id) == TotalOf(scores, id) { TotalOfAppend(scores, s, id); }
  }

  lemma EntriesStepFound(scores: seq<Score>, entries: seq<Entry>, s: Score, k: nat)
    requires EntriesOf(scores, entries) && s.value.Some? && k < |entries| && entries[k].id == s.studentId
    ensures EntriesOf(scores + [s], entries[k := Entry(s.studentId, entries[k].value + s.value.value)])
  {
    hide TotalOf, HasNumeric, SumOfAll, SumOfEntries, DistinctIds;
    var after := entries[k := Entry(s.studentId, entries[k].value + s.value.value)];
    SumOfAllAppend(scores, s);
    SumOfEntriesUpdate(entries, k, entries[k].value + s.value.value);
    SameIdsStayDistinct(entries, after);
    forall i | 0 <= i < |after|
      ensures HasNumeric(scores + [s], after[i].id) && after[i].value == TotalOf(scores + [s], after[i].id)
    {
      HasNumericAppend(scores, s, after[i].id);
      TotalOfAppend(scores, s, after[i].id);
      if i != k { OthersDiffer(entries, i, k); }
    }
    forall id | HasNumeric(scores + [s], id) ensures exists i :: 0 <= i < |after| && after[i].id == id {
      HasNumericAppend(scores, s, id);
      var i := if id == s.studentId then k else (var i :| 0 <= i < |entries| && entries[i].id == id; i);
      assert after[i].id == id;
    }
  }

  lemma EntriesStepNew(scores: seq<Score>, entries: seq<Entry>, s: Score)
    requires EntriesOf(scores, entries) && s.value.Some? && forall i | 0 <= i < |entries| :: entries[i].id != s.studentId
    ensures EntriesOf(scores + [s], entries + [Entry(s.studentId, s.value.value)])
  {
    hide TotalOf, HasNumeric, SumOfAll, SumOfEntries;
    var after := entries + [Entry(s.studentId, s.value.value)];
    SumOfAllAppend(scores, s);
    SumOfEntriesAppend(entries, Entry(s.studentId, s.value.value));
    if !HasNumeric(scores, s.studentId) { NoNumericNoTotal(scores, s.studentId); }
    forall i | 0 <= i < |after|
      ensures HasNumeric(scores + [s], after[i].id) && after[i].value == TotalOf(scores + [s], after[i].id)
    {
      HasNumericAppend(scores, s, after[i].id);
      TotalOfAppend(scores, s, after[i].id);
    }
    forall id | HasNumeric(scores + [s], id) ensures exists i :: 0 <= i < |after| && after[i].id == id {
      HasNumericAppend(scores, s, id);
      var i := if id == s.studentId then |entries| else (var i :| 0 <= i < |entries| && entries[i].id == id; i);
      assert after[i].id == id;
    }
  }

  lemma SameIdsStayDistinct(a: seq<Entry>, b: seq<Entry>)
    requires DistinctIds(a) && |a| == |b| && forall i | 0 <= i < |a| :: a[i].id == b[i].id
    ensures DistinctIds(b)
  {
  }

  lemma OthersDiffer(a: seq<Entry>, i: nat, k: nat)
    requires DistinctIds(a) && i < |a| && k < |a| && i != k
    ensures a[i].id != a[k].id
  {
  }

  lemma EntriesStep(scores: seq<Score>, entries: seq<Entry>, s: Score)
    requires EntriesOf(scores, entries)
    ensures EntriesOf(scores + [s], if s.value.Some? then AddTo(entries, s.studentId, s.value.value) else entries)
  {
    hide EntriesOf;
    if s.value.None? {
      EntriesStepNull(scores, entries, s);
    } else {
      match IndexOf(entries, s.studentId)
      case None => EntriesStepNew(scores, entries, s);
      case Some(k) => EntriesStepFound(scores, entries, s, k);
    }
  }

  lemma NoEntries()
    ensures EntriesOf([], [])
  {
  }

  method Totals(scores: seq<Score>) returns (entries: seq<Entry>)
    ensures EntriesOf(scores, entries)
  {
    hide EntriesOf, AddTo;
    entries := [];
    NoEntries();
    assert scores[..0] == [];
    for k := 0 to |scores|
      invariant EntriesOf(scores[..k], entries)
    {
      EntriesStep(scores[..k], entries, scores[k]);
      assert scores[..k + 1] == scores[..k] + [scores[k]];
      if scores[k].value.Some? {
        entries := AddTo(entries, scores[k].studentId, scores[k].value.value);
      }
    }
    assert scores[..|scores|] == scores;
  }

  // ---- ranks as counts of people ----

  /** The students whose numeric scores sum to more than the given total. */
  ghost function AheadOf(scores: seq<Score>, total: int): set<string> {
    set i | 0 <= i < |scores| && HasNumeric(scores, scores[i].studentId) && TotalOf(scores, scores[i].studentId) > total
      :: scores[i].studentId
  }

  /** One plus the number of students with a greater total; nobody without a numeric score is ranked. */
  ghost function ClassRankOf(scores: seq<Score>, id: string): Option<nat> {
    if HasNumeric(scores, id) then Some(1 + |AheadOf(scores, TotalOf(scores, id))|) else None
  }

  lemma RankAmongTotals(scores: seq<Score>, entries: seq<Entry>, id: string, le: Collation)
    requires EntriesOf(scores, entries)
    ensures FindRank(Ranks(entries, le), id) == ClassRankOf(scores, id)
  {
    hide Ranks, FindRank, TotalOf, Greater, SumOfAll, SumOfEntries;
    if HasNumeric(scores, id) {
      var k :| 0 <= k < |entries| && entries[k].id == id;
      RankOf(entries, le, entries[k]);
      var total := TotalOf(scores, id);
      GreaterCountsIds(entries, total);
      var above := set e | e in entries && e.value > total :: e.id;
      forall x ensures x in above <==> x in AheadOf(scores, total) {
        if x in above {
          var e :| e in entries && e.value > total && e.id == x;
          assert HasNumeric(scores, x);
          var i :| 0 <= i < |scores| && scores[i].studentId == x && scores[i].value.Some?;
        }
        if x in AheadOf(scores, total) {
          var j :| 0 <= j < |entries| && entries[j].id == x;
          assert entries[j] in entries;
        }
      }
      assert above == AheadOf(scores, total);
    } else {
      RankOfAbsent(entries, le, id);
    }
  }

  // ---- one exam, one student ----

  /** Schema: one score row per student and subject. */
  predicate OneScorePerCell(scores: seq<Score>) {
    forall i, j | 0 <= i < j < |scores| :: scores[i].studentId != scores[j].studentId || scores[i].subjectId != scores[j].subjectId
  }

  predicate HasCell(scores: seq<Score>, student: string, subject: string, i: nat)
    requires i < |scores|
  {
    scores[i].studentId == student && scores[i].subjectId == subject
  }

  /** The numeric scores of one subject, as ranking input. */
  function SubjectEntries(scores: seq<Score>, subject: string): seq<Entry> {
    if scores == [] then []
    else (if scores[0].subjectId == subject && scores[0].value.Some? then [Entry(scores[0].studentId, scores[0].value.value)] else [])
         + SubjectEntries(scores[1..], subject)
  }

  lemma {:induction false} SubjectEntriesMembers(scores: seq<Score>, subject: string, e: Entry)
    ensures e in SubjectEntries(scores, subject)
       <==> exists i | 0 <= i < |scores| :: scores[i].subjectId == subject && scores[i].studentId == e.id && scores[i].value == Some(e.value)
  {
    if scores != [] {
      var rest := scores[1..];
      SubjectEntriesMembers(rest, subject, e);
      if exists i | 0 <= i < |rest| :: rest[i].subjectId == subject && rest[i].studentId == e.id && rest[i].value == Some(e.value) {
        var i :| 0 <= i < |rest| && rest[i].subjectId == subject && rest[i].studentId == e.id && rest[i].value == Some(e.value);
        assert scores[i + 1] == rest[i];
      }
      if exists i | 0 <= i < |scores| :: scores[i].subjectId == subject && scores[i].studentId == e.id && scores[i].value == Some(e.value) {
        var i :| 0 <= i < |scores| && scores[i].subjectId == subject && scores[i].studentId == e.id && scores[i].value == Some(e.value);
        if i > 0 { assert rest[i - 1] == scores[i]; }
      }
    }
  }

  lemma {:induction false} SubjectEntriesDistinct(scores: seq<Score>, subject: string)
    requires OneScorePerCell(scores)
    ensures DistinctIds(SubjectEntries(scores, subject))
  {
    if scores != [] {
      var rest := scores[1..];
      assert OneScorePerCell(rest) by {
        forall i, j | 0 <= i < j < |rest| ensures rest[i].studentId != rest[j].studentId || rest[i].subjectId != rest[j].subjectId {
          assert rest[i] == scores[i + 1] && rest[j] == scores[j + 1];
        }
      }
      SubjectEntriesDistinct(rest, subject);
      if scores[0].subjectId == subject && scores[0].value.Some? {
        var tail := SubjectEntries(rest, subject);
        forall j | 0 <= j < |tail| ensures tail[j].id != scores[0].studentId {
          SubjectEntriesMembers(rest, subject, tail[j]);
          var i :| 0 <= i < |rest| && rest[i].subjectId == subject && rest[i].studentId == tail[j].id;
          assert scores[i + 1] == rest[i];
        }
      }
    }
  }

  function FindScore(scores: seq<Score>, student: string, subject: string): (r: Option<Score>)
    ensures r.Some? ==> r.value in scores && r.value.studentId == student && r.value.subjectId == subject
    ensures r.None? ==> forall i | 0 <= i < |scores| :: !HasCell(scores, student, subject, i)
  {
    if scores == [] then None
    else if HasCell(scores, student, subject, 0) then Some(scores[0])
    else
      var r := FindScore(scores[1..], student, subject);
      assert forall i | 0 < i < |scores| :: scores[i] == scores[1..][i - 1] && (HasCell(scores, student, subject, i) <==> HasCell(scores[1..], student, subject, i - 1));
      r
  }

  function SubjectResultOf(scores: seq<Score>, student: string, subject: Subject, le: Collation): SubjectResult {
    var score := FindScore(scores, student, subject.id);
    SubjectResult(subject.id, subject.name, subject.maximumScore,
                  if score.Some? then score.value.value else None,
                  score.Some? && score.value.absent,
                  FindRank(Ranks(SubjectEntries(scores, subject.id), le), student))
  }

  lemma CellIsUnique(scores: seq<Score>, student: string, subject: string, i: nat)
    requires OneScorePerCell(scores) && i < |scores| && HasCell(scores, student, subject, i)
    ensures FindScore(scores, student, subject) == Some(scores[i])
  {
    var found := FindScore(scores, student, subject);
    assert found.Some?;
    var j :| 0 <= j < |scores| && scores[j] == found.value;
    assert i == j;
  }

  /** A subject rank counts the students with a greater numeric score in that subject. */
  lemma SubjectRankCounts(scores: seq<Score>, student: string, subject: Subject, le: Collation)
    requires OneScorePerCell(scores)
    ensures
      var r := SubjectResultOf(scores, student, subject, le);
      && (r.score.None? ==> r.rank.None?)
      && (r.score.Some? ==>
            r.rank == Some(1 + |set e | e in SubjectEntries(scores, subject.id) && e.value > r.score.value :: e.id|))
  {
    hide Ranks, FindRank, Greater;
    var entries := SubjectEntries(scores, subject.id);
    SubjectEntriesDistinct(scores, subject.id);
    var found := FindScore(scores, student, subject.id);
    if found.Some? && found.value.value.Some? {
      var entry := Entry(student, found.value.value.value);
      SubjectEntriesMembers(scores, subject.id, entry);
      RankOf(entries, le, entry);
      GreaterCountsIds(entries, entry.value);
    } else {
      forall k | 0 <= k < |entries| ensures entries[k].id != student {
        SubjectEntriesMembers(scores, subject.id, entries[k]);
        var i :| 0 <= i < |scores| && scores[i].subjectId == subject.id && scores[i].studentId == entries[k].id && scores[i].value == Some(entries[k].value);
        if entries[k].id == student { CellIsUnique(scores, student, subject.id, i); }
      }
      RankOfAbsent(entries, le, student);
    }
  }

  ghost function ResultOf(exam: Exam, student: string, le: Collation): ExamResult {
    var total, count := TotalOf(exam.scores, student), NumericCount(exam.scores, student);
    ExamResult(exam.id, exam.title, exam.isDemo, exam.kind, exam.examDate,
               total, if count == 0 then 0.0 else total as real / count as real,
               ClassRankOf(exam.scores, student),
               seq(|exam.subjects|, i requires 0 <= i < |exam.subjects| => SubjectResultOf(exam.scores, student, exam.subjects[i], le)))
  }

  /** The map callback over one exam. */
  method ExamResultFor(exam: Exam, student: string, le: Collation) returns (r: ExamResult)
    ensures r == ResultOf(exam, student, le)
  {
    hide Greater, Sort, FindScore, SubjectEntries, EntriesOf;
    var total, numeric := 0, 0;
    for k := 0 to |exam.scores|
      invariant total == TotalOf(exam.scores[..k], student) && numeric == NumericCount(exam.scores[..k], student)
    {
      TotalOfAppend(exam.scores[..k], exam.scores[k], student);
      assert exam.scores[..k + 1] == exam.scores[..k] + [exam.scores[k]];
      if exam.scores[k].studentId == student && exam.scores[k].value.Some? {
        total := total + exam.scores[k].value.value;
        numeric := numeric + 1;
      }
    }
    assert exam.scores[..|exam.scores|] == exam.scores;
    var average := if numeric == 0 then 0.0 else total as real / numeric as real;
    var totals := Totals(exam.scores);
    var ranks := CompetitionRanks(totals, le);
    RankAmongTotals(exam.scores, totals, student, le);
    var subjects: seq<SubjectResult> := [];
    for i := 0 to |exam.subjects|
      invariant |subjects| == i
      invariant forall j | 0 <= j < i :: subjects[j] == SubjectResultOf(exam.scores, student, exam.subjects[j], le)
    {
      var subject := exam.subjects[i];
      var score := FindScore(exam.scores, student, subject.id);
      var subjectRanks := CompetitionRanks(SubjectEntries(exam.scores, subject.id), le);
      subjects := subjects + [SubjectResult(subject.id, subject.name, subject.maximumScore,
                                            if score.Some? then score.value.value else None,
                                            score.Some? && score.value.absent,
                                            FindRank(subjectRanks, student))];
    }
    r := ExamResult(exam.id, exam.title, exam.isDemo, exam.kind, exam.examDate, total, average, FindRank(ranks, student), subjects);
  }

  // ---- the query ----

  /** Database order on ids: a deterministic collation never ties two different ids. */
  type IdOrder = le: (string, string) -> bool | TotalPreorder(le) && Separates(le)
    witness (LexIsTotalOrder(); LexLe)

  function Ascending(le: IdOrder): (Exam, Exam) -> bool {
    (a: Exam, b: Exam) => a.examDate < b.examDate || (a.examDate == b.examDate && le(a.id, b.id))
  }

  function Descending(le: IdOrder): (Exam, Exam) -> bool {
    (a: Exam, b: Exam) => Ascending(le)(b, a)
  }

  predicate DistinctExams(exams: seq<Exam>) {
    forall i, j | 0 <= i < j < |exams| :: exams[i].id != exams[j].id
  }

  predicate Matches(exam: Exam, student: string) {
    exam.published && exists i | 0 <= i < |exam.scores| :: exam.scores[i].studentId == student
  }

  function Matching(exams: seq<Exam>, student: string): seq<Exam> {
    if exams == [] then []
    else (if Matches(exams[0], student) then [exams[0]] else []) + Matching(exams[1..], student)
  }

  lemma {:induction false} MatchingMembers(exams: seq<Exam>, student: string, e: Exam)
    ensures e in Matching(exams, student) <==> e in exams && Matches(e, student)
  {
    if exams != [] {
      MatchingMembers(exams[1..], student, e);
      assert exams == [exams[0]] + exams[1..];
    }
  }

  lemma {:induction false} MatchingDistinct(exams: seq<Exam>, student: string)
    requires DistinctExams(exams)
    ensures DistinctExams(Matching(exams, student))
  {
    if exams != [] {
      var rest := exams[1..];
      MatchingDistinct(rest, student);
      var tail := Matching(rest, student);
      forall k | 0 <= k < |tail| ensures tail[k].id != exams[0].id {
        MatchingMembers(rest, student, tail[k]);
        var i :| 0 <= i < |rest| && rest[i] == tail[k];
        assert exams[i + 1] == tail[k];
      }
    }
  }

  function BoundedLimit(limit: Option<int>): (r: Option<int>)
    ensures r.Some? <==> limit.Some?
    ensures r.Some? ==> 1 <= r.value <= 50 && (1 <= limit.value <= 50 ==> r == limit)
    ensures r.Some? ==> (limit.value < 1 ==> r.value == 1) && (limit.value > 50 ==> r.value == 50)
  {
    if limit.None? then None
    else Some(if limit.value < 1 then 1 else if limit.value > 50 then 50 else limit.value)
  }

  function Take<T>(s: seq<T>, n: nat): seq<T> {
    if n < |s| then s[..n] else s
  }

  function Reverse<T>(s: seq<T>): (r: seq<T>)
    ensures |r| == |s| && forall i | 0 <= i < |s| :: r[i] == s[|s| - 1 - i]
    ensures multiset(r) == multiset(s)
  {
    if s == [] then []
    else
      assert s == [s[0]] + s[1..];
      Reverse(s[1..]) + [s[0]]
  }

  function LastOf<T>(s: seq<T>, n: nat): seq<T> {
    if n < |s| then s[|s| - n..] else s
  }

  /** The exams forStudent maps over, in the order it returns them. */
  function Selected(exams: seq<Exam>, student: string, limit: Option<int>, le: IdOrder): seq<Exam> {
    match BoundedLimit(limit)
    case None => Sort(Matching(exams, student), Ascending(le))
    case Some(k) => Reverse(Take(Sort(Matching(exams, student), Descending(le)), k))
  }

  lemma OrdersArePreorders(le: IdOrder)
    ensures TotalPreorder(Ascending(le)) && TotalPreorder(Descending(le))
  {
    var f := Ascending(le);
    assert TotalPreorder(le);
    forall x, y ensures f(x, y) || f(y, x) { assert le(x.id, y.id) || le(y.id, x.id); }
    forall x, y, z | f(x, y) && f(y, z) ensures f(x, z) { assert le(x.id, y.id) && le(y.id, z.id) ==> le(x.id, z.id); }
    var g := Descending(le);
    forall x, y ensures g(x, y) || g(y, x) { assert f(y, x) || f(x, y); }
    forall x, y, z | g(x, y) && g(y, z) ensures g(x, z) { assert f(z, y) && f(y, x); }
  }

  lemma ReverseSortsBackwards(exams: seq<Exam>, le: IdOrder)
    requires DistinctExams(exams)
    ensures Sort(exams, Descending(le)) == Reverse(Sort(exams, Ascending(le)))
  {
    hide Ascending, Descending, DistinctExams, TotalPreorder, Separates;
    var up, down := Sort(exams, Ascending(le)), Sort(exams, Descending(le));
    OrdersArePreorders(le);
    SortIsSorted(exams, Ascending(le));
    SortIsSorted(exams, Descending(le));
    hide Sort;
    ReverseIsStrict(exams, up, le);
    StrictlySortedIsUnique(Reverse(up), down, Descending(le));
  }

  lemma ReverseIsStrict(exams: seq<Exam>, up: seq<Exam>, le: IdOrder)
    requires DistinctExams(exams) && multiset(exams) == multiset(up) && Sorted(up, Ascending(le))
    ensures StrictlySorted(Reverse(up), Descending(le))
  {
    hide Reverse, TotalPreorder, Separates;
    var back := Reverse(up);
    forall i, j | 0 <= i < j < |back|
      ensures Descending(le)(back[i], back[j]) && !Descending(le)(back[j], back[i])
    {
      var x, y := |up| - 1 - j, |up| - 1 - i;
      assert Ascending(le)(up[x], up[y]);
      SortedDistinct(exams, up, x, y);
      TiedExamsShareIds(up[x], up[y], le);
    }
  }

  lemma TiedExamsShareIds(x: Exam, y: Exam, le: IdOrder)
    ensures Ascending(le)(x, y) && Ascending(le)(y, x) ==> x.id == y.id
  {
    assert Separates(le);
  }

  lemma SortedDistinct(exams: seq<Exam>, sorted: seq<Exam>, i: nat, j: nat)
    requires DistinctExams(exams) && multiset(exams) == multiset(sorted) && i < j < |sorted|
    ensures sorted[i].id != sorted[j].id
  {
    PermutedAllDifferent(exams, sorted);
    var a := PermutedMember(exams, sorted, i);
    var b := PermutedMember(exams, sorted, j);
    assert a != b;
  }

  lemma ReversedPrefixAt<T>(s: seq<T>, k: nat, i: nat)
    requires i < |s| && i < k
    ensures
      var r, n := Reverse(Take(Reverse(s), k)), if k < |s| then k else |s|;
      |r| == n && r[i] == s[|s| - n + i]
  {
    hide Reverse;
    var back := Reverse(s);
    var head := Take(back, k);
    var n := |head|;
    assert Reverse(head)[i] == head[n - 1 - i];
    assert head[n - 1 - i] == back[n - 1 - i];
    assert back[n - 1 - i] == s[|s| - 1 - (n - 1 - i)];
  }

  lemma SuffixIs<T>(s: seq<T>, k: nat, r: seq<T>)
    requires |r| == if k < |s| then k else |s|
    requires forall i | 0 <= i < |r| :: r[i] == s[|s| - |r| + i]
    ensures r == LastOf(s, k)
  {
  }

  lemma ReversedPrefixLength<T>(s: seq<T>, k: nat)
    ensures |Reverse(Take(Reverse(s), k))| == if k < |s| then k else |s|
  {
    hide Reverse;
  }

  lemma ReversedPrefixIsSuffix<T>(s: seq<T>, k: nat)
    ensures Reverse(Take(Reverse(s), k)) == LastOf(s, k)
  {
    hide *;
    var r := Reverse(Take(Reverse(s), k));
    ReversedPrefixLength(s, k);
    forall i | 0 <= i < |r| ensures r[i] == s[|s| - |r| + i] { ReversedPrefixAt(s, k, i); }
    SuffixIs(s, k, r);
  }

  /** A limit keeps exactly the latest exams of the unlimited answer, in the same order. */
  lemma LimitedIsSuffix(exams: seq<Exam>, student: string, limit: int, le: IdOrder)
    requires DistinctExams(exams)
    ensures Selected(exams, student, Some(limit), le)
         == LastOf(Selected(exams, student, None, le), BoundedLimit(Some(limit)).value)
  {
    hide Sort, Matching, Reverse, Take, LastOf, Ascending, Descending;
    MatchingDistinct(exams, student);
    ReverseSortsBackwards(Matching(exams, student), le);
    ReversedPrefixIsSuffix(Sort(Matching(exams, student), Ascending(le)), BoundedLimit(Some(limit)).value);
  }

  /** Every limit names the same latest exam: the summary (1), the trend (12) and the unlimited list end alike. */
  lemma LatestIsTheSame(exams: seq<Exam>, student: string, a: int, b: int, le: IdOrder)
    requires DistinctExams(exams)
    ensures
      var x, y, all := Selected(exams, student, Some(a), le), Selected(exams, student, Some(b), le), Selected(exams, student, None, le);
      && (x == [] <==> all == []) && (y == [] <==> all == [])
      && (all != [] ==> x[|x| - 1] == y[|y| - 1] == all[|all| - 1])
  {
    hide Selected;
    LimitedIsSuffix(exams, student, a, le);
    LimitedIsSuffix(exams, student, b, le);
  }

  method ResultsOf(rows: seq<Exam>, student: string, le: Collation) returns (results: seq<ExamResult>)
    ensures |results| == |rows| && forall j | 0 <= j < |rows| :: results[j] == ResultOf(rows[j], student, le)
  {
    hide ResultOf;
    results := [];
    for i := 0 to |rows|
      invariant |results| == i
      invariant forall j | 0 <= j < i :: results[j] == ResultOf(rows[j], student, le)
    {
      var r := ExamResultFor(rows[i], student, le);
      results := results + [r];
    }
  }
}
