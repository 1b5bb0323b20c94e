/** What a student or a parent is answered, in plain terms: which exams, in which order, and with which figures. */
module StudentResults {
  import opened Prelude
  import opened StableSort
  import opened Ranking
  import opened Results
  import Domain = ExamStore

  // ---- the figures of one exam ----

  predicate ScoreOf(s: Score, student: string) {
    s.studentId == student && s.value.Some?
  }

  /** The positions of a student's numeric scores. */
  function Numeric(scores: seq<Score>, student: string): set<nat> {
    set i: nat | i < |scores| && ScoreOf(scores[i], student)
  }

  /** A total is built score by score: a numeric score of the student adds itself, any other adds nothing. */
  lemma TotalIs(scores: seq<Score>, s: Score, student: string)
    ensures TotalOf([], student) == 0
    ensures s.studentId == student && s.value.Some? ==> TotalOf(scores + [s], student) == TotalOf(scores, student) + s.value.value
    ensures !(s.studentId == student && s.value.Some?) ==> TotalOf(scores + [s], student) == TotalOf(scores, student)
  {
    TotalOfAppend(scores, s, student);
  }

  lemma NumericSnoc(scores: seq<Score>, s: Score, student: string)
    ensures Numeric(scores + [s], student) == Numeric(scores, student) + if ScoreOf(s, student) then {|scores|} else {}
    ensures |scores| !in Numeric(scores, student)
  {
    hide ScoreOf;
  }

  lemma {:induction false} CountIs(scores: seq<Score>, student: string)
    ensures NumericCount(scores, student) == |Numeric(scores, student)|
  {
    if scores == [] {
      assert Numeric(scores, student) == {};
    } else {
      hide NumericCount, Numeric;
      var n := |scores| - 1;
      assert scores == scores[..n] + [scores[n]];
      CountIs(scores[..n], student);
      TotalOfAppend(scores[..n], scores[n], student);
      NumericSnoc(scores[..n], scores[n], student);
    }
  }

  /** The students with a numeric score and a total greater than this. */
  ghost function Better(exam: Exam, total: int): set<string> {
    set i | 0 <= i < |exam.scores| && exam.scores[i].value.Some? && TotalOf(exam.scores, exam.scores[i].studentId) > total :: exam.scores[i].studentId
  }

  /** The students with a score in the subject that is greater than this. */
  ghost function BetterIn(exam: Exam, subjectId: string, score: int): set<string> {
    set i | 0 <= i < |exam.scores| && exam.scores[i].subjectId == subjectId && exam.scores[i].value.Some? && exam.scores[i].value.value > score
      :: exam.scores[i].studentId
  }

  /** One subject of the answer: the student's own row of it, if there is one, and the place among the scores of the subject. */
  ghost predicate ShowsSubject(r: SubjectResult, exam: Exam, subject: Subject, student: string) {
    && r.id == subject.id && r.name == subject.name && r.maximumScore == subject.maximumScore
    && (forall i | 0 <= i < |exam.scores| && exam.scores[i].studentId == student && exam.scores[i].subjectId == subject.id ::
          r.score == exam.scores[i].value && r.absent == exam.scores[i].absent)
    && ((forall i | 0 <= i < |exam.scores| :: exam.scores[i].studentId != student || exam.scores[i].subjectId != subject.id) ==>
          r.score.None? && !r.absent)
    && (r.score.None? ==> r.rank.None?)
    && (r.score.Some? ==> r.rank == Some(1 + |BetterIn(exam, subject.id, r.score.value)|))
  }

  /** One exam of the answer: the average is the total over the number of numeric scores, the rank counts better students. */
  ghost predicate ShowsExam(r: ExamResult, exam: Exam, student: string) {
    && r.examId == exam.id && r.title == exam.title && r.isDemo == exam.isDemo && r.kind == exam.kind && r.examDate == exam.examDate
    && r.total == TotalOf(exam.scores, student)
    && (Numeric(exam.scores, student) == {} ==> r.average == 0.0 && r.classRank.None?)
    && (Numeric(exam.scores, student) != {} ==>
          && r.average * |Numeric(exam.scores, student)| as real == r.total as real
          && r.classRank == Some(1 + |Better(exam, r.total)|))
    && |r.subjects| == |exam.subjects|
    && forall k | 0 <= k < |exam.subjects| :: ShowsSubject(r.subjects[k], exam, exam.subjects[k], student)
  }

  lemma BetterIs(exam: Exam, total: int)
    ensures AheadOf(exam.scores, total) == Better(exam, total)
  {
    hide TotalOf;
    forall x ensures x in AheadOf(exam.scores, total) <==> x in Better(exam, total) {
      if x in AheadOf(exam.scores, total) {
        var i :| 0 <= i < |exam.scores| && exam.scores[i].studentId == x && exam.scores[i].value.Some?;
      }
      if x in Better(exam, total) { assert HasNumeric(exam.scores, x); }
    }
  }

  lemma BetterInIs(exam: Exam, subjectId: string, score: int)
    ensures (set e | e in SubjectEntries(exam.scores, subjectId) && e.value > score :: e.id) == BetterIn(exam, subjectId, score)
  {
    hide SubjectEntries;
    var ahead := set e | e in SubjectEntries(exam.scores, subjectId) && e.value > score :: e.id;
    forall x ensures x in ahead <==> x in BetterIn(exam, subjectId, score) {
      if x in ahead {
        var e :| e in SubjectEntries(exam.scores, subjectId) && e.value > score && e.id == x;
        SubjectEntriesMembers(exam.scores, subjectId, e);
      }
      if x in BetterIn(exam, subjectId, score) {
        var i :| 0 <= i < |exam.scores| && exam.scores[i].subjectId == subjectId && exam.scores[i].value.Some? && exam.scores[i].value.value > score
                 && exam.scores[i].studentId == x;
        SubjectEntriesMembers(exam.scores, subjectId, Entry(x, exam.scores[i].value.value));
      }
    }
  }

  lemma OwnScoreIs(exam: Exam, student: string, subject: Subject, le: Collation)
    requires OneScorePerCell(exam.scores)
    ensures
      var r := SubjectResultOf(exam.scores, student, subject, le);
      && r.id == subject.id && r.name == subject.name && r.maximumScore == subject.maximumScore
      && (forall i | 0 <= i < |exam.scores| && exam.scores[i].studentId == student && exam.scores[i].subjectId == subject.id ::
            r.score == exam.scores[i].value && r.absent == exam.scores[i].absent)
      && ((forall i | 0 <= i < |exam.scores| :: exam.scores[i].studentId != student || exam.scores[i].subjectId != subject.id) ==>
            r.score.None? && !r.absent)
  {
    hide SubjectEntries, FindRank, Ranks, FindScore, OneScorePerCell;
    var r := SubjectResultOf(exam.scores, student, subject, le);
    forall i | 0 <= i < |exam.scores| && exam.scores[i].studentId == student && exam.scores[i].subjectId == subject.id
      ensures r.score == exam.scores[i].value && r.absent == exam.scores[i].absent
    {
      CellIsUnique(exam.scores, student, subject.id, i);
    }
    if forall i | 0 <= i < |exam.scores| :: exam.scores[i].studentId != student || exam.scores[i].subjectId != subject.id {
      NoOwnScore(exam.scores, student, subject.id);
    }
  }

  lemma SubjectIsShown(exam: Exam, student: string, subject: Subject, le: Collation)
    requires OneScorePerCell(exam.scores)
    ensures ShowsSubject(SubjectResultOf(exam.scores, student, subject, le), exam, subject, student)
  {
    hide SubjectResultOf, OneScorePerCell, BetterIn, SubjectEntries;
    var r := SubjectResultOf(exam.scores, student, subject, le);
    OwnScoreIs(exam, student, subject, le);
    SubjectRankCounts(exam.scores, student, subject, le);
    if r.score.Some? { BetterInIs(exam, subject.id, r.score.value); }
  }

  lemma {:induction false} NoOwnScore(scores: seq<Score>, student: string, subjectId: string)
    requires forall i | 0 <= i < |scores| :: scores[i].studentId != student || scores[i].subjectId != subjectId
    ensures FindScore(scores, student, subjectId).None?
  {
    if scores != [] { NoOwnScore(scores[1..], student, subjectId); }
  }

  lemma ExamIsShown(exam: Exam, student: string, le: Collation)
    requires OneScorePerCell(exam.scores)
    ensures ShowsExam(ResultOf(exam, student, le), exam, student)
  {
    hide TotalOf, NumericCount, SubjectResultOf, OneScorePerCell, ShowsSubject;
    var r := ResultOf(exam, student, le);
    CountIs(exam.scores, student);
    BetterIs(exam, TotalOf(exam.scores, student));
    NumericIff(exam.scores, student);
    forall k | 0 <= k < |exam.subjects| ensures ShowsSubject(r.subjects[k], exam, exam.subjects[k], student) {
      SubjectIsShown(exam, student, exam.subjects[k], le);
    }
  }

  lemma NumericIff(scores: seq<Score>, student: string)
    ensures HasNumeric(scores, student) <==> Numeric(scores, student) != {}
  {
    if HasNumeric(scores, student) {
      var i: nat :| i < |scores| && scores[i].studentId == student && scores[i].value.Some?;
      assert i in Numeric(scores, student);
    }
    if Numeric(scores, student) != {} {
      var i :| i in Numeric(scores, student);
    }
  }

  // ---- which exams ----

  /** A published exam in which the student has a score row. */
  predicate Visible(e: Exam, student: string) {
    e.published && exists i :: 0 <= i < |e.scores| && e.scores[i].studentId == student
  }

  predicate NotAfter(a: Exam, b: Exam, byId: IdOrder) {
    a.examDate < b.examDate || (a.examDate == b.examDate && byId(a.id, b.id))
  }

  /** Every visible exam once, by date and then by id. */
  ghost predicate IsListing(exams: seq<Exam>, student: string, byId: IdOrder, all: seq<Exam>) {
    && (forall e :: e in all <==> e in exams && Visible(e, student))
    && (forall i, j | 0 <= i < j < |all| :: all[i].id != all[j].id && NotAfter(all[i], all[j], byId))
  }

  lemma UnlimitedListing(exams: seq<Exam>, student: string, byId: IdOrder)
    requires DistinctExams(exams)
    ensures IsListing(exams, student, byId, Selected(exams, student, None, byId))
  {
    hide Matching, Sort, DistinctExams, TotalPreorder, Matches;
    var found := Matching(exams, student);
    var all := Selected(exams, student, None, byId);
    MatchingDistinct(exams, student);
    OrdersArePreorders(byId);
    SortIsSorted(found, Ascending(byId));
    forall e ensures e in all <==> e in exams && Visible(e, student) {
      assert e in all <==> e in multiset(all);
      assert e in found <==> e in multiset(found);
      MatchingMembers(exams, student, e);
      MatchesIff(e, student);
    }
    forall i, j | 0 <= i < j < |all| ensures all[i].id != all[j].id && NotAfter(all[i], all[j], byId) {
      SortedDistinct(found, all, i, j);
      assert Ascending(byId)(all[i], all[j]);
    }
  }

  lemma MatchesIff(e: Exam, student: string)
    ensures Matches(e, student) <==> Visible(e, student)
  {
  }

  /**
   The whole answer.  It is a listing of the student's visible exams, cut down to
   its last entries if there is a limit, as many as the limit between 1 and 50
   says; and each result shows its exam.
   */
  ghost predicate IsAnswer(exams: seq<Exam>, student: string, limit: Option<int>, byId: IdOrder, results: seq<ExamResult>) {
    exists all ::
      && IsListing(exams, student, byId, all)
      && Shows(results, student, match limit
                                 case None => all
                                 case Some(n) => Last(all, if n < 1 then 1 else if n > 50 then 50 else n))
  }

  ghost predicate Shows(results: seq<ExamResult>, student: string, exams: seq<Exam>) {
    |results| == |exams| && forall i | 0 <= i < |exams| :: ShowsExam(results[i], exams[i], student)
  }

  function Last(all: seq<Exam>, n: nat): seq<Exam> {
    all[if n < |all| then |all| - n else 0..]
  }

  lemma SelectedIs(exams: seq<Exam>, student: string, limit: Option<int>, byId: IdOrder)
    requires DistinctExams(exams)
    ensures
      var all := Selected(exams, student, None, byId);
      Selected(exams, student, limit, byId)
      == match limit case None => all case Some(n) => Last(all, if n < 1 then 1 else if n > 50 then 50 else n)
  {
    hide Selected;
    if limit.Some? { LimitedIsSuffix(exams, student, limit.value, byId); }
  }

  lemma SelectedExists(exams: seq<Exam>, student: string, limit: Option<int>, byId: IdOrder, i: nat)
    requires DistinctExams(exams) && i < |Selected(exams, student, limit, byId)|
    ensures Selected(exams, student, limit, byId)[i] in exams && Visible(Selected(exams, student, limit, byId)[i], student)
  {
    hide Selected, Visible;
    SelectedIs(exams, student, limit, byId);
    UnlimitedListing(exams, student, byId);
    var chosen, all := Selected(exams, student, limit, byId), Selected(exams, student, None, byId);
    assert chosen[i] in all;
  }

  /** What forStudent returns when it returns anything: the exams selected, each with its result. */
  lemma AnswerIs(exams: seq<Exam>, student: string, limit: Option<int>, byId: IdOrder, le: Collation, results: seq<ExamResult>)
    requires DistinctExams(exams) && forall e | e in exams :: OneScorePerCell(e.scores)
    requires |results| == |Selected(exams, student, limit, byId)|
    requires forall i | 0 <= i < |results| :: results[i] == ResultOf(Selected(exams, student, limit, byId)[i], student, le)
    ensures IsAnswer(exams, student, limit, byId, results)
  {
    hide Selected, ResultOf, DistinctExams, OneScorePerCell, ShowsExam, IsListing;
    var chosen := Selected(exams, student, limit, byId);
    UnlimitedListing(exams, student, byId);
    SelectedIs(exams, student, limit, byId);
    forall i | 0 <= i < |chosen| ensures ShowsExam(results[i], chosen[i], student) {
      SelectedExists(exams, student, limit, byId, i);
      ExamIsShown(chosen[i], student, le);
    }
    assert Shows(results, student, chosen);
  }

  /** So a limited answer is the end of the unlimited one, and every result of either is of a published exam the student has a score in. */
  lemma OnlyVisibleExams(exams: seq<Exam>, student: string, limit: Option<int>, byId: IdOrder, results: seq<ExamResult>, i: nat)
    requires IsAnswer(exams, student, limit, byId, results) && i < |results|
    ensures exists e :: e in exams && e.published && (exists k :: 0 <= k < |e.scores| && e.scores[k].studentId == student)
                        && results[i].examId == e.id && ShowsExam(results[i], e, student)
  {
    hide ShowsExam;
    var all :| IsListing(exams, student, byId, all)
               && Shows(results, student, match limit
                                          case None => all
                                          case Some(n) => Last(all, if n < 1 then 1 else if n > 50 then 50 else n));
    var shown := match limit case None => all case Some(n) => Last(all, if n < 1 then 1 else if n > 50 then 50 else n);
    var e := shown[i];
    assert e in all && ShowsExam(results[i], e, student);
    assert results[i].examId == e.id by { ShownId(results[i], e, student); }
  }

  lemma ShownId(r: ExamResult, e: Exam, student: string)
    requires ShowsExam(r, e, student)
    ensures r.examId == e.id
  {
  }

  // ---- the call ----

  /** Active parent-child relations of the tenant, as (parent, student). */
  type Relations = set<(string, string)>

  /** Students are answered about themselves and parents about their children; anybody else is refused, and exams are those of the tenant. */
  method ForStudent(actor: Domain.Actor, relations: Relations, exams: seq<Exam>, student: string, limit: Option<int>, byId: IdOrder, le: Collation)
    returns (r: Option<seq<ExamResult>>)
    ensures r.Some? <==> || (actor.identityType == Domain.Student && actor.personId == student)
                         || (actor.identityType == Domain.Parent && (actor.personId, student) in relations)
    ensures r.Some? ==> |r.value| == |Selected(exams, student, limit, byId)|
    ensures r.Some? ==> forall i | 0 <= i < |r.value| :: r.value[i] == ResultOf(Selected(exams, student, limit, byId)[i], student, le)
    ensures r.Some? && DistinctExams(exams) && (forall e | e in exams :: OneScorePerCell(e.scores)) ==>
              IsAnswer(exams, student, limit, byId, r.value)
  {
    hide IsAnswer, OneScorePerCell, DistinctExams, ResultOf, Sort, Matching, Take, Reverse, Ascending, Descending;
    if actor.identityType.Student? {
      if actor.personId != student { return None; }
    } else if actor.identityType.Parent? {
      if (actor.personId, student) !in relations { return None; }
    } else {
      return None;
    }
    var boundedLimit := BoundedLimit(limit);
    var found := Matching(exams, student);
    var rows := if boundedLimit.Some? then Take(Sort(found, Descending(byId)), boundedLimit.value) else Sort(found, Ascending(byId));
    var results := ResultsOf(rows, student, le);
    if boundedLimit.Some? { results := Reverse(results); }
    if DistinctExams(exams) && forall e | e in exams :: OneScorePerCell(e.scores) {
      AnswerIs(exams, student, limit, byId, le, results);
    }
    return Some(results);
  }
}
