/**
 The widget batch endpoint: many items, one answer per item, upstream results
 fetched once and shared.  A fetch is memoised as a promise, so a rejection is
 shared as well.
 */
module WidgetBatch {
  import opened Prelude
  import opened WidgetContext
  import Ranking
  import Results
  import opened Text

  datatype PersonType = Staff | Teacher | Student | Parent

  datatype Json = JsonText(text: string) | JsonOther

  /** The params member: absent, an object, or something else (null, an array, a scalar). */
  datatype Params = NoParams | Object(members: map<string, Json>) | NotAnObject

  datatype Item = Item(widgetKey: string, dataEndpointKey: string, queryPresetKey: Option<string>, params: Params)

  datatype Viewer = Viewer(kind: PersonType, authorization: Authorization)

  datatype Person = Person(id: string, name: string)

  datatype Child = Child(id: string, eduplusId: string, name: string)

  datatype TeacherRow = TeacherRow(studentName: string, subject: string, score: Option<int>, rank: Option<nat>)

  /** What the results service would answer, fixed for the length of the batch; Err is a rejection. */
  datatype Snapshot = Snapshot(
    student: (string, nat) -> Result<seq<Results.ExamResult>, ()>,
    teacher: Result<seq<TeacherRow>, ()>,
    children: Result<seq<Child>, ()>)

  datatype TrendItem = TrendItem(examId: string, title: string, examDate: int, total: int, average: real, classRank: Option<nat>)

  datatype Payload =
    | Summary(title: Option<string>, total: Option<int>, average: Option<real>, classRank: Option<nat>)
    | Table(rows: seq<TeacherRow>)
    | Trend(items: seq<TrendItem>)

  datatype FailureCode =
    | IdentityNotSynced | WidgetNotAuthorized | InvalidWidgetParams | RoleNotApplicable | ChildNotAuthorized | WidgetDataUnavailable

  type WidgetResult = Result<Payload, FailureCode>

  const LATEST_SUMMARY := "exam-latest-summary"
  const SCORE_TABLE := "exam-score-table"
  const SCORE_TREND := "exam-score-trend"

  // ---- checks ----

  predicate WellFormed(item: Item) {
    item.widgetKey != "" && item.dataEndpointKey != ""
  }

  predicate DistinctKeys(items: seq<Item>) {
    forall i, j | 0 <= i < j < |items| :: items[i].widgetKey != items[j].widgetKey
  }

  /** A request id that is no text is None. */
  predicate ValidRequest(requestId: Option<string>, items: seq<Item>) {
    && requestId.Some? && !Blank(requestId.value) && |requestId.value| <= 512
    && 1 <= |items| <= 20 && (forall i | 0 <= i < |items| :: WellFormed(items[i])) && DistinctKeys(items)
  }

  method ValidateBatch(requestId: Option<string>, items: seq<Item>) returns (valid: bool)
    ensures valid <==> ValidRequest(requestId, items)
  {
    if requestId.None? { return false; }
    TrimEmptyIff(requestId.value);
    if Trim(requestId.value) == "" || |requestId.value| > 512 { return false; }
    if |items| == 0 || |items| > 20 { return false; }
    var keys: set<string> := {};
    for k := 0 to |items|
      invariant forall i | 0 <= i < k :: WellFormed(items[i]) && items[i].widgetKey in keys
      invariant forall key | key in keys :: exists i :: 0 <= i < k && items[i].widgetKey == key
      invariant forall i, j | 0 <= i < j < k :: items[i].widgetKey != items[j].widgetKey
    {
      var item := items[k];
      if item.widgetKey == "" || item.dataEndpointKey == "" || item.widgetKey in keys { return false; }
      keys := keys + {item.widgetKey};
    }
    return true;
  }

  predicate Authorized(item: Item, viewer: Viewer) {
    && item.widgetKey in {LATEST_SUMMARY, SCORE_TABLE, SCORE_TREND}
    && item.dataEndpointKey == item.widgetKey
    && item.widgetKey in viewer.authorization.widgetKeys
    && item.dataEndpointKey in viewer.authorization.dataEndpointKeys
    && exists i | 0 <= i < |viewer.authorization.endpointPairs| ::
         var pair := viewer.authorization.endpointPairs[i];
         && pair.widgetKey == item.widgetKey
         && pair.dataEndpointKey == item.dataEndpointKey
         && pair.queryPresetKey.GetOr("") == item.queryPresetKey.GetOr("")
  }

  predicate ParamsAccepted(params: Params, kind: PersonType) {
    match params
    case NoParams => true
    case NotAnObject => false
    case Object(members) =>
      && members.Keys <= (if kind.Parent? then {"student_id"} else {})
      && ("student_id" in members ==>
            members["student_id"].JsonText? && !Blank(members["student_id"].text) && |members["student_id"].text| <= 200)
  }

  // ---- one item, without any memo ----

  function FindChild(available: seq<Child>, requested: string): Option<Child> {
    if available == [] then None
    else if available[0].eduplusId == requested then Some(available[0])
    else FindChild(available[1..], requested)
  }

  function ChosenChild(available: seq<Child>, params: Params): Option<Child> {
    if params.Object? && "student_id" in params.members && params.members["student_id"].JsonText? && params.members["student_id"].text != ""
    then FindChild(available, params.members["student_id"].text)
    else if available == [] then None else Some(available[0])
  }

  function LimitFor(widgetKey: string): nat {
    if widgetKey == SCORE_TREND then 12 else 1
  }

  function StudentPayload(widgetKey: string, exams: seq<Results.ExamResult>, studentName: string): Payload {
    if widgetKey == LATEST_SUMMARY then
      if exams == [] then Summary(None, None, None, None)
      else
        var latest := exams[|exams| - 1];
        Summary(Some(latest.title), Some(latest.total), Some(latest.average), latest.classRank)
    else if widgetKey == SCORE_TABLE then
      if exams == [] then Table([])
      else
        var subjects := exams[|exams| - 1].subjects;
        Table(seq(|subjects|, i requires 0 <= i < |subjects| =>
          TeacherRow(studentName, subjects[i].name, subjects[i].score, subjects[i].rank)))
    else
      Trend(seq(|exams|, i requires 0 <= i < |exams| =>
        TrendItem(exams[i].examId, exams[i].title, exams[i].examDate, exams[i].total, exams[i].average, exams[i].classRank)))
  }

  function ForStudent(item: Item, who: Person, snapshot: Snapshot): WidgetResult {
    match snapshot.student(who.id, LimitFor(item.widgetKey))
    case Err(_) => Err(WidgetDataUnavailable)
    case Ok(exams) => Ok(StudentPayload(item.widgetKey, exams, who.name))
  }

  /** The student an item is about, once it has passed its checks. */
  function Subject(item: Item, viewer: Viewer, person: Person, snapshot: Snapshot): Result<Person, FailureCode>
    requires viewer.kind.Student? || viewer.kind.Parent?
  {
    if viewer.kind.Student? then Ok(person)
    else match snapshot.children
         case Err(_) => Err(WidgetDataUnavailable)
         case Ok(available) =>
           match ChosenChild(available, item.params)
           case None => Err(ChildNotAuthorized)
           case Some(child) => Ok(Person(child.id, child.name))
  }

  function Evaluate(item: Item, viewer: Viewer, person: Option<Person>, snapshot: Snapshot): WidgetResult {
    if person.None? then Err(IdentityNotSynced)
    else if !Authorized(item, viewer) then Err(WidgetNotAuthorized)
    else if !ParamsAccepted(item.params, viewer.kind) then Err(InvalidWidgetParams)
    else if viewer.kind.Teacher? || viewer.kind.Staff? then
      if item.widgetKey != SCORE_TABLE then Err(RoleNotApplicable)
      else if snapshot.teacher.Err? then Err(WidgetDataUnavailable)
      else Ok(Table(snapshot.teacher.value))
    else
      match Subject(item, viewer, person.value, snapshot)
      case Err(e) => Err(e)
      case Ok(who) => ForStudent(item, who, snapshot)
  }

  function AnswersUpTo(items: seq<Item>, k: nat, viewer: Viewer, person: Option<Person>, snapshot: Snapshot): map<string, WidgetResult>
    requires k <= |items| && DistinctKeys(items)
  {
    map i | 0 <= i < k :: items[i].widgetKey := Evaluate(items[i], viewer, person, snapshot)
  }

  /** The answers, without memo. */
  function Answers(items: seq<Item>, viewer: Viewer, person: Option<Person>, snapshot: Snapshot): map<string, WidgetResult>
    requires DistinctKeys(items)
  {
    AnswersUpTo(items, |items|, viewer, person, snapshot)
  }

  // ---- the memo ----

  /** The memo key: the student id and the limit, joined by NUL. */
  function ResultKey(studentId: string, limit: nat): string
    requires limit == 1 || limit == 12
  {
    studentId + "\0" + if limit == 12 then "12" else "1"
  }

  lemma ResultKeyIsInjective(a: string, m: nat, b: string, n: nat)
    requires (m == 1 || m == 12) && (n == 1 || n == 12)
    ensures ResultKey(a, m) == ResultKey(b, n) <==> a == b && m == n
  {
    if ResultKey(a, m) == ResultKey(b, n) {
      var x, y := ResultKey(a, m), ResultKey(b, n);
      assert x[|x| - 1] == y[|y| - 1];
      assert m == n;
      assert x[..|a|] == a && y[..|b|] == b;
    }
  }

  type StudentMemo = map<string, Result<seq<Results.ExamResult>, ()>>

  ghost predicate MemoOk(memo: StudentMemo, calls: seq<(string, nat)>, snapshot: Snapshot) {
    && (forall i | 0 <= i < |calls| :: calls[i].1 == 1 || calls[i].1 == 12)
    && (forall i, j | 0 <= i < j < |calls| :: calls[i] != calls[j])
    && (forall i | 0 <= i < |calls| ::
          ResultKey(calls[i].0, calls[i].1) in memo && memo[ResultKey(calls[i].0, calls[i].1)] == snapshot.student(calls[i].0, calls[i].1))
    && (forall s, l | (l == 1 || l == 12) && ResultKey(s, l) in memo :: (s, l) in calls)
  }

  lemma MemoHit(memo: StudentMemo, calls: seq<(string, nat)>, snapshot: Snapshot, id: string, limit: nat)
    requires MemoOk(memo, calls, snapshot) && (limit == 1 || limit == 12) && ResultKey(id, limit) in memo
    ensures memo[ResultKey(id, limit)] == snapshot.student(id, limit)
  {
    var i :| 0 <= i < |calls| && calls[i] == (id, limit);
  }

  lemma MemoMiss(memo: StudentMemo, calls: seq<(string, nat)>, snapshot: Snapshot, id: string, limit: nat)
    requires MemoOk(memo, calls, snapshot) && (limit == 1 || limit == 12) && ResultKey(id, limit) !in memo
    ensures MemoOk(memo[ResultKey(id, limit) := snapshot.student(id, limit)], calls + [(id, limit)], snapshot)
  {
    var memo' := memo[ResultKey(id, limit) := snapshot.student(id, limit)];
    var calls' := calls + [(id, limit)];
    forall i | 0 <= i < |calls'|
      ensures ResultKey(calls'[i].0, calls'[i].1) in memo'
           && memo'[ResultKey(calls'[i].0, calls'[i].1)] == snapshot.student(calls'[i].0, calls'[i].1)
    {
      if i < |calls| { ResultKeyIsInjective(calls[i].0, calls[i].1, id, limit); }
    }
    forall s, l | (l == 1 || l == 12) && ResultKey(s, l) in memo' ensures (s, l) in calls' {
      ResultKeyIsInjective(s, l, id, limit);
      assert calls'[|calls|] == (id, limit);
    }
  }

  datatype Log = Log(student: seq<(string, nat)>, teacher: nat, children: nat)

  /** The memo variables of one batch run, and the calls it has made so far. */
  class BatchRun {
    const viewer: Viewer
    const person: Person
    const snapshot: Snapshot
    var studentResults: StudentMemo
    var teacherResults: Option<Result<seq<TeacherRow>, ()>>
    var children: Option<Result<seq<Child>, ()>>
    var log: Log

    constructor (viewer: Viewer, person: Person, snapshot: Snapshot)
      ensures Valid() && this.viewer == viewer && this.person == person && this.snapshot == snapshot
      ensures log == Log([], 0, 0)
    {
      this.viewer, this.person, this.snapshot := viewer, person, snapshot;
      studentResults, teacherResults, children := map[], None, None;
      log := Log([], 0, 0);
    }

    /** Memo and log agree with the snapshot: nothing was asked twice. */
    ghost predicate Valid()
      reads this
    {
      && MemoOk(studentResults, log.student, snapshot)
      && (teacherResults == if log.teacher == 0 then None else Some(snapshot.teacher)) && log.teacher <= 1
      && (children == if log.children == 0 then None else Some(snapshot.children)) && log.children <= 1
    }

    method StudentResults(studentId: string, limit: nat) returns (r: Result<seq<Results.ExamResult>, ()>)
      requires Valid() && (limit == 1 || limit == 12)
      modifies this
      ensures Valid() && r == snapshot.student(studentId, limit)
    {
      hide MemoOk;
      var resultKey := ResultKey(studentId, limit);
      if resultKey !in studentResults {
        MemoMiss(studentResults, log.student, snapshot, studentId, limit);
        studentResults := studentResults[resultKey := snapshot.student(studentId, limit)];
        log := log.(student := log.student + [(studentId, limit)]);
      }
      MemoHit(studentResults, log.student, snapshot, studentId, limit);
      r := studentResults[resultKey];
    }

    method TeacherResults() returns (r: Result<seq<TeacherRow>, ()>)
      requires Valid()
      modifies this
      ensures Valid() && r == snapshot.teacher
    {
      if teacherResults.None? {
        teacherResults := Some(snapshot.teacher);
        log := log.(teacher := log.teacher + 1);
      }
      r := teacherResults.value;
    }

    method Children() returns (r: Result<seq<Child>, ()>)
      requires Valid()
      modifies this
      ensures Valid() && r == snapshot.children
    {
      if children.None? {
        children := Some(snapshot.children);
        log := log.(children := log.children + 1);
      }
      r := children.value;
    }

    method EvaluateItem(item: Item) returns (r: WidgetResult)
      requires Valid()
      modifies this
      ensures Valid() && r == Evaluate(item, viewer, Some(person), snapshot)
    {
      hide MemoOk, Authorized, ParamsAccepted, StudentPayload, ChosenChild;
      if !Authorized(item, viewer) { return Err(WidgetNotAuthorized); }
      if !ParamsAccepted(item.params, viewer.kind) { return Err(InvalidWidgetParams); }
      if viewer.kind.Teacher? || viewer.kind.Staff? {
        if item.widgetKey != SCORE_TABLE { return Err(RoleNotApplicable); }
        var rows := TeacherResults();
        if rows.Err? { return Err(WidgetDataUnavailable); }
        return Ok(Table(rows.value));
      }
      var studentId, studentName := person.id, person.name;
      if viewer.kind.Parent? {
        var available := Children();
        if available.Err? { return Err(WidgetDataUnavailable); }
        var child := ChosenChild(available.value, item.params);
        if child.None? { return Err(ChildNotAuthorized); }
        studentId, studentName := child.value.id, child.value.name;
      }
      var selected := StudentResults(studentId, LimitFor(item.widgetKey));
      if selected.Err? { return Err(WidgetDataUnavailable); }
      return Ok(StudentPayload(item.widgetKey, selected.value, studentName));
    }
  }

  lemma LogIsDistinct(memo: StudentMemo, calls: seq<(string, nat)>, snapshot: Snapshot)
    requires MemoOk(memo, calls, snapshot)
    ensures forall i, j | 0 <= i < j < |calls| :: calls[i] != calls[j]
  {
  }

  // ---- the request around the items ----

  /** A verified access token: the tenant, the EduPlus user, and what the widget may show. */
  datatype Verified = Verified(tenantId: string, identityId: string, viewer: Viewer)

  datatype PersonRow = PersonRow(tenantId: string, eduplusUserId: Option<string>, kind: PersonType, active: bool, id: string, name: string)

  datatype Refusal = BadRequest | Unauthorized

  /** The scheme in any case, one space, and a token without white space. */
  predicate IsBearer(header: string, token: string) {
    token != "" && |header| == |token| + 7 && Lower(header[..6]) == "bearer" && header[6] == ' ' && header[7..] == token
    && forall i | 0 <= i < |token| :: !IsSpace(token[i])
  }

  function BearerToken(header: Option<string>): (r: Option<string>)
    ensures r.Some? ==> header.Some? && IsBearer(header.value, r.value)
    ensures r.None? && header.Some? ==> forall token: string :: !IsBearer(header.value, token)
  {
    if header.Some? && |header.value| > 7 && IsBearer(header.value, header.value[7..]) then Some(header.value[7..]) else None
  }

  predicate IsSelf(p: PersonRow, who: Verified) {
    p.tenantId == who.tenantId && p.eduplusUserId == Some(who.identityId) && p.kind == who.viewer.kind && p.active
  }

  /** The query stops at two rows. */
  function FirstTwo(people: seq<PersonRow>, who: Verified, limit: nat): seq<PersonRow> {
    if people == [] || limit == 0 then []
    else if IsSelf(people[0], who) then [people[0]] + FirstTwo(people[1..], who, limit - 1)
    else FirstTwo(people[1..], who, limit)
  }

  function FindPerson(people: seq<PersonRow>, who: Verified): Option<Person> {
    var rows := FirstTwo(people, who, 2);
    if |rows| == 1 then Some(Person(rows[0].id, rows[0].name)) else None
  }

  predicate OnlyMatch(people: seq<PersonRow>, who: Verified, i: nat) {
    i < |people| && IsSelf(people[i], who) && forall j | 0 <= j < |people| && j != i :: !IsSelf(people[j], who)
  }

  lemma {:induction false} FirstTwoNone(people: seq<PersonRow>, who: Verified, limit: nat)
    requires limit > 0
    ensures FirstTwo(people, who, limit) == [] <==> forall i | 0 <= i < |people| :: !IsSelf(people[i], who)
  {
    hide IsSelf;
    if people != [] && !IsSelf(people[0], who) {
      FirstTwoNone(people[1..], who, limit);
      assert forall i | 0 < i < |people| :: people[i] == people[1..][i - 1];
    }
  }

  /** A person is found exactly when one active row of the tenant has the identity's user and type, and only one. */
  lemma {:induction false} FoundIffUnique(people: seq<PersonRow>, who: Verified)
    ensures FindPerson(people, who).Some? <==> exists i: nat :: OnlyMatch(people, who, i)
    ensures forall i: nat | OnlyMatch(people, who, i) :: FindPerson(people, who) == Some(Person(people[i].id, people[i].name))
  {
    hide IsSelf;
    if people != [] {
      var rest := people[1..];
      assert forall i | 0 < i < |people| :: people[i] == rest[i - 1];
      FoundIffUnique(rest, who);
      if IsSelf(people[0], who) {
        FirstTwoNone(rest, who, 1);
        assert FirstTwo(rest, who, 1) == [] ==> OnlyMatch(people, who, 0);
      } else {
        forall i: nat ensures OnlyMatch(rest, who, i) <==> OnlyMatch(people, who, i + 1) {}
        forall i: nat | OnlyMatch(people, who, i) ensures i > 0 && OnlyMatch(rest, who, i - 1) {}
      }
    }
  }

  /** The request as a whole is refused before any item is looked at, or answered item by item. */
  method Batch(requestId: Option<string>, items: seq<Item>, authorization: Option<string>, verify: string -> Option<Verified>,
               people: seq<PersonRow>, snapshot: Snapshot)
    returns (output: Result<map<string, WidgetResult>, Refusal>, log: Log)
    ensures output == Err(BadRequest) <==> !ValidRequest(requestId, items)
    ensures
      var token := BearerToken(authorization);
      ValidRequest(requestId, items) ==>
        if token.None? || verify(token.value).None? then output == Err(Unauthorized)
        else
          var who := verify(token.value).value;
          output == Ok(Answers(items, who.viewer, FindPerson(people, who), snapshot))
    ensures forall i, j | 0 <= i < j < |log.student| :: log.student[i] != log.student[j]
    ensures log.teacher <= 1 && log.children <= 1
    ensures output.Err? ==> log == Log([], 0, 0)
  {
    hide FirstTwo, FindPerson, BearerToken, Answers;
    log := Log([], 0, 0);
    var valid := ValidateBatch(requestId, items);
    if !valid { return Err(BadRequest), log; }
    var token := BearerToken(authorization);
    if token.None? { return Err(Unauthorized), log; }
    var verified := verify(token.value);
    if verified.None? { return Err(Unauthorized), log; }
    var person := FindPerson(people, verified.value);
    var answers: map<string, WidgetResult>;
    if person.None? {
      answers := AnswerNobody(items, verified.value.viewer, snapshot);
    } else {
      answers, log := AnswerEach(items, verified.value.viewer, person.value, snapshot);
    }
    output := Ok(answers);
  }

  method AnswerNobody(items: seq<Item>, viewer: Viewer, snapshot: Snapshot) returns (answers: map<string, WidgetResult>)
    requires DistinctKeys(items)
    ensures answers == Answers(items, viewer, None, snapshot)
  {
    hide DistinctKeys, Authorized, ParamsAccepted;
    answers := map[];
    for k := 0 to |items|
      invariant answers == AnswersUpTo(items, k, viewer, None, snapshot)
    {
      AnswersStep(items, k, viewer, None, snapshot);
      answers := answers[items[k].widgetKey := Err(IdentityNotSynced)];
    }
  }

  method AnswerEach(items: seq<Item>, viewer: Viewer, person: Person, snapshot: Snapshot)
    returns (answers: map<string, WidgetResult>, log: Log)
    requires DistinctKeys(items)
    ensures answers == Answers(items, viewer, Some(person), snapshot)
    ensures forall i, j | 0 <= i < j < |log.student| :: log.student[i] != log.student[j]
    ensures log.teacher <= 1 && log.children <= 1
  {
    hide MemoOk, DistinctKeys, Evaluate;
    answers := map[];
    var run := new BatchRun(viewer, person, snapshot);
    for k := 0 to |items|
      invariant run.Valid() && fresh(run) && run.viewer == viewer && run.person == person && run.snapshot == snapshot
      invariant answers == AnswersUpTo(items, k, viewer, Some(person), snapshot)
    {
      AnswersStep(items, k, viewer, Some(person), snapshot);
      var r := run.EvaluateItem(items[k]);
      answers := answers[items[k].widgetKey := r];
    }
    log := run.log;
    LogIsDistinct(run.studentResults, log.student, snapshot);
  }

  lemma AnswersStep(items: seq<Item>, k: nat, viewer: Viewer, person: Option<Person>, snapshot: Snapshot)
    requires k < |items| && DistinctKeys(items)
    ensures AnswersUpTo(items, k + 1, viewer, person, snapshot)
         == AnswersUpTo(items, k, viewer, person, snapshot)[items[k].widgetKey := Evaluate(items[k], viewer, person, snapshot)]
  {
    hide Evaluate;
  }

  // ---- what the answers mean ----

  /** Every requested key is answered, each by its own item alone. */
  lemma OneAnswerPerKey(items: seq<Item>, viewer: Viewer, person: Option<Person>, snapshot: Snapshot, i: nat)
    requires DistinctKeys(items) && i < |items|
    ensures |Answers(items, viewer, person, snapshot)| == |items|
    ensures items[i].widgetKey in Answers(items, viewer, person, snapshot)
    ensures Answers(items, viewer, person, snapshot)[items[i].widgetKey] == Evaluate(items[i], viewer, person, snapshot)
  {
    hide Evaluate;
    KeysCount(items);
    assert Answers(items, viewer, person, snapshot).Keys == set k | 0 <= k < |items| :: items[k].widgetKey;
  }

  lemma AnswerHasItem(items: seq<Item>, viewer: Viewer, person: Option<Person>, snapshot: Snapshot, key: string)
    requires DistinctKeys(items) && key in Answers(items, viewer, person, snapshot)
    ensures exists i :: 0 <= i < |items| && items[i].widgetKey == key
  {
    hide Evaluate, DistinctKeys;
  }

  lemma {:induction false} KeysCount(items: seq<Item>)
    requires DistinctKeys(items)
    ensures |set k | 0 <= k < |items| :: items[k].widgetKey| == |items|
  {
    if items != [] {
      var n := |items| - 1;
      KeysCount(items[..n]);
      assert (set k | 0 <= k < |items| :: items[k].widgetKey)
          == (set k | 0 <= k < |items[..n]| :: items[..n][k].widgetKey) + {items[n].widgetKey};
    }
  }

  lemma SameAnswer(items: seq<Item>, other: seq<Item>, viewer: Viewer, person: Option<Person>, snapshot: Snapshot, key: string)
    requires DistinctKeys(items) && DistinctKeys(other) && multiset(items) == multiset(other)
    requires key in Answers(items, viewer, person, snapshot)
    ensures key in Answers(other, viewer, person, snapshot)
    ensures Answers(items, viewer, person, snapshot)[key] == Answers(other, viewer, person, snapshot)[key]
  {
    hide Evaluate, DistinctKeys, Answers;
    AnswerHasItem(items, viewer, person, snapshot, key);
    var i :| 0 <= i < |items| && items[i].widgetKey == key;
    assert items[i] in multiset(other);
    var j :| 0 <= j < |other| && other[j] == items[i];
    OneAnswerPerKey(items, viewer, person, snapshot, i);
    OneAnswerPerKey(other, viewer, person, snapshot, j);
  }

  /** The order of the items does not matter. */
  lemma OrderDoesNotMatter(items: seq<Item>, other: seq<Item>, viewer: Viewer, person: Option<Person>, snapshot: Snapshot)
    requires DistinctKeys(items) && DistinctKeys(other) && multiset(items) == multiset(other)
    ensures Answers(items, viewer, person, snapshot) == Answers(other, viewer, person, snapshot)
  {
    hide Evaluate, DistinctKeys, Answers;
    var a, b := Answers(items, viewer, person, snapshot), Answers(other, viewer, person, snapshot);
    forall key | key in a ensures key in b && a[key] == b[key] { SameAnswer(items, other, viewer, person, snapshot, key); }
    forall key | key in b ensures key in a { SameAnswer(other, items, viewer, person, snapshot, key); }
  }

  /** The snapshots agree on everything this viewer may see. */
  ghost predicate AgreeFor(viewer: Viewer, person: Person, s: Snapshot, t: Snapshot) {
    match viewer.kind
    case Student => forall l :: s.student(person.id, l) == t.student(person.id, l)
    case Parent =>
      s.children == t.children
      && (s.children.Ok? ==>
            forall i, l | 0 <= i < |s.children.value| :: s.student(s.children.value[i].id, l) == t.student(s.children.value[i].id, l))
    case _ => s.teacher == t.teacher
  }

  lemma {:induction false} FindChildIsListed(available: seq<Child>, requested: string)
    ensures FindChild(available, requested).Some? ==> FindChild(available, requested).value in available
  {
    if available != [] { FindChildIsListed(available[1..], requested); }
  }

  /** No answer depends on the results of a student the viewer is not entitled to. */
  lemma OnlyEntitledData(item: Item, viewer: Viewer, person: Person, s: Snapshot, t: Snapshot)
    requires AgreeFor(viewer, person, s, t)
    ensures Evaluate(item, viewer, Some(person), s) == Evaluate(item, viewer, Some(person), t)
  {
    hide Authorized, ParamsAccepted, StudentPayload;
    if viewer.kind.Parent? && s.children.Ok? {
      var available := s.children.value;
      var child := ChosenChild(available, item.params);
      if child.Some? {
        if item.params.Object? && "student_id" in item.params.members && item.params.members["student_id"].JsonText? {
          FindChildIsListed(available, item.params.members["student_id"].text);
        }
        var i :| 0 <= i < |available| && available[i] == child.value;
        assert s.student(available[i].id, LimitFor(item.widgetKey)) == t.student(available[i].id, LimitFor(item.widgetKey));
      }
    }
  }

  /** What forStudent answers for a student and limit. */
  ghost predicate AnswersFor(exams: seq<Results.Exam>, id: string, limit: int, byId: Results.IdOrder, le: Ranking.Collation,
                             found: seq<Results.ExamResult>)
  {
    var selected := Results.Selected(exams, id, Some(limit), byId);
    |found| == |selected| && forall i | 0 <= i < |found| :: found[i] == Results.ResultOf(selected[i], id, le)
  }

  /**
   The three widgets of one student agree: the summary and the table are about
   the exam at the end of the trend, which is the latest one there is, with the
   total, average and ranks of that exam.
   */
  lemma WidgetsShowTheSameExam(exams: seq<Results.Exam>, who: Person, byId: Results.IdOrder, le: Ranking.Collation,
                               one: seq<Results.ExamResult>, twelve: seq<Results.ExamResult>)
    requires Results.DistinctExams(exams)
    requires AnswersFor(exams, who.id, 1, byId, le, one) && AnswersFor(exams, who.id, 12, byId, le, twelve)
    ensures
      var all := Results.Selected(exams, who.id, None, byId);
      var summary, table, trend := StudentPayload(LATEST_SUMMARY, one, who.name), StudentPayload(SCORE_TABLE, one, who.name),
                                   StudentPayload(SCORE_TREND, twelve, who.name);
      if all == [] then summary == Summary(None, None, None, None) && table == Table([]) && trend == Trend([])
      else
        var latest := Results.ResultOf(all[|all| - 1], who.id, le);
        && summary == Summary(Some(latest.title), Some(latest.total), Some(latest.average), latest.classRank)
        && trend.Trend? && |trend.items| == |twelve| > 0
        && trend.items[|twelve| - 1] == TrendItem(latest.examId, latest.title, latest.examDate, latest.total, latest.average, latest.classRank)
        && table.Table? && |table.rows| == |latest.subjects|
        && forall i | 0 <= i < |table.rows| ::
             table.rows[i] == TeacherRow(who.name, latest.subjects[i].name, latest.subjects[i].score, latest.subjects[i].rank)
  {
    hide Results.Selected, Results.ResultOf, Results.DistinctExams;
    Results.LatestIsTheSame(exams, who.id, 1, 12, byId);
  }
}
