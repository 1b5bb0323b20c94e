/** One widget of a batch in plain terms: when it is refused and as what, whose results it shows, and how. */
module WidgetItems {
  import opened Prelude
  import opened Text
  import opened WidgetBatch
  import Results

  /** No preset and an empty preset are the same request. */
  function PresetText(preset: Option<string>): string {
    match preset case None => "" case Some(t) => t
  }

  /** The token lists the widget, its endpoint of the same name, and the pair with this preset. */
  predicate Granted(item: Item, viewer: Viewer) {
    && (item.widgetKey == "exam-latest-summary" || item.widgetKey == "exam-score-table" || item.widgetKey == "exam-score-trend")
    && item.dataEndpointKey == item.widgetKey
    && (exists i :: 0 <= i < |viewer.authorization.widgetKeys| && viewer.authorization.widgetKeys[i] == item.widgetKey)
    && (exists i :: 0 <= i < |viewer.authorization.dataEndpointKeys| && viewer.authorization.dataEndpointKeys[i] == item.widgetKey)
    && exists i :: 0 <= i < |viewer.authorization.endpointPairs|
                   && viewer.authorization.endpointPairs[i].widgetKey == item.widgetKey
                   && viewer.authorization.endpointPairs[i].dataEndpointKey == item.widgetKey
                   && PresetText(viewer.authorization.endpointPairs[i].queryPresetKey) == PresetText(item.queryPresetKey)
  }

  /** No parameters at all, or an object whose only member is, for a parent, a student id of 1 to 200 characters that is not blank. */
  predicate Clean(params: Params, kind: PersonType) {
    || params == NoParams
    || (params.Object?
        && forall name | name in params.members ::
             && name == "student_id" && kind == Parent && params.members[name].JsonText?
             && |params.members[name].text| <= 200 && !Blank(params.members[name].text))
  }

  /** A well-formed request, written out. */
  lemma RequestIs(requestId: Option<string>, items: seq<Item>)
    ensures ValidRequest(requestId, items)
       <==> && requestId.Some? && Trim(requestId.value) != "" && |requestId.value| <= 512
            && 1 <= |items| && |items| <= 20
            && (forall i | 0 <= i < |items| :: items[i].widgetKey != "" && items[i].dataEndpointKey != "")
            && forall i, j | 0 <= i < |items| && 0 <= j < |items| && i != j :: items[i].widgetKey != items[j].widgetKey
  {
    hide Trim, Blank;
    if requestId.Some? { TrimEmptyIff(requestId.value); }
    if DistinctKeys(items) {
      forall i, j | 0 <= i < |items| && 0 <= j < |items| && i != j ensures items[i].widgetKey != items[j].widgetKey {
        assert if i < j then items[i].widgetKey != items[j].widgetKey else items[j].widgetKey != items[i].widgetKey;
      }
    }
    assert (forall i | 0 <= i < |items| :: WellFormed(items[i]))
      <==> (forall i | 0 <= i < |items| :: items[i].widgetKey != "" && items[i].dataEndpointKey != "");
  }

  /** A token is read exactly from a header that is the scheme, in any case, a space and the token, without white space in it. */
  lemma HeaderIs(header: string, token: string)
    ensures BearerToken(Some(header)) == Some(token)
       <==> token != "" && (forall c | c in token :: !IsSpace(c)) && exists scheme :: Lower(scheme) == "bearer" && header == scheme + " " + token
  {
    hide IsSpace;
    if |header| >= 7 && header[6] == ' ' && Lower(header[..6]) == "bearer" {
      assert header == header[..6] + " " + header[7..];
    }
    if scheme :| Lower(scheme) == "bearer" && header == scheme + " " + token {
      assert |scheme| == 6 && header[..6] == scheme && header[7..] == token;
    }
  }

  /** Whose data is shown: that of the one active row of the token's tenant with its identity and type; nobody's if there is no such row or more than one. */
  lemma PersonIs(people: seq<PersonRow>, who: Verified, i: nat)
    requires i < |people|
    requires people[i].tenantId == who.tenantId && people[i].eduplusUserId == Some(who.identityId)
    requires people[i].kind == who.viewer.kind && people[i].active
    ensures
      if forall j | 0 <= j < |people| && j != i ::
           people[j].tenantId != who.tenantId || people[j].eduplusUserId != Some(who.identityId)
           || people[j].kind != who.viewer.kind || !people[j].active
      then FindPerson(people, who) == Some(Person(people[i].id, people[i].name))
      else FindPerson(people, who).None?
  {
    hide FindPerson;
    FoundIffUnique(people, who);
    assert IsSelf(people[i], who);
    if forall j | 0 <= j < |people| && j != i :: !IsSelf(people[j], who) {
      assert OnlyMatch(people, who, i);
    } else {
      var j :| 0 <= j < |people| && j != i && IsSelf(people[j], who);
      assert forall k: nat :: !OnlyMatch(people, who, k);
    }
  }

  lemma NobodyIsFound(people: seq<PersonRow>, who: Verified)
    requires forall i | 0 <= i < |people| ::
               people[i].tenantId != who.tenantId || people[i].eduplusUserId != Some(who.identityId)
               || people[i].kind != who.viewer.kind || !people[i].active
    ensures FindPerson(people, who).None?
  {
    hide FindPerson;
    FoundIffUnique(people, who);
  }

  lemma ChecksAre(item: Item, viewer: Viewer)
    ensures Authorized(item, viewer) <==> Granted(item, viewer)
    ensures ParamsAccepted(item.params, viewer.kind) <==> Clean(item.params, viewer.kind)
  {
    GrantIs(item, viewer);
    ParamsAre(item.params, viewer.kind);
    hide Authorized, Granted, ParamsAccepted, Clean;
  }

  lemma GrantIs(item: Item, viewer: Viewer)
    ensures Authorized(item, viewer) <==> Granted(item, viewer)
  {
  }

  lemma ParamsAre(params: Params, kind: PersonType)
    ensures ParamsAccepted(params, kind) <==> Clean(params, kind)
  {
    hide Blank;
  }

  predicate Asked(params: Params, id: string) {
    params.Object? && "student_id" in params.members && params.members["student_id"] == JsonText(id) && id != ""
  }

  /** The child meant: the first one with the id asked for, or the first one of all when none is asked for. */
  ghost predicate Meant(available: seq<Child>, params: Params, i: nat) {
    && i < |available|
    && (forall id: string | Asked(params, id) :: available[i].eduplusId == id && forall j | 0 <= j < i :: available[j].eduplusId != id)
    && ((forall id: string :: !Asked(params, id)) ==> i == 0)
  }

  lemma {:induction false} FirstChildIs(available: seq<Child>, id: string)
    ensures FindChild(available, id).None? <==> forall i | 0 <= i < |available| :: available[i].eduplusId != id
    ensures FindChild(available, id).Some? ==>
              exists i :: 0 <= i < |available| && FindChild(available, id) == Some(available[i]) && available[i].eduplusId == id
                          && forall j | 0 <= j < i :: available[j].eduplusId != id
  {
    if available != [] && available[0].eduplusId != id {
      FirstChildIs(available[1..], id);
      assert forall i | 0 < i < |available| :: available[i] == available[1..][i - 1];
      if FindChild(available, id).Some? {
        var i :| 0 <= i < |available[1..]| && FindChild(available[1..], id) == Some(available[1..][i]) && available[1..][i].eduplusId == id
                 && forall j | 0 <= j < i :: available[1..][j].eduplusId != id;
        assert available[i + 1].eduplusId == id;
      }
    }
  }

  lemma ChildIs(available: seq<Child>, params: Params)
    ensures ChosenChild(available, params).None? <==> forall i: nat :: !Meant(available, params, i)
    ensures forall i: nat | Meant(available, params, i) :: ChosenChild(available, params) == Some(available[i])
  {
    hide FindChild;
    if id: string :| Asked(params, id) {
      FirstChildIs(available, id);
      if FindChild(available, id).Some? {
        var i :| 0 <= i < |available| && FindChild(available, id) == Some(available[i]) && available[i].eduplusId == id
                 && forall j | 0 <= j < i :: available[j].eduplusId != id;
        assert Meant(available, params, i);
        forall k: nat | Meant(available, params, k) ensures k == i { assert Asked(params, id); }
      } else {
        forall i: nat ensures !Meant(available, params, i) { assert Asked(params, id); }
      }
    } else {
      assert forall id: string :: !Asked(params, id);
      NobodyAsked(params);
      if available != [] { assert Meant(available, params, 0); }
    }
  }

  lemma NobodyAsked(params: Params)
    requires forall id: string :: !Asked(params, id)
    ensures !(params.Object? && "student_id" in params.members && params.members["student_id"].JsonText? && params.members["student_id"].text != "")
  {
    if params.Object? && "student_id" in params.members && params.members["student_id"].JsonText? {
      assert Asked(params, params.members["student_id"].text) <==> params.members["student_id"].text != "";
    }
  }

  /** The item passes its own checks. */
  predicate Passes(item: Item, viewer: Viewer, person: Option<Person>) {
    person.Some? && Granted(item, viewer) && Clean(item.params, viewer.kind)
  }

  predicate Teaches(viewer: Viewer) {
    viewer.kind == Teacher || viewer.kind == Staff
  }

  /** The refusals, each with its only cause. */
  lemma RefusalIs(item: Item, viewer: Viewer, person: Option<Person>, snapshot: Snapshot)
    ensures
      var r := Evaluate(item, viewer, person, snapshot);
      && (r == Err(IdentityNotSynced) <==> person.None?)
      && (r == Err(WidgetNotAuthorized) <==> person.Some? && !Granted(item, viewer))
      && (r == Err(InvalidWidgetParams) <==> person.Some? && Granted(item, viewer) && !Clean(item.params, viewer.kind))
      && (r == Err(RoleNotApplicable) <==> Passes(item, viewer, person) && Teaches(viewer) && item.widgetKey != "exam-score-table")
      && (r == Err(ChildNotAuthorized) <==>
            && Passes(item, viewer, person) && viewer.kind == Parent && snapshot.children.Ok?
            && forall i: nat :: !Meant(snapshot.children.value, item.params, i))
  {
    hide Authorized, Granted, ParamsAccepted, Clean, ChosenChild, Meant, StudentPayload;
    ChecksAre(item, viewer);
    if snapshot.children.Ok? { ChildIs(snapshot.children.value, item.params); }
  }

  /** Teachers and staff are shown the rows of the teacher's view, and nothing but the table. */
  lemma TeacherTableIs(item: Item, viewer: Viewer, person: Person, snapshot: Snapshot)
    requires Passes(item, viewer, Some(person)) && Teaches(viewer) && item.widgetKey == "exam-score-table"
    ensures Evaluate(item, viewer, Some(person), snapshot)
         == if snapshot.teacher.Ok? then Ok(Table(snapshot.teacher.value)) else Err(WidgetDataUnavailable)
  {
    hide Authorized, Granted, ParamsAccepted, Clean;
    ChecksAre(item, viewer);
  }

  /** What is shown of a student's results: of the last exam alone, or of up to twelve exams. */
  predicate Shows(payload: Payload, widgetKey: string, exams: seq<Results.ExamResult>, name: string) {
    if widgetKey == "exam-latest-summary" then
      && payload.Summary?
      && (exams == [] ==> payload.title.None? && payload.total.None? && payload.average.None? && payload.classRank.None?)
      && (exams != [] ==>
            && payload.title == Some(exams[|exams| - 1].title) && payload.total == Some(exams[|exams| - 1].total)
            && payload.average == Some(exams[|exams| - 1].average) && payload.classRank == exams[|exams| - 1].classRank)
    else if widgetKey == "exam-score-table" then
      && payload.Table?
      && |payload.rows| == (if exams == [] then 0 else |exams[|exams| - 1].subjects|)
      && forall i | 0 <= i < |payload.rows| ::
           var subject := exams[|exams| - 1].subjects[i];
           && payload.rows[i].studentName == name && payload.rows[i].subject == subject.name
           && payload.rows[i].score == subject.score && payload.rows[i].rank == subject.rank
    else
      && payload.Trend? && |payload.items| == |exams|
      && forall i | 0 <= i < |exams| ::
           && payload.items[i].examId == exams[i].examId && payload.items[i].title == exams[i].title
           && payload.items[i].examDate == exams[i].examDate && payload.items[i].total == exams[i].total
           && payload.items[i].average == exams[i].average && payload.items[i].classRank == exams[i].classRank
  }

  /** A student is shown their own results: one exam is fetched, or twelve for the trend. */
  lemma StudentWidgetIs(item: Item, viewer: Viewer, person: Person, snapshot: Snapshot)
    requires Passes(item, viewer, Some(person)) && viewer.kind == Student
    ensures
      var r, fetched := Evaluate(item, viewer, Some(person), snapshot), snapshot.student(person.id, if item.widgetKey == "exam-score-trend" then 12 else 1);
      && (fetched.Err? ==> r == Err(WidgetDataUnavailable))
      && (fetched.Ok? ==> r.Ok? && Shows(r.value, item.widgetKey, fetched.value, person.name))
  {
    hide Authorized, Granted, ParamsAccepted, Clean;
    ChecksAre(item, viewer);
  }

  /** A parent is shown the results of the child meant, under the child's name. */
  lemma ParentWidgetIs(item: Item, viewer: Viewer, person: Person, snapshot: Snapshot, i: nat)
    requires Passes(item, viewer, Some(person)) && viewer.kind == Parent
    requires snapshot.children.Ok? ==> Meant(snapshot.children.value, item.params, i)
    ensures snapshot.children.Err? ==> Evaluate(item, viewer, Some(person), snapshot) == Err(WidgetDataUnavailable)
    ensures snapshot.children.Ok? ==>
              var child := snapshot.children.value[i];
              var r, fetched := Evaluate(item, viewer, Some(person), snapshot), snapshot.student(child.id, if item.widgetKey == "exam-score-trend" then 12 else 1);
              && (fetched.Err? ==> r == Err(WidgetDataUnavailable))
              && (fetched.Ok? ==> r.Ok? && Shows(r.value, item.widgetKey, fetched.value, child.name))
  {
    hide Authorized, Granted, ParamsAccepted, Clean, ChosenChild;
    ChecksAre(item, viewer);
    if snapshot.children.Ok? { ChildIs(snapshot.children.value, item.params); }
  }
}
