/** A sync record by record: which row each upstream record becomes, member by member, and which rows stay as they were. */
module DirectoryRecords {
  import opened Prelude
  import opened Text
  import opened Upserts
  import opened DirectorySync

  /** The field as a text, unless it is missing, empty or no text. */
  predicate TextIs(r: Record, name: string, text: Option<string>) {
    if name in r.fields && r.fields[name].JsonText? && |r.fields[name].text| > 0 then text == Some(r.fields[name].text) else text.None?
  }

  /** Inactive: deleted, or with one of four account states in any case. */
  predicate Inactive(r: Record) {
    || r.deleted
    || ("account_status" in r.fields && r.fields["account_status"].JsonText?
        && (Lower(r.fields["account_status"].text) == "inactive" || Lower(r.fields["account_status"].text) == "disabled"
            || Lower(r.fields["account_status"].text) == "revoked" || Lower(r.fields["account_status"].text) == "deleted"))
  }

  lemma TextFieldIs(r: Record, name: string)
    ensures TextIs(r, name, TextField(r.fields, name))
  {
  }

  lemma ActiveIs(r: Record)
    ensures IsActive(r) <==> !Inactive(r)
  {
  }

  /** The records of one kind of people. */
  function Group(u: Upstream, kind: PersonType): seq<Record> {
    match kind case Teacher => u.teachers case Student => u.students case Parent => u.parents
  }

  function KeyOf(tenant: string, kind: PersonType, id: string): Key {
    (tenant, (match kind case Teacher => "teacher:" case Student => "student:" case Parent => "parent:") + id)
  }

  /** A person's row: named by name, else user name, else the key; only a student is bound to a user. */
  ghost predicate PersonShows(d: PersonData, kind: PersonType, r: Record) {
    && d.kind == kind && (d.active <==> !Inactive(r)) && TextIs(r, "email", d.email)
    && (kind != Student ==> d.userId.None?)
    && (kind == Student ==>
          && (d.userId.Some? <==> "user_id" in r.fields && UsableId(r.fields["user_id"]))
          && (d.userId.Some? && r.fields["user_id"].JsonText? ==> d.userId.value == Trim(r.fields["user_id"].text))
          && (d.userId.Some? && r.fields["user_id"].JsonNumber? ==>
                Digits(d.userId.value) && NumeralValue(d.userId.value) == r.fields["user_id"].value))
    && exists name, user :: TextIs(r, "name", name) && TextIs(r, "username", user)
                            && d.name == if name.Some? then name.value else if user.Some? then user.value else KeyOf("", kind, r.id).1
  }

  lemma PersonIsShown(kind: PersonType, r: Record)
    ensures PersonShows(PersonOf(kind, r), kind, r)
  {
    hide IsActive, TextField, UserId, UsableId, Trim, Inactive, TextIs;
    ActiveIs(r);
    TextFieldIs(r, "email");
    TextFieldIs(r, "name");
    TextFieldIs(r, "username");
    KeyIs("", kind, r.id);
  }

  lemma KeyIs(tenant: string, kind: PersonType, id: string)
    ensures (tenant, PersonKey(kind, id)) == KeyOf(tenant, kind, id)
  {
    match kind
    case Teacher => assert "teacher" + ":" == "teacher:";
    case Student => assert "student" + ":" == "student:";
    case Parent => assert "parent" + ":" == "parent:";
  }

  lemma {:induction false} LastForAppend<K, D>(a: seq<(K, D)>, b: seq<(K, D)>, k: K)
    ensures LastFor(a + b, k) == if LastFor(b, k).Some? then LastFor(b, k) else LastFor(a, k)
  {
    if b == [] {
      assert a + b == a;
    } else {
      assert (a + b)[..|a + b| - 1] == a + b[..|b| - 1];
      LastForAppend(a, b[..|b| - 1], k);
    }
  }

  lemma {:induction false} LastForAt<K, D>(batch: seq<(K, D)>, i: nat)
    requires i < |batch| && forall j | i < j < |batch| :: batch[j].0 != batch[i].0
    ensures LastFor(batch, batch[i].0) == Some(batch[i].1)
  {
    if i < |batch| - 1 { LastForAt(batch[..|batch| - 1], i); }
  }

  lemma {:induction false} LastForNone<K, D>(batch: seq<(K, D)>, k: K)
    requires forall j | 0 <= j < |batch| :: batch[j].0 != k
    ensures LastFor(batch, k).None?
  {
    if batch != [] { LastForNone(batch[..|batch| - 1], k); }
  }

  lemma OtherKind(tenant: string, kind: PersonType, other: PersonType, id: string, records: seq<Record>)
    requires kind != other
    ensures LastFor(PeopleBatch(tenant, other, records), (tenant, PersonKey(kind, id))).None?
  {
    forall j | 0 <= j < |records| ensures PersonKey(other, records[j].id) != PersonKey(kind, id) { PersonKeyIsInjective(other, records[j].id, kind, id); }
    LastForNone(PeopleBatch(tenant, other, records), (tenant, PersonKey(kind, id)));
  }

  lemma PeopleLast(tenant: string, u: Upstream, kind: PersonType, i: nat)
    requires i < |Group(u, kind)| && forall j | i < j < |Group(u, kind)| :: Group(u, kind)[j].id != Group(u, kind)[i].id
    ensures
      var batch := PeopleBatch(tenant, Teacher, u.teachers) + PeopleBatch(tenant, Student, u.students) + PeopleBatch(tenant, Parent, u.parents);
      LastFor(batch, (tenant, PersonKey(kind, Group(u, kind)[i].id))) == Some(PersonOf(kind, Group(u, kind)[i]))
  {
    hide PersonOf, PersonKey, LastFor;
    var k := (tenant, PersonKey(kind, Group(u, kind)[i].id));
    var a, b, c := PeopleBatch(tenant, Teacher, u.teachers), PeopleBatch(tenant, Student, u.students), PeopleBatch(tenant, Parent, u.parents);
    LastForAppend(a + b, c, k);
    LastForAppend(a, b, k);
    var own := PeopleBatch(tenant, kind, Group(u, kind));
    forall j | i < j < |own| ensures own[j].0 != own[i].0 { PersonKeyIsInjective(kind, Group(u, kind)[j].id, kind, Group(u, kind)[i].id); }
    LastForAt(own, i);
    if kind != Teacher { OtherKind(tenant, kind, Teacher, Group(u, kind)[i].id, u.teachers); }
    if kind != Student { OtherKind(tenant, kind, Student, Group(u, kind)[i].id, u.students); }
    if kind != Parent { OtherKind(tenant, kind, Parent, Group(u, kind)[i].id, u.parents); }
  }

  /** After a sync each person is as the last record of their kind and id says; a known row keeps its id. */
  lemma PersonRowIs(db: Db, tenant: string, u: Upstream, ids: Ids, kind: PersonType, i: nat)
    requires i < |Group(u, kind)| && forall j | i < j < |Group(u, kind)| :: Group(u, kind)[j].id != Group(u, kind)[i].id
    ensures
      var after, k := Synced(db, tenant, u, ids).0, KeyOf(tenant, kind, Group(u, kind)[i].id);
      && k in after.people && PersonShows(after.people[k].data, kind, Group(u, kind)[i])
      && (k in db.people ==> after.people[k].id == db.people[k].id) && (k !in db.people ==> after.people[k].id == ids.person(k))
  {
    hide UpsertAll, UpsertCourses, LastFor, PersonShows, PersonOf, PersonKey;
    PeopleLast(tenant, u, kind, i);
    PersonIsShown(kind, Group(u, kind)[i]);
    KeyIs(tenant, kind, Group(u, kind)[i].id);
    var batch := PeopleBatch(tenant, Teacher, u.teachers) + PeopleBatch(tenant, Student, u.students) + PeopleBatch(tenant, Parent, u.parents);
    UpsertAllAt(db.people, batch, ids.person, (tenant, PersonKey(kind, Group(u, kind)[i].id)));
  }

  /** Classes and courses go by the external id, or else the record's own. */
  function PublicId(r: Record): string {
    match r.externalId case Some(id) => id case None => r.id
  }

  ghost predicate ClassShows(d: ClassData, r: Record) {
    && (d.active <==> !Inactive(r)) && TextIs(r, "grade_code", d.gradeName)
    && exists name :: TextIs(r, "name", name) && d.name == if name.Some? then name.value else PublicId(r)
  }

  ghost predicate CourseShows(d: CourseData, r: Record) {
    && (d.active <==> !Inactive(r)) && TextIs(r, "code", d.code)
    && exists name :: TextIs(r, "name", name) && d.name == if name.Some? then name.value else PublicId(r)
  }

  lemma ClassIsShown(tenant: string, records: seq<Record>, i: nat)
    requires i < |records|
    ensures ClassBatch(tenant, records)[i].0 == (tenant, PublicId(records[i])) && ClassShows(ClassBatch(tenant, records)[i].1, records[i])
  {
    hide IsActive, TextField, Inactive, TextIs;
    ActiveIs(records[i]);
    TextFieldIs(records[i], "name");
    TextFieldIs(records[i], "grade_code");
  }

  lemma CourseIsShown(tenant: string, records: seq<Record>, i: nat)
    requires i < |records|
    ensures CourseBatch(tenant, records)[i].0 == (tenant, PublicId(records[i])) && CourseShows(CourseBatch(tenant, records)[i].1, records[i])
  {
    hide IsActive, TextField, Inactive, TextIs;
    ActiveIs(records[i]);
    TextFieldIs(records[i], "name");
    TextFieldIs(records[i], "code");
  }

  lemma ClassRowIs(db: Db, tenant: string, u: Upstream, ids: Ids, i: nat)
    requires i < |u.classes| && forall j | i < j < |u.classes| :: PublicId(u.classes[j]) != PublicId(u.classes[i])
    ensures
      var after, k := Synced(db, tenant, u, ids).0, (tenant, PublicId(u.classes[i]));
      && k in after.classes && ClassShows(after.classes[k].data, u.classes[i])
      && (k in db.classes ==> after.classes[k].id == db.classes[k].id) && (k !in db.classes ==> after.classes[k].id == ids.classroom(k))
  {
    hide UpsertAll, UpsertCourses, LastFor, ClassShows, ClassBatch, PeopleAfter;
    var batch := ClassBatch(tenant, u.classes);
    assert |batch| == |u.classes| by { ClassCount(tenant, u.classes); }
    forall j | i <= j < |batch| ensures batch[j].0 == (tenant, PublicId(u.classes[j])) { ClassIsShown(tenant, u.classes, j); }
    ClassIsShown(tenant, u.classes, i);
    LastForAt(batch, i);
    UpsertAllAt(db.classes, batch, ids.classroom, (tenant, PublicId(u.classes[i])));
  }

  lemma ClassCount(tenant: string, records: seq<Record>)
    ensures |ClassBatch(tenant, records)| == |records| && |CourseBatch(tenant, records)| == |records|
  {
  }

  /** A run succeeds unless some course claims a code that another course of the tenant holds when its turn comes. */
  lemma RunSucceedsIff(db: Db, tenant: string, u: Upstream, ids: Ids)
    ensures
      var batch := CourseBatch(tenant, u.courses);
      Synced(db, tenant, u, ids).1
      <==> forall i: nat, o: string | i < |batch| && i < |u.courses| && o != PublicId(u.courses[i]) ::
             var code, other := TextField(u.courses[i].fields, "code"), DataBefore(db.courses, batch, i, (tenant, o));
             code.Some? && other.Some? ==> other.value.code != code
  {
    hide UpsertCourses, UpsertAll, DataBefore, PeopleAfter, TextField, CourseBatch;
    var batch := CourseBatch(tenant, u.courses);
    ClassCount(tenant, u.courses);
    RollsBackIff(db.courses, batch, ids.course);
    forall i: nat | i < |batch|
      ensures RefusedAt(db.courses, batch, ids.course, i)
         <==> exists o: string :: o != PublicId(u.courses[i]) && TextField(u.courses[i].fields, "code").Some?
                && DataBefore(db.courses, batch, i, (tenant, o)).Some?
                && DataBefore(db.courses, batch, i, (tenant, o)).value.code == TextField(u.courses[i].fields, "code")
    {
      RefusedCourse(db.courses, tenant, u.courses, ids.course, i);
    }
    forall i: nat | i >= |batch| ensures !RefusedAt(db.courses, batch, ids.course, i) { NoSuchUpsert(db.courses, batch, ids.course, i); }
  }

  lemma RefusedCourse(courses: Courses, tenant: string, records: seq<Record>, uuid: Key -> string, i: nat)
    requires i < |records| == |CourseBatch(tenant, records)|
    ensures
      var batch, code := CourseBatch(tenant, records), TextField(records[i].fields, "code");
      RefusedAt(courses, batch, uuid, i)
      <==> exists o: string :: o != PublicId(records[i]) && code.Some? && DataBefore(courses, batch, i, (tenant, o)).Some?
                               && DataBefore(courses, batch, i, (tenant, o)).value.code == code
  {
    hide RefusedAt, DataBefore, CourseBatch, TextField;
    var batch, code := CourseBatch(tenant, records), TextField(records[i].fields, "code");
    CourseIsShown(tenant, records, i);
    RefusedAtIff(courses, batch, uuid, i);
    CodeIs(tenant, records, i);
    if RefusedAt(courses, batch, uuid, i) {
      var o: Key :| o != batch[i].0 && o.0 == batch[i].0.0 && DataBefore(courses, batch, i, o).Some? && DataBefore(courses, batch, i, o).value.code == batch[i].1.code;
      assert o == (tenant, o.1);
    }
  }

  lemma CodeIs(tenant: string, records: seq<Record>, i: nat)
    requires i < |records| == |CourseBatch(tenant, records)|
    ensures CourseBatch(tenant, records)[i].1.code == TextField(records[i].fields, "code")
  {
    hide TextField;
  }

  /** Courses likewise, if the run succeeds. */
  lemma CourseRowIs(db: Db, tenant: string, u: Upstream, ids: Ids, i: nat)
    requires Synced(db, tenant, u, ids).1
    requires i < |u.courses| && forall j | i < j < |u.courses| :: PublicId(u.courses[j]) != PublicId(u.courses[i])
    ensures
      var after, k := Synced(db, tenant, u, ids).0, (tenant, PublicId(u.courses[i]));
      && k in after.courses && CourseShows(after.courses[k].data, u.courses[i])
      && (k in db.courses ==> after.courses[k].id == db.courses[k].id) && (k !in db.courses ==> after.courses[k].id == ids.course(k))
  {
    hide UpsertAll, UpsertCourses, LastFor, CourseShows, CourseBatch, PeopleAfter;
    var batch := CourseBatch(tenant, u.courses);
    assert |batch| == |u.courses| by { ClassCount(tenant, u.courses); }
    forall j | i <= j < |batch| ensures batch[j].0 == (tenant, PublicId(u.courses[j])) { CourseIsShown(tenant, u.courses, j); }
    CourseIsShown(tenant, u.courses, i);
    LastForAt(batch, i);
    CoursesWhenAccepted(db.courses, batch, ids.course);
    UpsertAllAt(db.courses, batch, ids.course, (tenant, PublicId(u.courses[i])));
  }

  /** A row that no record is about stays as it was: nothing is deactivated for being absent. */
  lemma UnmentionedRowsStay(db: Db, tenant: string, u: Upstream, ids: Ids, k: Key)
    ensures
      var after := Synced(db, tenant, u, ids).0;
      && ((forall kind, i | 0 <= i < |Group(u, kind)| :: KeyOf(tenant, kind, Group(u, kind)[i].id) != k) ==>
            (k in after.people <==> k in db.people) && (k in db.people ==> after.people[k] == db.people[k]))
      && ((forall i | 0 <= i < |u.classes| :: (tenant, PublicId(u.classes[i])) != k) ==>
            (k in after.classes <==> k in db.classes) && (k in db.classes ==> after.classes[k] == db.classes[k]))
      && ((forall i | 0 <= i < |u.courses| :: (tenant, PublicId(u.courses[i])) != k) ==>
            (k in after.courses <==> k in db.courses) && (k in db.courses ==> after.courses[k] == db.courses[k]))
  {
    hide UpsertAll, UpsertCourses, LastFor, ClassBatch, CourseBatch, PersonOf;
    if forall kind, i | 0 <= i < |Group(u, kind)| :: KeyOf(tenant, kind, Group(u, kind)[i].id) != k { UnmentionedPerson(db, tenant, u, ids, k); }
    ClassCount(tenant, u.classes);
    if forall i | 0 <= i < |u.classes| :: (tenant, PublicId(u.classes[i])) != k {
      forall j | 0 <= j < |ClassBatch(tenant, u.classes)| ensures ClassBatch(tenant, u.classes)[j].0 != k { ClassIsShown(tenant, u.classes, j); }
      LastForNone(ClassBatch(tenant, u.classes), k);
      UpsertAllAt(db.classes, ClassBatch(tenant, u.classes), ids.classroom, k);
    }
    ClassCount(tenant, u.courses);
    if forall i | 0 <= i < |u.courses| :: (tenant, PublicId(u.courses[i])) != k {
      forall j | 0 <= j < |CourseBatch(tenant, u.courses)| ensures CourseBatch(tenant, u.courses)[j].0 != k { CourseIsShown(tenant, u.courses, j); }
      LastForNone(CourseBatch(tenant, u.courses), k);
      CoursesWhenAccepted(db.courses, CourseBatch(tenant, u.courses), ids.course);
      UpsertAllAt(db.courses, CourseBatch(tenant, u.courses), ids.course, k);
    }
  }

  lemma UnmentionedPerson(db: Db, tenant: string, u: Upstream, ids: Ids, k: Key)
    requires forall kind, i | 0 <= i < |Group(u, kind)| :: KeyOf(tenant, kind, Group(u, kind)[i].id) != k
    ensures
      var after := Synced(db, tenant, u, ids).0;
      (k in after.people <==> k in db.people) && (k in db.people ==> after.people[k] == db.people[k])
  {
    hide UpsertAll, UpsertCourses, LastFor, PersonOf, PersonKey, KeyOf;
    var a, b, c := PeopleBatch(tenant, Teacher, u.teachers), PeopleBatch(tenant, Student, u.students), PeopleBatch(tenant, Parent, u.parents);
    var batch := a + b + c;
    NoRecord(tenant, u, Teacher, k);
    NoRecord(tenant, u, Student, k);
    NoRecord(tenant, u, Parent, k);
    LastForAppend(a + b, c, k);
    LastForAppend(a, b, k);
    UpsertAllAt(db.people, batch, ids.person, k);
  }

  lemma NoRecord(tenant: string, u: Upstream, kind: PersonType, k: Key)
    requires forall i | 0 <= i < |Group(u, kind)| :: KeyOf(tenant, kind, Group(u, kind)[i].id) != k
    ensures LastFor(PeopleBatch(tenant, kind, Group(u, kind)), k).None?
  {
    hide LastFor, PersonOf;
    var batch := PeopleBatch(tenant, kind, Group(u, kind));
    forall j | 0 <= j < |batch| ensures batch[j].0 != k { KeyIs(tenant, kind, Group(u, kind)[j].id); }
    LastForNone(batch, k);
  }
}
