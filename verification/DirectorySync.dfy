/** Copying people, classes and courses from the upstream directory. */
module DirectorySync {
  import opened Prelude
  import opened Text
  import opened Upserts
  import opened PageCollector

  datatype Json = JsonText(text: string) | JsonNumber(value: int) | JsonOther

  /** id is String(record.id); a fractional or missing field value is JsonOther. */
  datatype Record = Record(id: string, externalId: Option<string>, deleted: bool, fields: map<string, Json>)

  datatype PersonType = Teacher | Student | Parent

  datatype PersonData = PersonData(kind: PersonType, userId: Option<string>, name: string, email: Option<string>, active: bool)

  datatype ClassData = ClassData(name: string, gradeName: Option<string>, active: bool)

  datatype CourseData = CourseData(code: Option<string>, name: string, active: bool)

  /** Unique (tenant, eduplusId). */
  type Key = (string, string)

  // ---- fields ----

  function TextField(fields: map<string, Json>, name: string): Option<string> {
    if name in fields && fields[name].JsonText? && fields[name].text != "" then Some(fields[name].text) else None
  }

  function RecordId(r: Record): string {
    r.externalId.GetOr(r.id)
  }

  predicate Digits(s: string) {
    s != "" && forall i | 0 <= i < |s| :: '0' <= s[i] <= '9'
  }

  /** The number a text of digits denotes. */
  function NumeralValue(s: string): nat {
    if !Digits(s) then 0
    else (if |s| == 1 then 0 else 10 * NumeralValue(s[..|s| - 1])) + (s[|s| - 1] as int - '0' as int)
  }

  function Decimal(n: nat): (s: string)
    ensures Digits(s) && NumeralValue(s) == n
  {
    if n < 10 then ['0' + n as char]
    else
      var s := Decimal(n / 10) + ['0' + (n % 10) as char];
      assert s[..|s| - 1] == Decimal(n / 10);
      s
  }

  const MAX_SAFE_INTEGER := 9007199254740991

  /** A positive safe integer, or a text of digits with white space around it. */
  predicate UsableId(value: Json) {
    match value
    case JsonNumber(n) => 0 < n <= MAX_SAFE_INTEGER
    case JsonText(t) => Digits(Trim(t))
    case JsonOther => false
  }

  /** Exactly a usable id is returned, as digits that denote the number sent or are the text sent. */
  function UserId(fields: map<string, Json>): (r: Option<string>)
    ensures r.Some? <==> "user_id" in fields && UsableId(fields["user_id"])
    ensures r.Some? ==> Digits(r.value)
    ensures r.Some? && fields["user_id"].JsonNumber? ==> NumeralValue(r.value) == fields["user_id"].value
    ensures r.Some? && fields["user_id"].JsonText? ==> r.value == Trim(fields["user_id"].text)
  {
    if "user_id" !in fields then None
    else match fields["user_id"]
         case JsonNumber(n) => if 0 < n <= MAX_SAFE_INTEGER then Some(Decimal(n)) else None
         case JsonText(t) => if Digits(Trim(t)) then Some(Trim(t)) else None
         case JsonOther => None
  }

  /** Numbers are taken from 1 up to the largest integer below which a binary floating point number has no gaps, two to the 53rd less one. */
  lemma NumbersTaken(fields: map<string, Json>, n: int)
    ensures UserId(fields["user_id" := JsonNumber(n)]).Some? <==> 0 < n < 0x20_0000_0000_0000
  {
  }

  /** A user id sent as a number and the same id sent as text are the same user. */
  lemma NumberAndTextAgree(fields: map<string, Json>, n: nat)
    requires 0 < n <= MAX_SAFE_INTEGER
    ensures UserId(fields["user_id" := JsonNumber(n)]) == UserId(fields["user_id" := JsonText(Decimal(n))]) == Some(Decimal(n))
  {
    hide Trim, Decimal;
    TrimFixed(Decimal(n));
  }

  predicate IsActive(r: Record) {
    && !r.deleted
    && (match TextField(r.fields, "account_status")
        case None => true
        case Some(status) => Lower(status) !in {"inactive", "disabled", "revoked", "deleted"})
  }

  // ---- what a batch writes ----

  function EntityName(kind: PersonType): string {
    match kind case Teacher => "teacher" case Student => "student" case Parent => "parent"
  }

  function PersonKey(kind: PersonType, id: string): string {
    EntityName(kind) + ":" + id
  }

  /** People of different kinds, or with different ids, never share a row. */
  lemma PersonKeyIsInjective(k: PersonType, x: string, l: PersonType, y: string)
    ensures PersonKey(k, x) == PersonKey(l, y) <==> k == l && x == y
  {
    if PersonKey(k, x) == PersonKey(l, y) {
      assert PersonKey(k, x)[0] == PersonKey(l, y)[0];
      var n := |EntityName(k)| + 1;
      assert PersonKey(k, x)[n..] == x && PersonKey(l, y)[n..] == y;
    }
  }

  function PersonOf(kind: PersonType, r: Record): PersonData {
    PersonData(kind,
               if kind.Student? then UserId(r.fields) else None,
               TextField(r.fields, "name").OrElse(TextField(r.fields, "username")).GetOr(PersonKey(kind, r.id)),
               TextField(r.fields, "email"), IsActive(r))
  }

  function PeopleBatch(tenant: string, kind: PersonType, records: seq<Record>): seq<(Key, PersonData)> {
    seq(|records|, i requires 0 <= i < |records| => ((tenant, PersonKey(kind, records[i].id)), PersonOf(kind, records[i])))
  }

  function ClassBatch(tenant: string, records: seq<Record>): seq<(Key, ClassData)> {
    seq(|records|, i requires 0 <= i < |records| =>
      ((tenant, RecordId(records[i])),
       ClassData(TextField(records[i].fields, "name").GetOr(RecordId(records[i])), TextField(records[i].fields, "grade_code"), IsActive(records[i]))))
  }

  function CourseBatch(tenant: string, records: seq<Record>): seq<(Key, CourseData)> {
    seq(|records|, i requires 0 <= i < |records| =>
      ((tenant, RecordId(records[i])),
       CourseData(TextField(records[i].fields, "code"), TextField(records[i].fields, "name").GetOr(RecordId(records[i])), IsActive(records[i]))))
  }

  // ---- courses: a second unique index, (tenant, code) ----

  type Courses = Table<Key, CourseData>

  /** Writing this code under this key would violate the index. */
  predicate CodeTaken(courses: Courses, k: Key, code: Option<string>) {
    code.Some? && exists o :: o in courses && o != k && o.0 == k.0 && courses[o].data.code == code
  }

  ghost predicate UniqueCodes(courses: Courses) {
    forall k | k in courses :: !CodeTaken(courses, k, courses[k].data.code)
  }

  /** None: some upsert hit the index, and the transaction rolled back. */
  function UpsertCourses(courses: Courses, batch: seq<(Key, CourseData)>, uuid: Key -> string): Option<Courses> {
    if batch == [] then Some(courses)
    else
      var last := batch[|batch| - 1];
      match UpsertCourses(courses, batch[..|batch| - 1], uuid)
      case None => None
      case Some(before) =>
        if CodeTaken(before, last.0, last.1.code) then None else Some(Upsert(before, last.0, last.1, uuid))
  }

  /** A batch that is not rolled back writes what its upserts say and keeps codes unique. */
  lemma {:induction false} CoursesWhenAccepted(courses: Courses, batch: seq<(Key, CourseData)>, uuid: Key -> string)
    ensures UpsertCourses(courses, batch, uuid).Some? ==>
              UpsertCourses(courses, batch, uuid).value == UpsertAll(courses, batch, uuid)
    ensures UpsertCourses(courses, batch, uuid).Some? && UniqueCodes(courses) ==> UniqueCodes(UpsertCourses(courses, batch, uuid).value)
  {
    if batch != [] {
      CoursesWhenAccepted(courses, batch[..|batch| - 1], uuid);
      var before := UpsertCourses(courses, batch[..|batch| - 1], uuid);
      var last := batch[|batch| - 1];
      if before.Some? && !CodeTaken(before.value, last.0, last.1.code) && UniqueCodes(courses) {
        UpsertKeepsCodesUnique(before.value, last.0, last.1, uuid);
      }
    }
  }

  lemma UpsertKeepsCodesUnique(courses: Courses, k: Key, d: CourseData, uuid: Key -> string)
    requires UniqueCodes(courses) && !CodeTaken(courses, k, d.code)
    ensures UniqueCodes(Upsert(courses, k, d, uuid))
  {
    var after := Upsert(courses, k, d, uuid);
    forall o | o in after ensures !CodeTaken(after, o, after[o].data.code) {
      assert o != k ==> !CodeTaken(courses, o, courses[o].data.code);
    }
  }

  // ---- one sync ----

  datatype Db = Db(people: Table<Key, PersonData>, classes: Table<Key, ClassData>, courses: Courses)

  datatype Upstream = Upstream(teachers: seq<Record>, students: seq<Record>, parents: seq<Record>, classes: seq<Record>, courses: seq<Record>)

  datatype Ids = Ids(person: Key -> string, classroom: Key -> string, course: Key -> string)

  function PeopleAfter(people: Table<Key, PersonData>, tenant: string, u: Upstream, uuid: Key -> string): Table<Key, PersonData> {
    UpsertAll(people, PeopleBatch(tenant, Teacher, u.teachers) + PeopleBatch(tenant, Student, u.students) + PeopleBatch(tenant, Parent, u.parents), uuid)
  }

  /** Three transactions in a row; the last may roll back, and then the run is FAILED with the first two committed. */
  function Synced(db: Db, tenant: string, u: Upstream, ids: Ids): (Db, bool) {
    var people := PeopleAfter(db.people, tenant, u, ids.person);
    var classes := UpsertAll(db.classes, ClassBatch(tenant, u.classes), ids.classroom);
    match UpsertCourses(db.courses, CourseBatch(tenant, u.courses), ids.course)
    case None => (Db(people, classes, db.courses), false)
    case Some(courses) => (Db(people, classes, courses), true)
  }

  datatype EntityType = Teachers | Students | Parents | Classes | CourseRecords | TeachingAssignments | ClassRelations | ParentRelations

  const ENTITY_TYPES := [Teachers, Students, Parents, Classes, CourseRecords, TeachingAssignments, ClassRelations, ParentRelations]

  /** How many records were written, by kind, and how many relation records were read but skipped. */
  datatype Counts = Counts(
    teacher: nat, student: nat, parent: nat, classes: nat, course: nat,
    skippedTeachingAssignments: nat, skippedClassRelations: nat, skippedParentRelations: nat)

  datatype RunStatus = Running | Partial | Failed

  datatype SyncRun = SyncRun(tenantId: string, requestedBy: string, status: RunStatus, counts: Option<Counts>)

  /** UniqueViolation: the run row was refused; Collecting: some chain is still going after the loads watched. */
  datatype RunAnswer = UniqueViolation | Collecting | Done(ok: bool)

  /** Every entity type can be read to its end. */
  ghost predicate Collectable(client: EntityType -> Server<Record>) {
    forall k | 0 <= k < |ENTITY_TYPES| :: ChainItems(client(ENTITY_TYPES[k])).Some?
  }

  ghost function ItemsOf(client: EntityType -> Server<Record>, entityType: EntityType): seq<Record> {
    ChainItems(client(entityType)).GetOr([])
  }

  ghost function UpstreamOf(client: EntityType -> Server<Record>): Upstream {
    Upstream(ItemsOf(client, Teachers), ItemsOf(client, Students), ItemsOf(client, Parents), ItemsOf(client, Classes), ItemsOf(client, CourseRecords))
  }

  ghost function CountsOf(client: EntityType -> Server<Record>): Counts {
    Counts(|ItemsOf(client, Teachers)|, |ItemsOf(client, Students)|, |ItemsOf(client, Parents)|, |ItemsOf(client, Classes)|,
           |ItemsOf(client, CourseRecords)|, |ItemsOf(client, TeachingAssignments)|, |ItemsOf(client, ClassRelations)|,
           |ItemsOf(client, ParentRelations)|)
  }

  class DirectoryStore {
    var people: Table<Key, PersonData>
    var classes: Table<Key, ClassData>
    var courses: Courses
    var runs: map<string, SyncRun>

    /** All entity types, one after the other; None when a chain fails, repeats a cursor or is still going. */
    method CollectAll(client: EntityType -> Server<Record>, budget: nat) returns (records: map<EntityType, seq<Record>>, failed: bool, pending: bool)
      ensures failed ==> !Collectable(client)
      ensures pending ==> exists k :: 0 <= k < |ENTITY_TYPES| && Outlasts(client(ENTITY_TYPES[k]), budget)
      ensures !failed && !pending ==>
                Collectable(client)
                && forall k | 0 <= k < |ENTITY_TYPES| ::
                     ENTITY_TYPES[k] in records && records[ENTITY_TYPES[k]] == ItemsOf(client, ENTITY_TYPES[k])
    {
      hide LinkAt, Outlasts, Collected;
      records, failed, pending := map[], false, false;
      for k := 0 to |ENTITY_TYPES|
        invariant !failed && !pending
        invariant forall j | 0 <= j < k ::
                    ChainItems(client(ENTITY_TYPES[j])).Some?
                    && ENTITY_TYPES[j] in records && records[ENTITY_TYPES[j]] == ItemsOf(client, ENTITY_TYPES[j])
      {
        var server := client(ENTITY_TYPES[k]);
        var collected, loads := CollectPages(server, budget);
        if collected.None? {
          assert Outlasts(client(ENTITY_TYPES[k]), budget);
          return records, false, true;
        }
        if collected.value.Err? {
          NoItems(server);
          return records, true, false;
        }
        ChainItemsIs(server, loads);
        records := records[ENTITY_TYPES[k] := collected.value.value];
      }
    }

    /** A whole run: collect everything, then write; the run row says how it ended. */
    method SyncDirectory(runId: string, tenant: string, requestedBy: string, token: bool, client: EntityType -> Server<Record>,
                         budget: nat, ids: Ids) returns (answer: RunAnswer)
      modifies this
      ensures answer == UniqueViolation <==> runId in old(runs)
      ensures answer == UniqueViolation ==> runs == old(runs)
      ensures answer != UniqueViolation ==>
                runId in runs && runs == old(runs)[runId := runs[runId]]
                && runs[runId].tenantId == tenant && runs[runId].requestedBy == requestedBy
      ensures answer == Collecting ==>
                runs[runId].status == Running && exists k :: 0 <= k < |ENTITY_TYPES| && Outlasts(client(ENTITY_TYPES[k]), budget)
      ensures answer.Done? ==>
                && answer.ok == (token && Collectable(client)
                                 && Synced(Db(old(people), old(classes), old(courses)), tenant, UpstreamOf(client), ids).1)
                && runs[runId].status == (if answer.ok then Partial else Failed)
                && runs[runId].counts == (if answer.ok then Some(CountsOf(client)) else None)
      ensures Db(people, classes, courses) ==
                if answer.Done? && token && Collectable(client)
                then Synced(Db(old(people), old(classes), old(courses)), tenant, UpstreamOf(client), ids).0
                else Db(old(people), old(classes), old(courses))
    {
      hide Synced, Outlasts, ItemsOf;
      if runId in runs { return UniqueViolation; }
      runs := runs[runId := SyncRun(tenant, requestedBy, Running, None)];
      if !token {
        runs := runs[runId := runs[runId].(status := Failed)];
        return Done(false);
      }
      var records, failed, pending := CollectAll(client, budget);
      if pending { return Collecting; }
      if failed {
        runs := runs[runId := runs[runId].(status := Failed)];
        return Done(false);
      }
      assert forall t: EntityType :: t in records && records[t] == ItemsOf(client, t) by { AllTypes(client, records); }
      var u := Upstream(records[Teachers], records[Students], records[Parents], records[Classes], records[CourseRecords]);
      var ok := Sync(tenant, u, ids);
      if !ok {
        runs := runs[runId := runs[runId].(status := Failed)];
        return Done(false);
      }
      var counts := Counts(|records[Teachers]|, |records[Students]|, |records[Parents]|, |records[Classes]|, |records[CourseRecords]|,
                           |records[TeachingAssignments]|, |records[ClassRelations]|, |records[ParentRelations]|);
      runs := runs[runId := runs[runId].(status := Partial, counts := Some(counts))];
      return Done(true);
    }

    method SyncGroup(tenant: string, kind: PersonType, records: seq<Record>, uuid: Key -> string)
      modifies this
      ensures runs == old(runs)
      ensures people == UpsertAll(old(people), PeopleBatch(tenant, kind, records), uuid)
      ensures classes == old(classes) && courses == old(courses)
    {
      hide PersonOf, PersonKey;
      var batch := PeopleBatch(tenant, kind, records);
      for i := 0 to |records|
        invariant people == UpsertAll(old(people), batch[..i], uuid)
        invariant classes == old(classes) && courses == old(courses) && runs == old(runs)
      {
        assert batch[..i + 1] == batch[..i] + [batch[i]];
        var eduplusId := PersonKey(kind, records[i].id);
        people := Upsert(people, (tenant, eduplusId), PersonOf(kind, records[i]), uuid);
      }
      assert batch[..|records|] == batch;
    }

    method SyncPeople(tenant: string, u: Upstream, uuid: Key -> string)
      modifies this
      ensures runs == old(runs)
      ensures people == PeopleAfter(old(people), tenant, u, uuid)
      ensures classes == old(classes) && courses == old(courses)
    {
      SyncGroup(tenant, Teacher, u.teachers, uuid);
      SyncGroup(tenant, Student, u.students, uuid);
      SyncGroup(tenant, Parent, u.parents, uuid);
      ThreeBatches(old(people), PeopleBatch(tenant, Teacher, u.teachers), PeopleBatch(tenant, Student, u.students),
                   PeopleBatch(tenant, Parent, u.parents), uuid);
    }

    method SyncClasses(tenant: string, records: seq<Record>, uuid: Key -> string)
      modifies this
      ensures runs == old(runs)
      ensures classes == UpsertAll(old(classes), ClassBatch(tenant, records), uuid)
      ensures people == old(people) && courses == old(courses)
    {
      var batch := ClassBatch(tenant, records);
      for i := 0 to |records|
        invariant classes == UpsertAll(old(classes), batch[..i], uuid)
        invariant people == old(people) && courses == old(courses) && runs == old(runs)
      {
        assert batch[..i + 1] == batch[..i] + [batch[i]];
        classes := Upsert(classes, batch[i].0, batch[i].1, uuid);
      }
      assert batch[..|records|] == batch;
    }

    /** One transaction: the written rows are discarded when an upsert is refused. */
    method SyncCourses(tenant: string, records: seq<Record>, uuid: Key -> string) returns (ok: bool)
      modifies this
      ensures runs == old(runs)
      ensures ok <==> UpsertCourses(old(courses), CourseBatch(tenant, records), uuid).Some?
      ensures courses == UpsertCourses(old(courses), CourseBatch(tenant, records), uuid).GetOr(old(courses))
      ensures people == old(people) && classes == old(classes)
    {
      var batch := CourseBatch(tenant, records);
      var transaction := courses;
      for i := 0 to |records|
        invariant UpsertCourses(old(courses), batch[..i], uuid) == Some(transaction)
        invariant courses == old(courses) && people == old(people) && classes == old(classes) && runs == old(runs)
      {
        assert batch[..i + 1] == batch[..i] + [batch[i]];
        if CodeTaken(transaction, batch[i].0, batch[i].1.code) {
          RolledBack(courses, batch, i + 1, uuid);
          return false;
        }
        transaction := Upsert(transaction, batch[i].0, batch[i].1, uuid);
      }
      assert batch[..|records|] == batch;
      courses := transaction;
      return true;
    }

    method Sync(tenant: string, u: Upstream, ids: Ids) returns (ok: bool)
      modifies this
      ensures runs == old(runs)
      ensures (Db(people, classes, courses), ok) == Synced(Db(old(people), old(classes), old(courses)), tenant, u, ids)
    {
      SyncPeople(tenant, u, ids.person);
      SyncClasses(tenant, u.classes, ids.classroom);
      ok := SyncCourses(tenant, u.courses, ids.course);
    }
  }

  /** The list of entity types is complete. */
  lemma AllTypes(client: EntityType -> Server<Record>, records: map<EntityType, seq<Record>>)
    requires forall k | 0 <= k < |ENTITY_TYPES| :: ENTITY_TYPES[k] in records && records[ENTITY_TYPES[k]] == ItemsOf(client, ENTITY_TYPES[k])
    ensures forall t: EntityType :: t in records && records[t] == ItemsOf(client, t)
  {
    hide ItemsOf;
    forall t: EntityType ensures t in records && records[t] == ItemsOf(client, t) {
      assert t == ENTITY_TYPES[0] || t == ENTITY_TYPES[1] || t == ENTITY_TYPES[2] || t == ENTITY_TYPES[3]
          || t == ENTITY_TYPES[4] || t == ENTITY_TYPES[5] || t == ENTITY_TYPES[6] || t == ENTITY_TYPES[7];
    }
  }

  lemma {:induction false} UpsertAllConcat<K, D>(t: Table<K, D>, a: seq<(K, D)>, b: seq<(K, D)>, uuid: K -> string)
    ensures UpsertAll(t, a + b, uuid) == UpsertAll(UpsertAll(t, a, uuid), b, uuid)
  {
    if b == [] {
      assert a + b == a;
    } else {
      UpsertAllConcat(t, a, b[..|b| - 1], uuid);
      assert (a + b)[..|a + b| - 1] == a + b[..|b| - 1];
    }
  }

  lemma ThreeBatches<K, D>(t: Table<K, D>, a: seq<(K, D)>, b: seq<(K, D)>, c: seq<(K, D)>, uuid: K -> string)
    ensures UpsertAll(t, a + b + c, uuid) == UpsertAll(UpsertAll(UpsertAll(t, a, uuid), b, uuid), c, uuid)
  {
    UpsertAllConcat(t, a, b, uuid);
    UpsertAllConcat(t, a + b, c, uuid);
  }

  lemma {:induction false} RolledBack(courses: Courses, batch: seq<(Key, CourseData)>, n: nat, uuid: Key -> string)
    requires n <= |batch| && UpsertCourses(courses, batch[..n], uuid).None?
    ensures UpsertCourses(courses, batch, uuid).None?
    decreases |batch| - n
  {
    if n == |batch| {
      assert batch[..n] == batch;
    } else {
      assert batch[..n + 1][..n] == batch[..n];
      RolledBack(courses, batch, n + 1, uuid);
    }
  }

  // ---- running it twice ----

  /** A second sync of the same records that succeeds leaves the same people, classes and courses, whatever ids repeat. */
  lemma SecondSyncChangesNothing(db: Db, tenant: string, u: Upstream, ids: Ids, ids': Ids)
    requires Synced(db, tenant, u, ids).1
    requires Synced(Synced(db, tenant, u, ids).0, tenant, u, ids').1
    ensures Synced(Synced(db, tenant, u, ids).0, tenant, u, ids').0 == Synced(db, tenant, u, ids).0
  {
    hide UpsertAll, UpsertCourses;
    var once := Synced(db, tenant, u, ids).0;
    UpsertAllTwice(db.people, PeopleBatch(tenant, Teacher, u.teachers) + PeopleBatch(tenant, Student, u.students) + PeopleBatch(tenant, Parent, u.parents), ids.person, ids'.person);
    UpsertAllTwice(db.classes, ClassBatch(tenant, u.classes), ids.classroom, ids'.classroom);
    CoursesWhenAccepted(db.courses, CourseBatch(tenant, u.courses), ids.course);
    CoursesWhenAccepted(once.courses, CourseBatch(tenant, u.courses), ids'.course);
    UpsertAllTwice(db.courses, CourseBatch(tenant, u.courses), ids.course, ids'.course);
  }

  /** Whether or not it succeeds, a repeated sync never disturbs people and classes. */
  lemma PeopleAndClassesAreStable(db: Db, tenant: string, u: Upstream, ids: Ids, ids': Ids)
    ensures
      var once := Synced(db, tenant, u, ids).0;
      var twice := Synced(once, tenant, u, ids').0;
      twice.people == once.people && twice.classes == once.classes
  {
    hide UpsertAll, UpsertCourses;
    UpsertAllTwice(db.people, PeopleBatch(tenant, Teacher, u.teachers) + PeopleBatch(tenant, Student, u.students) + PeopleBatch(tenant, Parent, u.parents), ids.person, ids'.person);
    UpsertAllTwice(db.classes, ClassBatch(tenant, u.classes), ids.classroom, ids'.classroom);
  }

  // ---- when the second sync succeeds ----

  /** Upsert i of the batch is refused. */
  predicate RefusedAt(courses: Courses, batch: seq<(Key, CourseData)>, uuid: Key -> string, i: nat) {
    i < |batch| && CodeTaken(UpsertAll(courses, batch[..i], uuid), batch[i].0, batch[i].1.code)
  }

  /** A batch rolls back exactly when some upsert of it meets its code under another course. */
  lemma {:induction false} RollsBackIff(courses: Courses, batch: seq<(Key, CourseData)>, uuid: Key -> string)
    ensures UpsertCourses(courses, batch, uuid).None? <==> exists i: nat :: RefusedAt(courses, batch, uuid, i)
  {
    hide CodeTaken, UpsertAll;
    if batch != [] {
      var n := |batch| - 1;
      var up := batch[..n];
      RollsBackIff(courses, up, uuid);
      CoursesWhenAccepted(courses, up, uuid);
      assert forall i: nat | i < n :: up[..i] == batch[..i];
      assert forall i: nat | i < n :: RefusedAt(courses, up, uuid, i) <==> RefusedAt(courses, batch, uuid, i);
      assert RefusedAt(courses, batch, uuid, n) <==> CodeTaken(UpsertAll(courses, up, uuid), batch[n].0, batch[n].1.code);
    }
  }

  /** What course o holds just before upsert i. */
  function DataBefore(courses: Courses, batch: seq<(Key, CourseData)>, i: nat, o: Key): Option<CourseData>
    requires i <= |batch|
  {
    if LastFor(batch[..i], o).Some? then LastFor(batch[..i], o)
    else if o in courses then Some(courses[o].data) else None
  }

  lemma RefusedAtIff(courses: Courses, batch: seq<(Key, CourseData)>, uuid: Key -> string, i: nat)
    requires i < |batch|
    ensures RefusedAt(courses, batch, uuid, i)
       <==> batch[i].1.code.Some?
            && exists o: Key :: o != batch[i].0 && o.0 == batch[i].0.0
                  && DataBefore(courses, batch, i, o).Some? && DataBefore(courses, batch, i, o).value.code == batch[i].1.code
  {
    hide UpsertAll;
    var before := UpsertAll(courses, batch[..i], uuid);
    forall o: Key
      ensures o in before <==> DataBefore(courses, batch, i, o).Some?
      ensures o in before ==> before[o].data == DataBefore(courses, batch, i, o).value
    {
      UpsertAllAt(courses, batch[..i], uuid, o);
    }
  }

  /** A refusal does not depend on the ids given to new rows. */
  lemma IdsAreIrrelevant(courses: Courses, batch: seq<(Key, CourseData)>, uuid: Key -> string, uuid': Key -> string)
    ensures UpsertCourses(courses, batch, uuid).None? <==> UpsertCourses(courses, batch, uuid').None?
  {
    hide RefusedAt, UpsertCourses;
    RollsBackIff(courses, batch, uuid);
    RollsBackIff(courses, batch, uuid');
    forall i: nat ensures RefusedAt(courses, batch, uuid, i) <==> RefusedAt(courses, batch, uuid', i) {
      if i < |batch| {
        RefusedAtIff(courses, batch, uuid, i);
        RefusedAtIff(courses, batch, uuid', i);
      } else {
        NoSuchUpsert(courses, batch, uuid, i);
        NoSuchUpsert(courses, batch, uuid', i);
      }
    }
  }

  lemma NoSuchUpsert(courses: Courses, batch: seq<(Key, CourseData)>, uuid: Key -> string, i: nat)
    requires i >= |batch|
    ensures !RefusedAt(courses, batch, uuid, i)
  {
  }

  /**
   Record i gives its course a code that the batch, from a record j after it on,
   finally leaves with another course of the tenant, which no record before i is
   about.  In the first run that course takes the code after record i; in the
   second it holds it from the start.
   */
  predicate Clash(batch: seq<(Key, CourseData)>, i: nat, j: nat) {
    && i < j < |batch|
    && batch[j].0 != batch[i].0 && batch[j].0.0 == batch[i].0.0
    && batch[i].1.code.Some?
    && LastFor(batch[..i], batch[j].0).None?
    && LastFor(batch, batch[j].0).Some? && LastFor(batch, batch[j].0).value.code == batch[i].1.code
  }

  predicate Clashes(batch: seq<(Key, CourseData)>) {
    exists i, j :: 0 <= i < j < |batch| && Clash(batch, i, j)
  }

  lemma {:induction false} LastForIsLater(batch: seq<(Key, CourseData)>, i: nat, o: Key)
    requires i < |batch| && LastFor(batch[..i], o).None? && LastFor(batch, o).Some?
    ensures exists j :: i <= j < |batch| && batch[j].0 == o
    decreases |batch|
  {
    if batch[|batch| - 1].0 != o && i < |batch| - 1 {
      var up := batch[..|batch| - 1];
      assert up[..i] == batch[..i];
      LastForIsLater(up, i, o);
      var j :| i <= j < |up| && up[j].0 == o;
      assert batch[j].0 == o;
    }
  }

  lemma {:induction false} LastForPresent(batch: seq<(Key, CourseData)>, j: nat)
    requires j < |batch|
    ensures LastFor(batch, batch[j].0).Some?
  {
    if batch[|batch| - 1].0 != batch[j].0 { LastForPresent(batch[..|batch| - 1], j); }
  }

  /** Upsert i of the second run is refused exactly when record i clashes with a later one. */
  lemma SecondRefusalIff(courses: Courses, batch: seq<(Key, CourseData)>, uuid: Key -> string, uuid': Key -> string, i: nat)
    requires i < |batch| && !RefusedAt(courses, batch, uuid, i)
    ensures RefusedAt(UpsertAll(courses, batch, uuid), batch, uuid', i) <==> exists j: nat :: Clash(batch, i, j)
  {
    hide RefusedAt, UpsertAll, LastFor;
    var once := UpsertAll(courses, batch, uuid);
    RefusedAtIff(courses, batch, uuid, i);
    RefusedAtIff(once, batch, uuid', i);
    var k, code := batch[i].0, batch[i].1.code;
    if RefusedAt(once, batch, uuid', i) {
      var o: Key :| o != k && o.0 == k.0 && DataBefore(once, batch, i, o).Some? && DataBefore(once, batch, i, o).value.code == code;
      UpsertAllAt(courses, batch, uuid, o);
      assert DataBefore(courses, batch, i, o).None? || DataBefore(courses, batch, i, o).value.code != code;
      LastForIsLater(batch, i, o);
      var j :| i <= j < |batch| && batch[j].0 == o;
      assert Clash(batch, i, j);
    }
    if j: nat :| Clash(batch, i, j) {
      UpsertAllAt(courses, batch, uuid, batch[j].0);
      assert DataBefore(once, batch, i, batch[j].0).value.code == code;
    }
  }

  /** After a run that was accepted, the same batch is refused exactly when two of its records clash. */
  lemma SecondRunRollsBackIff(courses: Courses, batch: seq<(Key, CourseData)>, uuid: Key -> string, uuid': Key -> string)
    requires UpsertCourses(courses, batch, uuid).Some?
    ensures UpsertCourses(UpsertCourses(courses, batch, uuid).value, batch, uuid').None? <==> Clashes(batch)
  {
    hide RefusedAt, UpsertAll, UpsertCourses, Clash;
    CoursesWhenAccepted(courses, batch, uuid);
    var once := UpsertAll(courses, batch, uuid);
    RollsBackIff(courses, batch, uuid);
    RollsBackIff(once, batch, uuid');
    if UpsertCourses(once, batch, uuid').None? {
      var i: nat :| RefusedAt(once, batch, uuid', i);
      if i >= |batch| { NoSuchUpsert(once, batch, uuid', i); }
      SecondRefusalIff(courses, batch, uuid, uuid', i);
      var j: nat :| Clash(batch, i, j);
      ClashIsInOrder(batch, i, j);
    }
    if Clashes(batch) {
      var i, j :| 0 <= i < j < |batch| && Clash(batch, i, j);
      SecondRefusalIff(courses, batch, uuid, uuid', i);
    }
  }

  lemma ClashIsInOrder(batch: seq<(Key, CourseData)>, i: nat, j: nat)
    requires Clash(batch, i, j)
    ensures i < j < |batch|
  {
  }

  /** A second sync succeeds exactly when the first did and no two course records clash. */
  lemma SecondSyncSucceedsIff(db: Db, tenant: string, u: Upstream, ids: Ids, ids': Ids)
    ensures Synced(Synced(db, tenant, u, ids).0, tenant, u, ids').1
       <==> Synced(db, tenant, u, ids).1 && !Clashes(CourseBatch(tenant, u.courses))
  {
    hide UpsertAll, UpsertCourses, Clashes, CourseBatch;
    var batch := CourseBatch(tenant, u.courses);
    IdsAreIrrelevant(db.courses, batch, ids.course, ids'.course);
    if Synced(db, tenant, u, ids).1 { SecondRunRollsBackIff(db.courses, batch, ids.course, ids'.course); }
  }

  /** When no course id repeats in the batch, nothing clashes as long as the first run is accepted, and the second leaves the same table. */
  lemma DistinctCoursesSyncAgain(courses: Courses, batch: seq<(Key, CourseData)>, uuid: Key -> string, uuid': Key -> string)
    requires DistinctKeys(batch) && UpsertCourses(courses, batch, uuid).Some?
    ensures UpsertCourses(UpsertCourses(courses, batch, uuid).value, batch, uuid') == UpsertCourses(courses, batch, uuid)
  {
    hide UpsertAll, UpsertCourses;
    CoursesWhenAccepted(courses, batch, uuid);
    var once := UpsertCourses(courses, batch, uuid).value;
    SecondRunRollsBackIff(courses, batch, uuid, uuid');
    RollsBackIff(courses, batch, uuid);
    forall i: nat, j: nat ensures !Clash(batch, i, j) {
      if Clash(batch, i, j) {
        LastForDistinct(batch, j);
        LaterTakesTheCode(courses, batch, uuid, i, j);
      }
    }
    CoursesWhenAccepted(once, batch, uuid');
    UpsertAllTwice(courses, batch, uuid, uuid');
  }

  /** With distinct ids the later of two clashing records would have been refused in the first run. */
  lemma LaterTakesTheCode(courses: Courses, batch: seq<(Key, CourseData)>, uuid: Key -> string, i: nat, j: nat)
    requires DistinctKeys(batch) && Clash(batch, i, j)
    ensures RefusedAt(courses, batch, uuid, j)
  {
    hide UpsertAll;
    LastForDistinct(batch, j);
    LastForDistinct(batch[..j], i);
    RefusedAtIff(courses, batch, uuid, j);
    assert DataBefore(courses, batch, j, batch[i].0) == Some(batch[i].1);
  }

  /** With a repeated id it can fail: a code released half-way through the first run is taken at the start of the second. */
  lemma RepeatedCourseIdCanFail(tenant: string, uuid: Key -> string)
    ensures
      var batch := [((tenant, "A"), CourseData(Some("x"), "n", true)),
                    ((tenant, "A"), CourseData(Some("y"), "n", true)),
                    ((tenant, "B"), CourseData(Some("x"), "n", true))];
      && UpsertCourses(map[], batch, uuid).Some?
      && UpsertCourses(UpsertCourses(map[], batch, uuid).value, batch, uuid).None?
  {
    var a, b := (tenant, "A"), (tenant, "B");
    var x, y := CourseData(Some("x"), "n", true), CourseData(Some("y"), "n", true);
    var batch := [(a, x), (a, y), (b, x)];
    assert batch[..2] == [(a, x), (a, y)] && batch[..2][..1] == [(a, x)] && batch[..2][..1][..0] == [];
    var one := Upsert(map[], a, x, uuid);
    assert UpsertCourses(map[], batch[..2][..1], uuid) == Some(one);
    var two := Upsert(one, a, y, uuid);
    assert UpsertCourses(map[], batch[..2], uuid) == Some(two);
    assert LastFor(batch, b) == Some(x) && LastFor(batch[..0], b) == None;
    assert Clash(batch, 0, 2);
    SecondRunRollsBackIff(map[], batch, uuid, uuid);
  }

  /** Nothing outside the tenant is read or written. */
  lemma OtherTenantsUntouched(db: Db, tenant: string, u: Upstream, ids: Ids, k: Key)
    requires k.0 != tenant
    ensures
      var after := Synced(db, tenant, u, ids).0;
      && (k in after.people <==> k in db.people) && (k in db.people ==> after.people[k] == db.people[k])
      && (k in after.classes <==> k in db.classes) && (k in db.classes ==> after.classes[k] == db.classes[k])
      && (k in after.courses <==> k in db.courses) && (k in db.courses ==> after.courses[k] == db.courses[k])
  {
    hide UpsertAll, UpsertCourses;
    var people := PeopleBatch(tenant, Teacher, u.teachers) + PeopleBatch(tenant, Student, u.students) + PeopleBatch(tenant, Parent, u.parents);
    NoRecordFor(people, tenant, k);
    NoRecordFor(ClassBatch(tenant, u.classes), tenant, k);
    NoRecordFor(CourseBatch(tenant, u.courses), tenant, k);
    UpsertAllAt(db.people, people, ids.person, k);
    UpsertAllAt(db.classes, ClassBatch(tenant, u.classes), ids.classroom, k);
    CoursesWhenAccepted(db.courses, CourseBatch(tenant, u.courses), ids.course);
    UpsertAllAt(db.courses, CourseBatch(tenant, u.courses), ids.course, k);
  }

  lemma {:induction false} NoRecordFor<D>(batch: seq<(Key, D)>, tenant: string, k: Key)
    requires k.0 != tenant && forall i | 0 <= i < |batch| :: batch[i].0.0 == tenant
    ensures LastFor(batch, k) == None
  {
    if batch != [] { NoRecordFor(batch[..|batch| - 1], tenant, k); }
  }
}
