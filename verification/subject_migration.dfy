/** `server/src/migrate-subjects.ts`: the one-off migration from free-text
    subject names to `Subject` records. It collects every distinct non-empty
    name used by study sessions, lesson plans and exam results, creates the
    subjects that do not exist yet, and points each row at its subject's id.
    The database is a value; each Prisma call becomes a function on it. */
module SubjectMigration {
  import opened Outcomes
  import Seqs
  import LessonStore

  type Id = LessonStore.Id

  type Subject = LessonStore.Subject

  /** A study session, lesson plan or exam result, as far as the migration
      sees it: the old free-text `subject` and the new `subjectId`. */
  datatype Row = Row(id: Id, subject: Option<string>, subjectId: Option<Id>)

  /** Subject ids are assigned by the database's counter `nextSubjectId`. */
  datatype Db = Db(sessions: seq<Row>, lessons: seq<Row>, exams: seq<Row>, subjects: seq<Subject>, nextSubjectId: Id)

  // ----- 1. Collecting the names -----

  /** `rows.map(s => s.subject)`. */
  function SubjectColumn(rows: seq<Row>): (column: seq<Option<string>>)
    ensures |column| == |rows|
    ensures forall j | 0 <= j < |rows| :: column[j] == rows[j].subject
  {
    seq(|rows|, j requires 0 <= j < |rows| => rows[j].subject)
  }

  /** `filter(Boolean)` on a subject: null and the empty string are falsy. */
  predicate IsName(subject: Option<string>) {
    subject.Some? && subject.value != ""
  }

  predicate HasName(row: Row) {
    IsName(row.subject)
  }

  /** The non-empty names of a subject column, in column order. */
  function Names(column: seq<Option<string>>): (names: seq<string>)
    ensures forall i | 0 <= i < |names| :: names[i] != "" && Some(names[i]) in column
    ensures forall j | 0 <= j < |column| && IsName(column[j]) :: column[j].value in names
  {
    var named := Seqs.Filter(IsName, column);
    var names := seq(|named|, i requires 0 <= i < |named| => named[i].value);
    assert forall i | 0 <= i < |named| :: named[i] == Some(names[i]);
    names
  }

  /** The subject column of all three tables, sessions first, then lessons, then exams. */
  function AllSubjects(db: Db): seq<Option<string>> {
    SubjectColumn(db.sessions) + SubjectColumn(db.lessons) + SubjectColumn(db.exams)
  }

  /** Spreading the three filtered name lists is filtering the joined column. */
  lemma NamesAppend(a: seq<Option<string>>, b: seq<Option<string>>)
    ensures Names(a + b) == Names(a) + Names(b)
  {
    var fa, fb, f := Seqs.Filter(IsName, a), Seqs.Filter(IsName, b), Seqs.Filter(IsName, a + b);
    Seqs.FilterAppend(IsName, a, b);
    assert f == fa + fb;
    var joined := Names(a) + Names(b);
    forall i | 0 <= i < |f|
      ensures Names(a + b)[i] == joined[i]
    {
      if i < |fa| {
        assert f[i] == fa[i];
      } else {
        assert f[i] == fb[i - |fa|];
      }
    }
  }

  /** `allSubjectNames`: the set built from the three name lists, kept in the
      order the set iterates in (first insertion first). */
  function CollectNames(db: Db): (names: seq<string>)
    ensures Seqs.NoDuplicates(names)
    ensures forall i | 0 <= i < |names| :: names[i] != "" && Some(names[i]) in AllSubjects(db)
    ensures forall j | 0 <= j < |AllSubjects(db)| && IsName(AllSubjects(db)[j]) :: AllSubjects(db)[j].value in names
  {
    var s, l, e := SubjectColumn(db.sessions), SubjectColumn(db.lessons), SubjectColumn(db.exams);
    NamesAppend(s, l);
    NamesAppend(s + l, e);
    Seqs.Distinct(Names(AllSubjects(db)))
  }

  /** Every non-empty name of every table is collected. */
  lemma CollectNamesCoversRows(db: Db)
    ensures forall j | 0 <= j < |db.sessions| && HasName(db.sessions[j]) :: db.sessions[j].subject.value in CollectNames(db)
    ensures forall j | 0 <= j < |db.lessons| && HasName(db.lessons[j]) :: db.lessons[j].subject.value in CollectNames(db)
    ensures forall j | 0 <= j < |db.exams| && HasName(db.exams[j]) :: db.exams[j].subject.value in CollectNames(db)
  {
    var all := AllSubjects(db);
    var s, l := |db.sessions|, |db.lessons|;
    forall j | 0 <= j < s && HasName(db.sessions[j])
      ensures db.sessions[j].subject.value in CollectNames(db)
    {
      assert all[j] == SubjectColumn(db.sessions)[j];
    }
    forall j | 0 <= j < l && HasName(db.lessons[j])
      ensures db.lessons[j].subject.value in CollectNames(db)
    {
      assert all[s + j] == SubjectColumn(db.lessons)[j];
    }
    forall j | 0 <= j < |db.exams| && HasName(db.exams[j])
      ensures db.exams[j].subject.value in CollectNames(db)
    {
      assert all[s + l + j] == SubjectColumn(db.exams)[j];
    }
  }

  // ----- 2. Upserting the subjects -----

  predicate HasSubjectNamed(subjects: seq<Subject>, name: string) {
    exists k | 0 <= k < |subjects| :: subjects[k].name == name
  }

  /** `Subject.name` is unique in the schema, which `upsert({ where: { name } })` relies on. */
  ghost predicate UniqueNames(subjects: seq<Subject>) {
    forall i, j | 0 <= i < j < |subjects| :: subjects[i].name != subjects[j].name
  }

  /** `prisma.subject.upsert`: nothing changes when a subject has the name
      (`update: {}`); otherwise one is created with the default colour. */
  function Upsert(db: Db, name: string): (r: Db)
    ensures r.sessions == db.sessions && r.lessons == db.lessons && r.exams == db.exams
    ensures HasSubjectNamed(db.subjects, name) ==> r == db
    ensures !HasSubjectNamed(db.subjects, name) ==>
      && r.subjects == db.subjects + [LessonStore.Subject(db.nextSubjectId, name, LessonStore.DefaultSubjectColor)]
      && r.nextSubjectId == db.nextSubjectId + 1
    ensures HasSubjectNamed(r.subjects, name)
  {
    if HasSubjectNamed(db.subjects, name) then db
    else
      var created := LessonStore.Subject(db.nextSubjectId, name, LessonStore.DefaultSubjectColor);
      var r := db.(subjects := db.subjects + [created], nextSubjectId := db.nextSubjectId + 1);
      assert r.subjects[|db.subjects|] == created;
      r
  }

  /** The `for (const name of allSubjectNames)` loop. Existing subjects are left
      as they were; each created subject has the default colour, a name from
      `names` that no subject had before, and the next id in turn. */
  function UpsertAll(db: Db, names: seq<string>): (r: Db)
    ensures r.sessions == db.sessions && r.lessons == db.lessons && r.exams == db.exams
    ensures |db.subjects| <= |r.subjects| && r.subjects[..|db.subjects|] == db.subjects
    ensures r.nextSubjectId == db.nextSubjectId + (|r.subjects| - |db.subjects|)
    ensures forall i | 0 <= i < |names| :: HasSubjectNamed(r.subjects, names[i])
    ensures forall k | |db.subjects| <= k < |r.subjects| ::
      && r.subjects[k].color == LessonStore.DefaultSubjectColor
      && r.subjects[k].name in names
      && !HasSubjectNamed(db.subjects, r.subjects[k].name)
      && r.subjects[k].id == db.nextSubjectId + (k - |db.subjects|)
    decreases |names|
  {
    if names == [] then db
    else
      var first := Upsert(db, names[0]);
      var r := UpsertAll(first, names[1..]);
      assert first.subjects[..|db.subjects|] == db.subjects;
      assert r.subjects[..|db.subjects|] == db.subjects by {
        assert r.subjects[..|first.subjects|] == first.subjects;
      }
      PrefixKeepsName(first.subjects, r.subjects, names[0]);
      assert forall i | 1 <= i < |names| :: names[i] == names[1..][i - 1];
      forall k | |db.subjects| <= k < |r.subjects|
        ensures r.subjects[k].color == LessonStore.DefaultSubjectColor
        ensures r.subjects[k].name in names
        ensures !HasSubjectNamed(db.subjects, r.subjects[k].name)
        ensures r.subjects[k].id == db.nextSubjectId + (k - |db.subjects|)
      {
        if k < |first.subjects| {
          assert r.subjects[k] == first.subjects[k];
        } else {
          assert r.subjects[k].name in names[1..];
          PrefixKeepsName(db.subjects, first.subjects, r.subjects[k].name);
        }
      }
      r
  }

  /** A name found among some subjects is still found once more are appended. */
  lemma PrefixKeepsName(a: seq<Subject>, b: seq<Subject>, name: string)
    requires |a| <= |b| && b[..|a|] == a
    ensures HasSubjectNamed(a, name) ==> HasSubjectNamed(b, name)
  {
    if HasSubjectNamed(a, name) {
      var k :| 0 <= k < |a| && a[k].name == name;
      assert b[k] == a[k];
    }
  }

  /** Names that all have a subject already create nothing. */
  lemma {:induction false} UpsertAllOfKnownNames(db: Db, names: seq<string>)
    requires forall i | 0 <= i < |names| :: HasSubjectNamed(db.subjects, names[i])
    ensures UpsertAll(db, names) == db
    decreases |names|
  {
    if names != [] {
      UpsertAllOfKnownNames(db, names[1..]);
    }
  }

  /** Upserting keeps subject names unique. */
  lemma {:induction false} UpsertAllKeepsNamesUnique(db: Db, names: seq<string>)
    ensures UniqueNames(db.subjects) ==> UniqueNames(UpsertAll(db, names).subjects)
    decreases |names|
  {
    if names != [] {
      var first := Upsert(db, names[0]);
      if UniqueNames(db.subjects) && !HasSubjectNamed(db.subjects, names[0]) {
        assert forall j | 0 <= j < |db.subjects| :: db.subjects[j].name != names[0];
        assert forall j | 0 <= j < |db.subjects| :: first.subjects[j] == db.subjects[j];
      }
      UpsertAllKeepsNamesUnique(first, names[1..]);
    }
  }

  // ----- 3. to 5. Re-pointing the rows -----

  /** `new Map(subjects.map(s => [s.name, s.id]))`: name to id, a later subject
      overriding an earlier one of the same name. */
  function SubjectMap(subjects: seq<Subject>): (m: map<string, Id>)
    ensures |subjects| > 0 ==> subjects[|subjects| - 1].name in m && m[subjects[|subjects| - 1].name] == subjects[|subjects| - 1].id
    decreases |subjects|
  {
    if subjects == [] then map[]
    else
      var n := |subjects| - 1;
      SubjectMap(subjects[..n])[subjects[n].name := subjects[n].id]
  }

  /** The map's keys are exactly the subjects' names, and each key maps to the
      id of a subject with that name. */
  lemma {:induction false} SubjectMapEntries(subjects: seq<Subject>)
    ensures forall k | 0 <= k < |subjects| :: subjects[k].name in SubjectMap(subjects)
    ensures forall name | name in SubjectMap(subjects) ::
      exists k | 0 <= k < |subjects| :: subjects[k].name == name && subjects[k].id == SubjectMap(subjects)[name]
    decreases |subjects|
  {
    if subjects != [] {
      var n := |subjects| - 1;
      var prefix := subjects[..n];
      SubjectMapEntries(prefix);
      var m := SubjectMap(subjects);
      assert forall k | 0 <= k < n :: prefix[k] == subjects[k];
      forall name | name in m
        ensures exists k | 0 <= k < |subjects| :: subjects[k].name == name && subjects[k].id == m[name]
      {
        if name != subjects[n].name {
          var k :| 0 <= k < n && prefix[k].name == name && prefix[k].id == SubjectMap(prefix)[name];
          assert subjects[k] == prefix[k];
        }
      }
    }
  }

  /** With unique names, each subject's name maps to that subject's id. */
  lemma {:induction false} SubjectMapOfUniqueNames(subjects: seq<Subject>)
    requires UniqueNames(subjects)
    ensures forall k | 0 <= k < |subjects| ::
      subjects[k].name in SubjectMap(subjects) && SubjectMap(subjects)[subjects[k].name] == subjects[k].id
    decreases |subjects|
  {
    if subjects != [] {
      var n := |subjects| - 1;
      var prefix := subjects[..n];
      assert forall k | 0 <= k < n :: prefix[k] == subjects[k];
      SubjectMapOfUniqueNames(prefix);
      SubjectMapEntries(prefix);
    }
  }

  /** One update loop: a row with a non-empty name the map knows gets that
      name's id; every other row is not touched. */
  function Reassign(rows: seq<Row>, m: map<string, Id>): (r: seq<Row>)
    ensures |r| == |rows|
    ensures SubjectColumn(r) == SubjectColumn(rows)
    ensures forall i | 0 <= i < |rows| :: r[i].id == rows[i].id && r[i].subject == rows[i].subject
    ensures forall i | 0 <= i < |rows| && HasName(rows[i]) && rows[i].subject.value in m ::
      r[i].subjectId == Some(m[rows[i].subject.value])
    ensures forall i | 0 <= i < |rows| && !(HasName(rows[i]) && rows[i].subject.value in m) :: r[i] == rows[i]
  {
    var r := seq(|rows|, i requires 0 <= i < |rows| =>
      if HasName(rows[i]) && rows[i].subject.value in m then rows[i].(subjectId := Some(m[rows[i].subject.value]))
      else rows[i]);
    assert SubjectColumn(r) == SubjectColumn(rows) by {
      assert forall i | 0 <= i < |rows| :: SubjectColumn(r)[i] == SubjectColumn(rows)[i];
    }
    r
  }

  /** `main`: collect, upsert, then re-point sessions, lessons and exams. */
  function Migrate(db: Db): (r: Db)
    ensures |db.subjects| <= |r.subjects| && r.subjects[..|db.subjects|] == db.subjects
    ensures forall k | |db.subjects| <= k < |r.subjects| ::
      && r.subjects[k].color == LessonStore.DefaultSubjectColor
      && r.subjects[k].name in CollectNames(db)
      && !HasSubjectNamed(db.subjects, r.subjects[k].name)
    ensures forall i | 0 <= i < |CollectNames(db)| :: HasSubjectNamed(r.subjects, CollectNames(db)[i])
    ensures UniqueNames(db.subjects) ==> UniqueNames(r.subjects)
    ensures SubjectColumn(r.sessions) == SubjectColumn(db.sessions)
    ensures SubjectColumn(r.lessons) == SubjectColumn(db.lessons)
    ensures SubjectColumn(r.exams) == SubjectColumn(db.exams)
  {
    var upserted := UpsertAll(db, CollectNames(db));
    UpsertAllKeepsNamesUnique(db, CollectNames(db));
    var m := SubjectMap(upserted.subjects);
    upserted.(sessions := Reassign(db.sessions, m), lessons := Reassign(db.lessons, m), exams := Reassign(db.exams, m))
  }

  /** The row carries the id of the one subject bearing its name. */
  ghost predicate PointsAtItsSubject(row: Row, subjects: seq<Subject>) {
    HasName(row) ==> forall k | 0 <= k < |subjects| && subjects[k].name == row.subject.value :: row.subjectId == Some(subjects[k].id)
  }

  lemma ReassignedRowsPointAtTheirSubject(before: seq<Row>, names: seq<string>, subjects: seq<Subject>)
    requires UniqueNames(subjects)
    requires forall j | 0 <= j < |before| && HasName(before[j]) :: before[j].subject.value in names
    requires forall i | 0 <= i < |names| :: HasSubjectNamed(subjects, names[i])
    ensures forall j | 0 <= j < |before| :: PointsAtItsSubject(Reassign(before, SubjectMap(subjects))[j], subjects)
    ensures forall j | 0 <= j < |before| && !HasName(before[j]) :: Reassign(before, SubjectMap(subjects))[j] == before[j]
  {
    var m := SubjectMap(subjects);
    var after := Reassign(before, m);
    SubjectMapEntries(subjects);
    SubjectMapOfUniqueNames(subjects);
    forall j | 0 <= j < |before| && HasName(before[j])
      ensures before[j].subject.value in m
    {
      var name := before[j].subject.value;
      var i :| 0 <= i < |names| && names[i] == name;
      var k :| 0 <= k < |subjects| && subjects[k].name == name;
    }
  }

  /** After the migration, with subject names unique as the schema demands,
      every row with a non-empty name points at the subject of that name,
      and rows with a null or empty name are exactly as before. */
  lemma MigratedRowsPointAtTheirSubject(db: Db)
    requires UniqueNames(db.subjects)
    ensures var r := Migrate(db);
      && (forall j | 0 <= j < |r.sessions| :: PointsAtItsSubject(r.sessions[j], r.subjects))
      && (forall j | 0 <= j < |r.lessons| :: PointsAtItsSubject(r.lessons[j], r.subjects))
      && (forall j | 0 <= j < |r.exams| :: PointsAtItsSubject(r.exams[j], r.subjects))
    ensures var r := Migrate(db);
      && (forall j | 0 <= j < |db.sessions| && !HasName(db.sessions[j]) :: r.sessions[j] == db.sessions[j])
      && (forall j | 0 <= j < |db.lessons| && !HasName(db.lessons[j]) :: r.lessons[j] == db.lessons[j])
      && (forall j | 0 <= j < |db.exams| && !HasName(db.exams[j]) :: r.exams[j] == db.exams[j])
  {
    var names := CollectNames(db);
    var subjects := UpsertAll(db, names).subjects;
    CollectNamesCoversRows(db);
    UpsertAllKeepsNamesUnique(db, names);
    ReassignedRowsPointAtTheirSubject(db.sessions, names, subjects);
    ReassignedRowsPointAtTheirSubject(db.lessons, names, subjects);
    ReassignedRowsPointAtTheirSubject(db.exams, names, subjects);
  }

  /** Running the migration again changes nothing: no further subjects, and
      every row already points where it would be pointed. */
  lemma MigrateIsIdempotent(db: Db)
    ensures Migrate(Migrate(db)) == Migrate(db)
  {
    var once := Migrate(db);
    var names := CollectNames(db);
    assert CollectNames(once) == names;
    var m := SubjectMap(once.subjects);
    UpsertAllOfKnownNames(once, names);
    forall rows | rows in {db.sessions, db.lessons, db.exams}
      ensures Reassign(Reassign(rows, m), m) == Reassign(rows, m)
    {
      var a := Reassign(rows, m);
      assert forall i | 0 <= i < |a| :: Reassign(a, m)[i] == a[i];
    }
  }
}
