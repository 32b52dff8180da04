/**
 * The student repository over the students table. Its entity leaves out
 * the link to the user; `save` writes only the four profile columns, so a
 * student it inserts is linked to no user. Besides the usual look-ups it
 * offers a grade filter and a bulk seed that only runs on an empty table.
 */
module StudentRepo {
  import opened Base
  import opened Store

  /** The repository's entity: a row without its `userId`. */
  datatype StudentEntity = StudentEntity(id: string, name: string, age: int, grade: int, isActive: bool, createdAt: int)

  /** `toEntity(row)`. */
  function EntityOf(row: StudentRow): StudentEntity {
    StudentEntity(row.id, row.name, row.age, row.grade, row.isActive, row.createdAt)
  }

  /** `rows.map(toEntity)`. */
  function EntitiesOf(rows: seq<StudentRow>): (r: seq<StudentEntity>)
    ensures |r| == |rows|
    ensures forall i :: 0 <= i < |rows| ==> r[i] == EntityOf(rows[i])
  {
    if rows == [] then [] else [EntityOf(rows[0])] + EntitiesOf(rows[1..])
  }

  datatype StudentPartial = StudentPartial(
    id: Option<string>,
    name: Option<string>,
    age: Option<int>,
    grade: Option<int>,
    isActive: Option<bool>,
    createdAt: Option<int>)

  const NoStudentFields := StudentPartial(None, None, None, None, None, None)

  function StudentPartialOf(e: StudentEntity): StudentPartial {
    StudentPartial(Some(e.id), Some(e.name), Some(e.age), Some(e.grade), Some(e.isActive), Some(e.createdAt))
  }

  // ---------------------------------------------------------------------
  // In-memory construction

  /** `create(data)`: name '' , age and grade 0, active, and `now`, for whatever is missing. */
  function NewStudent(data: StudentPartial, now: int): StudentEntity {
    StudentEntity(data.id.GetOr(""), data.name.GetOr(""), data.age.GetOr(0), data.grade.GetOr(0),
                  data.isActive.GetOr(true), data.createdAt.GetOr(now))
  }

  lemma NewStudentDefaults(now: int)
    ensures NewStudent(NoStudentFields, now) == StudentEntity("", "", 0, 0, true, now)
    ensures forall e :: NewStudent(StudentPartialOf(e), now) == e
  {
  }

  /** `merge(entity, data)`: every field present in `data` overrides the entity's. */
  function MergedStudent(e: StudentEntity, data: StudentPartial): StudentEntity {
    StudentEntity(data.id.GetOr(e.id), data.name.GetOr(e.name), data.age.GetOr(e.age), data.grade.GetOr(e.grade),
                  data.isActive.GetOr(e.isActive), data.createdAt.GetOr(e.createdAt))
  }

  lemma MergedStudentMeaning(e: StudentEntity, data: StudentPartial)
    ensures MergedStudent(e, NoStudentFields) == e
    ensures MergedStudent(MergedStudent(e, data), data) == MergedStudent(e, data)
    ensures forall f :: MergedStudent(e, StudentPartialOf(f)) == f
    ensures data.id.None? ==> MergedStudent(e, data).id == e.id
  {
  }

  // ---------------------------------------------------------------------
  // Queries

  /** A where clause over the plain columns: each present key must be equal. */
  datatype StudentKeys = StudentKeys(id: Option<string>, name: Option<string>, age: Option<int>, grade: Option<int>, isActive: Option<bool>)

  const AnyStudent := StudentKeys(None, None, None, None, None)

  predicate MeetsStudentKeys(w: StudentKeys, s: StudentRow) {
    && (w.id.Some? ==> s.id == w.id.value)
    && (w.name.Some? ==> s.name == w.name.value)
    && (w.age.Some? ==> s.age == w.age.value)
    && (w.grade.Some? ==> s.grade == w.grade.value)
    && (w.isActive.Some? ==> s.isActive == w.isActive.value)
  }

  function StudentKeysMatch(w: StudentKeys): StudentRow -> bool {
    (s: StudentRow) => MeetsStudentKeys(w, s)
  }

  /** The clause `find` spreads together: the id only when it is a non-empty string, the others when not null. */
  function FindWhere(where: StudentPartial): StudentKeys {
    StudentKeys(if Truthy(where.id) then where.id else None, where.name, where.age, where.grade, where.isActive)
  }

  /** The clause `findOneBy` assigns: every non-null criterion, an empty id included. */
  function FindOneByWhere(crit: StudentPartial): StudentKeys {
    StudentKeys(crit.id, crit.name, crit.age, crit.grade, crit.isActive)
  }

  /** The sort direction each `order` entry asks for: 'DESC' is descending, anything else ascending. */
  datatype Direction = Asc | Desc

  function OrderByOf(order: seq<(string, string)>): (r: seq<(string, Direction)>)
    ensures |r| == |order|
    ensures forall i :: 0 <= i < |order| ==> r[i].0 == order[i].0 && (r[i].1 == Desc <==> order[i].1 == "DESC")
  {
    if order == [] then []
    else [(order[0].0, if order[0].1 == "DESC" then Desc else Asc)] + OrderByOf(order[1..])
  }

  /** The options of `find`. */
  datatype FindOptions = FindOptions(where: Option<StudentPartial>, order: Option<seq<(string, string)>>)

  /** The rows `find` returns, before any ordering: those meeting the clause, or all when no clause is given. */
  function FoundStudents(students: seq<StudentRow>, options: Option<FindOptions>): seq<StudentRow> {
    if options.Some? && options.value.where.Some? then Filter(students, StudentKeysMatch(FindWhere(options.value.where.value)))
    else students
  }

  /**
   * `find` keeps exactly the rows equal on every given field, where an empty
   * id counts as not given; no options, no clause and an empty clause all
   * return the whole table.
   */
  lemma FoundStudentsMeaning(students: seq<StudentRow>, where: StudentPartial, order: Option<seq<(string, string)>>)
    ensures var found := FoundStudents(students, Some(FindOptions(Some(where), order)));
      forall s :: s in found <==> s in students && MeetsStudentKeys(FindWhere(where), s)
    ensures FoundStudents(students, Some(FindOptions(Some(NoStudentFields), order))) == students
    ensures FoundStudents(students, Some(FindOptions(Some(where.(id := Some(""))), order)))
         == FoundStudents(students, Some(FindOptions(Some(where.(id := None)), order)))
    ensures FoundStudents(students, None) == students
  {
    forall s {
      FilterMembership(students, StudentKeysMatch(FindWhere(where)), s);
    }
    FilterAllOrNone(students, StudentKeysMatch(FindWhere(NoStudentFields)));
    assert FindWhere(where.(id := Some(""))) == FindWhere(where.(id := None));
  }

  /** The student `findOneBy(criteria)` returns. */
  function FirstStudentMeeting(students: seq<StudentRow>, crit: StudentPartial): (r: Option<StudentRow>)
    ensures r.Some? ==> r.value in students && MeetsStudentKeys(FindOneByWhere(crit), r.value)
    ensures r.None? <==> forall i :: 0 <= i < |students| ==> !MeetsStudentKeys(FindOneByWhere(crit), students[i])
  {
    FindFirstAt(students, StudentKeysMatch(FindOneByWhere(crit)));
    FindFirst(students, StudentKeysMatch(FindOneByWhere(crit)))
  }

  /**
   * A look-up by id alone is the table's look-up by id, and, unlike `find`,
   * an empty id is a real criterion: it matches no row when no row has an empty id.
   */
  lemma FirstStudentMeetingById(students: seq<StudentRow>, id: string)
    ensures FirstStudentMeeting(students, NoStudentFields.(id := Some(id))) == StudentRowById(students, id)
    ensures (forall i :: 0 <= i < |students| ==> students[i].id != "") ==>
      FirstStudentMeeting(students, NoStudentFields.(id := Some(""))) == None
  {
    FindFirstPointwise(students, StudentKeysMatch(FindOneByWhere(NoStudentFields.(id := Some(id)))),
                       (s: StudentRow) => s.id == id);
  }

  function Reaching(minGrade: int): StudentRow -> bool {
    (s: StudentRow) => s.grade >= minGrade
  }

  /** `findWithGradeGreaterOrEqual(minGrade)`: the students whose grade reaches the bound, in `createdAt` order. */
  function GradeAtLeast(students: seq<StudentRow>, minGrade: int): seq<StudentRow> {
    Filter(students, Reaching(minGrade))
  }

  lemma GradeAtLeastMeaning(students: seq<StudentRow>, minGrade: int)
    ensures forall s :: s in GradeAtLeast(students, minGrade) <==> s in students && s.grade >= minGrade
    ensures forall i :: 0 <= i < |GradeAtLeast(students, minGrade)| ==> GradeAtLeast(students, minGrade)[i].grade >= minGrade
  {
    forall s {
      FilterMembership(students, Reaching(minGrade), s);
    }
  }

  /** Raising the bound never adds a student. */
  lemma {:induction false} GradeAtLeastMonotone(students: seq<StudentRow>, lo: int, hi: int)
    requires lo <= hi
    ensures GradeAtLeast(students, hi) == Filter(GradeAtLeast(students, lo), Reaching(hi))
  {
    if students != [] {
      GradeAtLeastMonotone(students[1..], lo, hi);
    }
  }

  // ---------------------------------------------------------------------
  // Writes

  predicate HasStudent(students: seq<StudentRow>, id: string) {
    exists i :: 0 <= i < |students| && students[i].id == id
  }

  /** The columns `save` writes: the user link is not among them. */
  datatype StudentPayload = StudentPayload(name: string, age: int, grade: int, isActive: bool)

  function StudentPayloadOf(e: StudentEntity): StudentPayload {
    StudentPayload(e.name, e.age, e.grade, e.isActive)
  }

  function WithStudentPayload(s: StudentRow, p: StudentPayload): StudentRow {
    s.(name := p.name, age := p.age, grade := p.grade, isActive := p.isActive)
  }

  function RewrittenStudents(students: seq<StudentRow>, id: string, p: StudentPayload): (r: seq<StudentRow>)
    ensures |r| == |students|
    ensures forall i :: 0 <= i < |students| && students[i].id == id ==> r[i] == WithStudentPayload(students[i], p)
    ensures forall i :: 0 <= i < |students| && students[i].id != id ==> r[i] == students[i]
  {
    if students == [] then []
    else
      [if students[0].id == id then WithStudentPayload(students[0], p) else students[0]]
      + RewrittenStudents(students[1..], id, p)
  }

  /** The row an insert stores: a generated id, the creation time, and no user. */
  function InsertedStudent(p: StudentPayload, id: string, now: int): StudentRow {
    StudentRow(id, None, p.name, p.age, p.grade, p.isActive, now)
  }

  /** `save(entity)`: update by a non-empty id (failing when no row has it), else insert. */
  function SaveStudentOutcome(students: seq<StudentRow>, e: StudentEntity, freshId: string, now: int)
    : (Result<StudentEntity>, seq<StudentRow>)
  {
    if e.id != "" then
      match StudentRowById(students, e.id)
      case None => (Failure(RecordNotFound), students)
      case Some(stored) =>
        var row := WithStudentPayload(stored, StudentPayloadOf(e));
        (Success(EntityOf(row)), RewrittenStudents(students, e.id, StudentPayloadOf(e)))
    else
      var row := InsertedStudent(StudentPayloadOf(e), freshId, now);
      (Success(EntityOf(row)), students + [row])
  }

  lemma {:induction false} RewrittenStudentsById(students: seq<StudentRow>, id: string, p: StudentPayload)
    ensures StudentRowById(RewrittenStudents(students, id, p), id) ==
      match StudentRowById(students, id)
      case None => None
      case Some(s) => Some(WithStudentPayload(s, p))
  {
    if students != [] {
      RewrittenStudentsById(students[1..], id, p);
      assert RewrittenStudents(students, id, p)[1..] == RewrittenStudents(students[1..], id, p);
    }
  }

  /**
   * An update writes name, age, grade and active flag and nothing else: the
   * stored id, creation time and user link are kept, other rows are
   * untouched. A missing row fails unchanged.
   */
  lemma SaveStudentUpdateMeaning(students: seq<StudentRow>, e: StudentEntity, freshId: string, now: int)
    requires e.id != ""
    ensures var (r, ss) := SaveStudentOutcome(students, e, freshId, now);
      && (r.Failure? <==> !HasStudent(students, e.id))
      && (r.Failure? ==> r.error == RecordNotFound && ss == students)
      && (r.Success? ==>
           var stored := StudentRowById(students, e.id).value;
           && StudentRowById(ss, e.id) == Some(WithStudentPayload(stored, StudentPayloadOf(e)))
           && r.value == EntityOf(WithStudentPayload(stored, StudentPayloadOf(e)))
           && r.value.id == e.id && r.value.createdAt == stored.createdAt
           && |ss| == |students|
           && forall i :: 0 <= i < |students| && students[i].id != e.id ==> ss[i] == students[i])
  {
    FindFirstAt(students, (s: StudentRow) => s.id == e.id);
    RewrittenStudentsById(students, e.id, StudentPayloadOf(e));
  }

  /** An entity without id is appended under the generated id, with no user link. */
  lemma SaveStudentInsertMeaning(students: seq<StudentRow>, e: StudentEntity, freshId: string, now: int)
    requires e.id == ""
    requires forall i :: 0 <= i < |students| ==> students[i].id != freshId
    ensures var (r, ss) := SaveStudentOutcome(students, e, freshId, now);
      && ss == students + [InsertedStudent(StudentPayloadOf(e), freshId, now)]
      && r == Success(EntityOf(ss[|students|]))
      && StudentRowById(ss, freshId) == Some(ss[|students|])
      && ss[|students|].userId.None?
  {
    var row := InsertedStudent(StudentPayloadOf(e), freshId, now);
    FindFirstAt(students, (s: StudentRow) => s.id == freshId);
    FindFirstAppend(students, [row], (s: StudentRow) => s.id == freshId);
  }

  /** `delete(id)`: the row and its enrollments go when it existed (affected 1); otherwise affected 0 and nothing changes. */
  function DeleteStudentOutcome(t: Tables, id: string): (nat, Tables) {
    if !HasStudent(t.students, id) then (0, t)
    else
      (1, t.(students := Filter(t.students, (s: StudentRow) => s.id != id),
             enrollments := set p | p in t.enrollments && p.1 != id))
  }

  lemma DeleteStudentMeaning(t: Tables, id: string)
    ensures var (affected, t') := DeleteStudentOutcome(t, id);
      && (affected == 1 <==> HasStudent(t.students, id))
      && (affected == 0 <==> !HasStudent(t.students, id))
      && (affected == 0 ==> t' == t)
      && (forall s :: s in t'.students <==> s in t.students && (affected == 1 ==> s.id != id))
      && (forall p :: p in t'.enrollments <==> p in t.enrollments && (affected == 1 ==> p.1 != id))
      && t'.users == t.users && t'.teachers == t.teachers && t'.courses == t.courses
  {
    forall s {
      FilterMembership(t.students, (s: StudentRow) => s.id != id, s);
    }
  }

  /** The first column a seed item is missing, among those `createMany` needs. */
  function MissingColumn(item: StudentPartial): Option<string> {
    if item.name.None? then Some("name")
    else if item.age.None? then Some("age")
    else if item.grade.None? then Some("grade")
    else None
  }

  predicate Complete(item: StudentPartial) {
    item.name.Some? && item.age.Some? && item.grade.Some?
  }

  /** The row `createMany` stores for one item: its own id when it has a non-empty one, else a generated one. */
  function SeedRow(item: StudentPartial, generated: string, now: int): StudentRow
    requires Complete(item)
  {
    StudentRow(if Truthy(item.id) then item.id.value else generated, None,
               item.name.value, item.age.value, item.grade.value, item.isActive.GetOr(true), now)
  }

  function SeedRows(data: seq<StudentPartial>, generated: seq<string>, now: int): (r: seq<StudentRow>)
    requires |generated| == |data|
    requires forall i :: 0 <= i < |data| ==> Complete(data[i])
    ensures |r| == |data|
    ensures forall i :: 0 <= i < |data| ==> r[i] == SeedRow(data[i], generated[i], now)
  {
    if data == [] then [] else [SeedRow(data[0], generated[0], now)] + SeedRows(data[1..], generated[1..], now)
  }

  /** The first incomplete item's missing column, if any item is incomplete. */
  function FirstMissing(data: seq<StudentPartial>): (r: Option<string>)
    ensures r.None? <==> forall i :: 0 <= i < |data| ==> Complete(data[i])
  {
    if data == [] then None
    else if MissingColumn(data[0]).Some? then MissingColumn(data[0])
    else
      assert forall i :: 1 <= i < |data| ==> data[i] == data[1..][i - 1];
      FirstMissing(data[1..])
  }

  /**
   * `seedIfEmpty(data)`: nothing happens when the table has a row;
   * otherwise every item is inserted in one statement, which fails as a
   * whole when an item lacks name, age or grade.
   */
  function SeedOutcome(students: seq<StudentRow>, data: seq<StudentPartial>, generated: seq<string>, now: int)
    : (Result<()>, seq<StudentRow>)
    requires |generated| == |data|
  {
    if |students| > 0 then (Success(()), students)
    else match FirstMissing(data)
      case Some(column) => (Failure(MissingField(column)), students)
      case None => (Success(()), SeedRows(data, generated, now))
  }

  /** Seeding is a no-op on a non-empty table, so seeding twice is seeding once when the first call inserted a row. */
  lemma SeedIfEmptyMeaning(students: seq<StudentRow>, data: seq<StudentPartial>, generated: seq<string>, now: int)
    requires |generated| == |data|
    ensures |students| > 0 ==> SeedOutcome(students, data, generated, now) == (Success(()), students)
    ensures students == [] && (forall i :: 0 <= i < |data| ==> Complete(data[i])) ==>
      var ss := SeedOutcome(students, data, generated, now).1;
      && |ss| == |data|
      && forall i :: 0 <= i < |data| ==>
           && ss[i].name == data[i].name.value && ss[i].age == data[i].age.value && ss[i].grade == data[i].grade.value
           && ss[i].isActive == data[i].isActive.GetOr(true) && ss[i].userId.None?
    ensures var (r, ss) := SeedOutcome(students, data, generated, now);
      data != [] && r.Success? ==> SeedOutcome(ss, data, generated, now) == (Success(()), ss)
  {
  }

  class StudentRepositoryPrisma {
    const db: Database

    constructor (db: Database)
      ensures this.db == db
    {
      this.db := db;
    }

    method Save(entity: StudentEntity, freshId: string, now: int) returns (r: Result<StudentEntity>)
      modifies db`students
      ensures (r, db.students) == SaveStudentOutcome(old(db.students), entity, freshId, now)
    {
      var payload := StudentPayloadOf(entity);
      if entity.id != "" {
        var stored := StudentRowById(db.students, entity.id);
        if stored.None? {
          return Failure(RecordNotFound);
        }
        db.students := RewrittenStudents(db.students, entity.id, payload);
        return Success(EntityOf(WithStudentPayload(stored.value, payload)));
      }
      var created := InsertedStudent(payload, freshId, now);
      db.students := db.students + [created];
      r := Success(EntityOf(created));
    }

    /** `find(options)`: the filtered rows as entities; the order the options ask for is computed but not applied. */
    method Find(options: Option<FindOptions>) returns (r: seq<StudentEntity>, orderBy: Option<seq<(string, Direction)>>)
      ensures r == EntitiesOf(FoundStudents(db.students, options))
      ensures orderBy == if options.Some? && options.value.order.Some? then Some(OrderByOf(options.value.order.value)) else None
    {
      var where := if options.Some? && options.value.where.Some? then Some(FindWhere(options.value.where.value)) else None;
      orderBy := if options.Some? && options.value.order.Some? then Some(OrderByOf(options.value.order.value)) else None;
      var rows := if where.Some? then Filter(db.students, StudentKeysMatch(where.value)) else db.students;
      r := EntitiesOf(rows);
    }

    /** `findOneBy(criteria)`: the where object is filled field by field from the non-null criteria. */
    method FindOneBy(criteria: StudentPartial) returns (r: Option<StudentEntity>)
      ensures r == match FirstStudentMeeting(db.students, criteria)
                   case None => None
                   case Some(row) => Some(EntityOf(row))
    {
      var where := AnyStudent;
      if criteria.id.Some? { where := where.(id := criteria.id); }
      if criteria.name.Some? { where := where.(name := criteria.name); }
      if criteria.age.Some? { where := where.(age := criteria.age); }
      if criteria.grade.Some? { where := where.(grade := criteria.grade); }
      if criteria.isActive.Some? { where := where.(isActive := criteria.isActive); }
      assert where == FindOneByWhere(criteria);
      var row := FindFirst(db.students, StudentKeysMatch(where));
      r := if row.Some? then Some(EntityOf(row.value)) else None;
    }

    /** `delete(id)`: any failure of the underlying delete is reported as 0 affected rows. */
    method Delete(id: string) returns (affected: nat)
      modifies db`students, db`enrollments
      ensures (affected, db.Snapshot()) == DeleteStudentOutcome(old(db.Snapshot()), id)
    {
      if !(exists i :: 0 <= i < |db.students| && db.students[i].id == id) {
        return 0;
      }
      db.students := Filter(db.students, (s: StudentRow) => s.id != id);
      db.enrollments := set p | p in db.enrollments && p.1 != id;
      affected := 1;
    }

    method Count() returns (n: nat)
      ensures n == |db.students|
    {
      n := |db.students|;
    }

    method FindWithGradeGreaterOrEqual(minGrade: int) returns (r: seq<StudentEntity>)
      ensures r == EntitiesOf(GradeAtLeast(db.students, minGrade))
    {
      r := EntitiesOf(Filter(db.students, Reaching(minGrade)));
    }

    /** `seedIfEmpty(data)`, with `generated` the ids the database would give the items without one. */
    method SeedIfEmpty(data: seq<StudentPartial>, generated: seq<string>, now: int) returns (r: Result<()>)
      requires |generated| == |data|
      modifies db`students
      ensures (r, db.students) == SeedOutcome(old(db.students), data, generated, now)
    {
      var count := |db.students|;
      if count > 0 {
        return Success(());
      }
      var missing := FirstMissing(data);
      if missing.Some? {
        return Failure(MissingField(missing.value));
      }
      db.students := SeedRows(data, generated, now);
      r := Success(());
    }
  }
}
