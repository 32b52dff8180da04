/**
 * The course repository over the courses table: the search/teacher filter
 * shared by listing and counting, the look-up by optional criteria, the
 * in-memory `create` and `merge`, the insert-or-update `save`, and a
 * `delete` that reports how many rows it removed.
 */
module CourseRepo {
  import opened Base
  import opened Store

  /** A partial course: the `Partial<CourseModel>` the repository accepts. */
  datatype CoursePartial = CoursePartial(
    id: Option<string>,
    title: Option<string>,
    code: Option<string>,
    createdAt: Option<int>,
    teacherId: Option<string>)

  const NoCourseFields := CoursePartial(None, None, None, None, None)

  /** Every field of a model, as a partial. */
  function PartialOf(c: Course): CoursePartial {
    CoursePartial(Some(c.id), Some(c.title), Some(c.code), Some(c.createdAt), Some(c.teacherId))
  }

  // ---------------------------------------------------------------------
  // Filters

  /** The listing options: a free-text search and a teacher to restrict to. */
  datatype CourseFilter = CourseFilter(search: Option<string>, teacherId: Option<string>)

  /** One conjunct of the `AND` list `buildWhere` assembles. */
  datatype CourseCondition =
    | TeacherIs(teacherId: string)
    | TitleOrCodeContains(term: string)

  predicate Holds(cond: CourseCondition, c: Course) {
    match cond
    case TeacherIs(t) => c.teacherId == t
    case TitleOrCodeContains(term) => ContainsInsensitive(c.title, term) || ContainsInsensitive(c.code, term)
  }

  /** A row passes a where clause when it satisfies every conjunct; no clause lets every row through. */
  predicate Matches(w: Option<seq<CourseCondition>>, c: Course) {
    w.None? || AllHold(w.value, c)
  }

  predicate AllHold(conds: seq<CourseCondition>, c: Course) {
    conds == [] || (Holds(conds[0], c) && AllHold(conds[1..], c))
  }

  /** The clause `buildWhere(options)` returns. */
  function WhereFor(options: Option<CourseFilter>): Option<seq<CourseCondition>> {
    if options.None? then None
    else
      var o := options.value;
      var conds := Conditions(o);
      if conds == [] then None else Some(conds)
  }

  /** The teacher conjunct, when a teacher id is given, then the search conjunct, when a term is. */
  function Conditions(o: CourseFilter): seq<CourseCondition> {
    (if Truthy(o.teacherId) then [TeacherIs(o.teacherId.value)] else [])
      + (if SearchTerm(o.search).Some? then [TitleOrCodeContains(SearchTerm(o.search).value)] else [])
  }

  /** What the filter means for one course, independently of how the clause is represented. */
  predicate Selected(options: Option<CourseFilter>, c: Course) {
    options.Some? ==>
      && (Truthy(options.value.teacherId) ==> c.teacherId == options.value.teacherId.value)
      && (SearchTerm(options.value.search).Some? ==>
           var term := SearchTerm(options.value.search).value;
           ContainsInsensitive(c.title, term) || ContainsInsensitive(c.code, term))
  }

  /**
   * A course passes the built clause exactly when it has the requested
   * teacher (if one is given) and its title or code contains the trimmed
   * search term, ignoring case (if the search is not blank).
   */
  lemma WhereForMeaning(options: Option<CourseFilter>, c: Course)
    ensures Matches(WhereFor(options), c) <==> Selected(options, c)
  {
    if options.Some? {
      var o := options.value;
      var t := SearchTerm(o.search);
      var conds := Conditions(o);
      if Truthy(o.teacherId) && t.Some? {
        assert conds == [TeacherIs(o.teacherId.value)] + [TitleOrCodeContains(t.value)];
        assert conds[1..] == [TitleOrCodeContains(t.value)];
        assert conds[1..][1..] == [];
        assert WhereFor(options) == Some(conds);
        assert AllHold(conds[1..], c) <==> Holds(TitleOrCodeContains(t.value), c);
        assert AllHold(conds, c) <==> c.teacherId == o.teacherId.value && Holds(TitleOrCodeContains(t.value), c);
      } else if Truthy(o.teacherId) {
        assert conds == [TeacherIs(o.teacherId.value)] + [];
        assert conds[1..] == [];
        assert WhereFor(options) == Some(conds);
        assert AllHold(conds, c) <==> c.teacherId == o.teacherId.value;
        assert Selected(options, c) <==> c.teacherId == o.teacherId.value;
      } else if t.Some? {
        assert conds == [] + [TitleOrCodeContains(t.value)];
        assert conds[1..] == [];
        assert WhereFor(options) == Some(conds);
        assert AllHold(conds, c) <==> Holds(TitleOrCodeContains(t.value), c);
      }
    }
  }

  /** No clause is built without options, or when the teacher id is empty and the search blank or absent. */
  lemma WhereForAbsent(options: Option<CourseFilter>)
    ensures WhereFor(options).None? <==>
      (options.None? || (!Truthy(options.value.teacherId) &&
                         (options.value.search.None? || IsBlank(options.value.search.value))))
  {
    if options.Some? {
      SearchTermMeaning(options.value.search);
      WhereForEmpty(options.value);
    }
  }

  lemma WhereForEmpty(o: CourseFilter)
    ensures WhereFor(Some(o)).None? <==> !Truthy(o.teacherId) && SearchTerm(o.search).None?
  {
    var t := SearchTerm(o.search);
  }

  /** The rows the filter selects, in `createdAt` order. */
  function CoursesMatching(courses: seq<Course>, options: CourseFilter): (r: seq<Course>)
    ensures forall c :: c in r <==> c in courses && Selected(Some(options), c)
  {
    var p := (c: Course) => Matches(WhereFor(Some(options)), c);
    forall c
      ensures c in Filter(courses, p) <==> c in courses && Selected(Some(options), c)
    {
      FilterMembership(courses, p, c);
      WhereForMeaning(Some(options), c);
    }
    Filter(courses, p)
  }

  /** The options of `findMany`: the window and the filter. */
  datatype CourseFindManyOptions = CourseFindManyOptions(skip: nat, take: nat, search: Option<string>, teacherId: Option<string>)

  function FilterOf(o: CourseFindManyOptions): CourseFilter {
    CourseFilter(o.search, o.teacherId)
  }

  /** The page `findMany` returns. */
  function CoursePage(courses: seq<Course>, o: CourseFindManyOptions): seq<Course> {
    Page(CoursesMatching(courses, FilterOf(o)), o.skip, o.take)
  }

  /**
   * The page and the count use the same filter: the page holds at most
   * `take` selected courses, the ones after the first `skip` of the counted
   * ones, and it is full unless the count runs out.
   */
  lemma PageAgreesWithCount(courses: seq<Course>, o: CourseFindManyOptions)
    ensures var total := |CoursesMatching(courses, FilterOf(o))|;
      |CoursePage(courses, o)| == Min(o.take, if o.skip <= total then total - o.skip else 0)
    ensures forall i :: 0 <= i < |CoursePage(courses, o)| ==>
      CoursePage(courses, o)[i] == CoursesMatching(courses, FilterOf(o))[o.skip + i]
    ensures forall c :: c in CoursePage(courses, o) ==> c in courses && Selected(Some(FilterOf(o)), c)
  {
    PageWithin(CoursesMatching(courses, FilterOf(o)), o.skip, o.take);
  }

  // ---------------------------------------------------------------------
  // Look-up by criteria

  /** The `where` object `findOneBy` assembles: only the id, code and teacher id of the criteria count. */
  datatype CourseKeys = CourseKeys(id: Option<string>, code: Option<string>, teacherId: Option<string>)

  predicate MeetsKeys(w: CourseKeys, c: Course) {
    && (w.id.Some? ==> c.id == w.id.value)
    && (w.code.Some? ==> c.code == w.code.value)
    && (w.teacherId.Some? ==> c.teacherId == w.teacherId.value)
  }

  function KeysMatch(w: CourseKeys): Course -> bool {
    c => MeetsKeys(w, c)
  }

  /** The keys of the criteria: title and creation time are not among them. */
  function KeysOf(crit: CoursePartial): CourseKeys {
    CourseKeys(crit.id, crit.code, crit.teacherId)
  }

  /** A course meets the criteria when it equals every given id, code and teacher id. */
  predicate MeetsCriteria(crit: CoursePartial, c: Course) {
    MeetsKeys(KeysOf(crit), c)
  }

  /** The course `findOneBy(criteria)` returns. */
  function FirstMeeting(courses: seq<Course>, crit: CoursePartial): (r: Option<Course>)
    ensures r.Some? ==> r.value in courses && MeetsCriteria(crit, r.value)
    ensures r.None? <==> forall i :: 0 <= i < |courses| ==> !MeetsCriteria(crit, courses[i])
  {
    FindFirstAt(courses, KeysMatch(KeysOf(crit)));
    FindFirst(courses, KeysMatch(KeysOf(crit)))
  }

  /** Only the fields the `where` object reads matter. */
  lemma FirstMeetingIgnoresTitle(courses: seq<Course>, crit: CoursePartial, title: Option<string>, createdAt: Option<int>)
    ensures FirstMeeting(courses, crit.(title := title, createdAt := createdAt)) == FirstMeeting(courses, crit)
  {
    assert KeysOf(crit.(title := title, createdAt := createdAt)) == KeysOf(crit);
  }

  /** Looking a course up by its id alone is the table's look-up by id. */
  lemma FirstMeetingById(courses: seq<Course>, id: string)
    ensures FirstMeeting(courses, NoCourseFields.(id := Some(id))) == CourseById(courses, id)
  {
    FindFirstPointwise(courses, KeysMatch(KeysOf(NoCourseFields.(id := Some(id)))), (c: Course) => c.id == id);
  }

  // ---------------------------------------------------------------------
  // In-memory construction

  /** `create(data)`: the given fields, an empty string for a missing one, and `now` for a missing creation time. */
  function NewCourse(data: CoursePartial, now: int): Course {
    Course(data.id.GetOr(""), data.title.GetOr(""), data.code.GetOr(""), data.createdAt.GetOr(now), data.teacherId.GetOr(""))
  }

  lemma NewCourseDefaults(data: CoursePartial, now: int)
    ensures NewCourse(PartialOf(NewCourse(data, now)), now) == NewCourse(data, now)
    ensures NewCourse(NoCourseFields, now) == Course("", "", "", now, "")
    ensures forall c :: NewCourse(PartialOf(c), now) == c
  {
  }

  /** `merge(entity, data)`: every field present in `data` overrides the entity's. */
  function Merged(e: Course, data: CoursePartial): Course {
    Course(data.id.GetOr(e.id), data.title.GetOr(e.title), data.code.GetOr(e.code),
           data.createdAt.GetOr(e.createdAt), data.teacherId.GetOr(e.teacherId))
  }

  lemma MergedMeaning(e: Course, data: CoursePartial)
    ensures Merged(e, NoCourseFields) == e
    ensures Merged(Merged(e, data), data) == Merged(e, data)
    ensures forall c :: Merged(e, PartialOf(c)) == c
    ensures data.id.None? ==> Merged(e, data).id == e.id
    ensures data.createdAt.None? ==> Merged(e, data).createdAt == e.createdAt
  {
  }

  // ---------------------------------------------------------------------
  // Writes

  predicate HasCourse(courses: seq<Course>, id: string) {
    exists i :: 0 <= i < |courses| && courses[i].id == id
  }

  /** The columns `save` writes. */
  datatype CoursePayload = CoursePayload(title: string, code: string, teacherId: string)

  function PayloadOf(e: Course): CoursePayload {
    CoursePayload(e.title, e.code, e.teacherId)
  }

  function WithPayload(c: Course, p: CoursePayload): Course {
    c.(title := p.title, code := p.code, teacherId := p.teacherId)
  }

  /** The table after `update({ where: { id }, data: payload })`. */
  function Rewritten(courses: seq<Course>, id: string, p: CoursePayload): (r: seq<Course>)
    ensures |r| == |courses|
    ensures forall i :: 0 <= i < |courses| && courses[i].id == id ==> r[i] == WithPayload(courses[i], p)
    ensures forall i :: 0 <= i < |courses| && courses[i].id != id ==> r[i] == courses[i]
  {
    if courses == [] then []
    else [if courses[0].id == id then WithPayload(courses[0], p) else courses[0]] + Rewritten(courses[1..], id, p)
  }

  /** The row an insert stores: the generated id and the database's creation time. */
  function InsertedCourse(p: CoursePayload, id: string, now: int): Course {
    Course(id, p.title, p.code, now, p.teacherId)
  }

  /**
   * `save(entity)`: with a non-empty id it updates that row's title, code
   * and teacher id, failing when the row does not exist; with an empty id
   * it inserts a new row. It returns the row as stored.
   */
  function SaveOutcome(courses: seq<Course>, e: Course, freshId: string, now: int): (Result<Course>, seq<Course>) {
    if e.id != "" then
      match CourseById(courses, e.id)
      case None => (Failure(RecordNotFound), courses)
      case Some(stored) => (Success(WithPayload(stored, PayloadOf(e))), Rewritten(courses, e.id, PayloadOf(e)))
    else
      var row := InsertedCourse(PayloadOf(e), freshId, now);
      (Success(row), courses + [row])
  }

  /** The stored row found by id after a rewrite of that id is the rewritten one. */
  lemma {:induction false} RewrittenById(courses: seq<Course>, id: string, p: CoursePayload)
    ensures CourseById(Rewritten(courses, id, p), id) ==
      match CourseById(courses, id)
      case None => None
      case Some(c) => Some(WithPayload(c, p))
  {
    if courses != [] {
      RewrittenById(courses[1..], id, p);
      assert Rewritten(courses, id, p)[1..] == Rewritten(courses[1..], id, p);
    }
  }

  /**
   * An update of an existing row writes exactly the three payload
   * columns: the id and creation time stay the stored ones whatever the
   * entity says, other rows are untouched, and reading the id back gives
   * the returned row. An update of a missing row fails and changes nothing.
   */
  lemma SaveUpdateMeaning(courses: seq<Course>, e: Course, freshId: string, now: int)
    requires e.id != ""
    ensures var (r, cs) := SaveOutcome(courses, e, freshId, now);
      && (r.Failure? <==> !HasCourse(courses, e.id))
      && (r.Failure? ==> r.error == RecordNotFound && cs == courses)
      && (r.Success? ==>
           && r.value.id == e.id && r.value.createdAt == CourseById(courses, e.id).value.createdAt
           && PayloadOf(r.value) == PayloadOf(e)
           && CourseById(cs, e.id) == Some(r.value)
           && |cs| == |courses|
           && forall i :: 0 <= i < |courses| && courses[i].id != e.id ==> cs[i] == courses[i])
  {
    FindFirstAt(courses, (c: Course) => c.id == e.id);
    RewrittenById(courses, e.id, PayloadOf(e));
  }

  /** An entity without id is appended with the generated id, and reading that id back gives it. */
  lemma SaveInsertMeaning(courses: seq<Course>, e: Course, freshId: string, now: int)
    requires e.id == ""
    requires forall i :: 0 <= i < |courses| ==> courses[i].id != freshId
    ensures var (r, cs) := SaveOutcome(courses, e, freshId, now);
      && r == Success(InsertedCourse(PayloadOf(e), freshId, now))
      && cs == courses + [r.value]
      && CourseById(cs, freshId) == Some(r.value)
  {
    var row := InsertedCourse(PayloadOf(e), freshId, now);
    FindFirstAt(courses, (c: Course) => c.id == freshId);
    FindFirstAppend(courses, [row], (c: Course) => c.id == freshId);
  }

  /** The outcome of `delete(id)`: the affected count and the store afterwards. */
  function DeleteOutcome(t: Tables, id: string): (nat, Tables) {
    if !HasCourse(t.courses, id) then (0, t)
    else
      (1, t.(courses := Filter(t.courses, (c: Course) => c.id != id),
             enrollments := set p | p in t.enrollments && p.0 != id))
  }

  /**
   * `delete` reports 1 exactly when a course had the id; then that course
   * and its enrollments are gone and every other course is kept. A failed
   * delete reports 0 and changes nothing.
   */
  lemma DeleteMeaning(t: Tables, id: string)
    ensures var (affected, t') := DeleteOutcome(t, id);
      && (affected == 1 <==> HasCourse(t.courses, id))
      && (affected == 0 <==> !HasCourse(t.courses, id))
      && (affected == 0 ==> t' == t)
      && (forall c :: c in t'.courses <==> c in t.courses && (affected == 1 ==> c.id != id))
      && (forall p :: p in t'.enrollments <==> p in t.enrollments && (affected == 1 ==> p.0 != id))
      && t'.users == t.users && t'.teachers == t.teachers && t'.students == t.students
  {
    forall c {
      FilterMembership(t.courses, (c: Course) => c.id != id, c);
    }
  }

  class CourseRepositoryPrisma {
    const db: Database

    constructor (db: Database)
      ensures this.db == db
    {
      this.db := db;
    }

    /** `buildWhere(options)`: the conjuncts are pushed one by one. */
    method BuildWhere(options: Option<CourseFilter>) returns (w: Option<seq<CourseCondition>>)
      ensures w == WhereFor(options)
    {
      if options.None? {
        return None;
      }
      var and: seq<CourseCondition> := [];
      if options.value.teacherId.Some? && options.value.teacherId.value != "" {
        and := and + [TeacherIs(options.value.teacherId.value)];
      }
      if options.value.search.Some? && Trim(options.value.search.value) != "" {
        var term := Trim(options.value.search.value);
        and := and + [TitleOrCodeContains(term)];
      }
      assert and == Conditions(options.value);
      w := if |and| > 0 then Some(and) else None;
    }

    method FindMany(options: CourseFindManyOptions) returns (r: seq<Course>)
      ensures r == CoursePage(db.courses, options)
    {
      var where := BuildWhere(Some(CourseFilter(options.search, options.teacherId)));
      r := Page(Filter(db.courses, (c: Course) => Matches(where, c)), options.skip, options.take);
    }

    method Count(options: Option<CourseFilter>) returns (n: nat)
      ensures options.Some? ==> n == |CoursesMatching(db.courses, options.value)|
      ensures options.None? ==> n == |db.courses|
    {
      var where := BuildWhere(options);
      if options.None? {
        FilterAllOrNone(db.courses, (c: Course) => Matches(where, c));
      }
      n := |Filter(db.courses, (c: Course) => Matches(where, c))|;
    }

    /** `findOneBy(criteria)`: the where object is filled field by field from the non-null criteria. */
    method FindOneBy(criteria: CoursePartial) returns (r: Option<Course>)
      ensures r == FirstMeeting(db.courses, criteria)
    {
      var where := CourseKeys(None, None, None);
      if criteria.id.Some? { where := where.(id := criteria.id); }
      if criteria.code.Some? { where := where.(code := criteria.code); }
      if criteria.teacherId.Some? { where := where.(teacherId := criteria.teacherId); }
      assert where == CourseKeys(criteria.id, criteria.code, criteria.teacherId);
      r := FindFirst(db.courses, KeysMatch(where));
    }

    method Save(entity: Course, freshId: string, now: int) returns (r: Result<Course>)
      modifies db`courses
      ensures (r, db.courses) == SaveOutcome(old(db.courses), entity, freshId, now)
    {
      var payload := PayloadOf(entity);
      if entity.id != "" {
        var stored := CourseById(db.courses, entity.id);
        if stored.None? {
          return Failure(RecordNotFound);
        }
        db.courses := Rewritten(db.courses, entity.id, payload);
        return Success(WithPayload(stored.value, payload));
      }
      var created := InsertedCourse(payload, freshId, now);
      db.courses := db.courses + [created];
      r := Success(created);
    }

    /** `delete(id)`: any failure of the underlying delete is reported as 0 affected rows. */
    method Delete(id: string) returns (affected: nat)
      modifies db`courses, db`enrollments
      ensures (affected, db.Snapshot()) == DeleteOutcome(old(db.Snapshot()), id)
    {
      if !(exists i :: 0 <= i < |db.courses| && db.courses[i].id == id) {
        return 0;
      }
      db.courses := Filter(db.courses, (c: Course) => c.id != id);
      db.enrollments := set p | p in db.enrollments && p.0 != id;
      affected := 1;
    }
  }
}
