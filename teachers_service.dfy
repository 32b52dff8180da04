/**
 * The teachers service: the paged, searchable listing with its count,
 * look-up, create, update and remove through the teacher repository, and
 * the courses a teacher owns.
 */
module TeachersSvc {
  import opened Base
  import opened Store
  import opened Pagination
  import opened TeacherRepo
  import opened CoursesSvc

  /** `toTeacherResponseDto`; the creation time stays a number. */
  datatype TeacherResponse = TeacherResponse(id: string, fullName: string, email: string, createdAt: int)

  function TeacherResponseOf(t: TeacherRow): TeacherResponse {
    TeacherResponse(t.id, t.fullName, t.email, t.createdAt)
  }

  function TeacherResponsesOf(ts: seq<TeacherRow>): (r: seq<TeacherResponse>)
    ensures |r| == |ts|
    ensures forall i :: 0 <= i < |ts| ==> r[i] == TeacherResponseOf(ts[i])
  {
    if ts == [] then [] else [TeacherResponseOf(ts[0])] + TeacherResponsesOf(ts[1..])
  }

  function TeacherNotFound(id: string): Error {
    NotFound("Teacher " + id + " not found")
  }

  /** The listing query: a page and a limit and a search text. */
  datatype TeacherListQuery = TeacherListQuery(pagination: PaginationQuery, search: Option<string>)

  function TeacherListOptions(q: TeacherListQuery): TeacherFindManyOptions
    requires Validated(q.pagination)
  {
    SkipNonNegative(q.pagination);
    TeacherFindManyOptions(GetSkip(q.pagination), GetTake(q.pagination), q.search)
  }

  /** `findAll(query)`. */
  function TeacherListOutcome(teachers: seq<TeacherRow>, q: TeacherListQuery): (seq<TeacherResponse>, ListMeta)
    requires Validated(q.pagination)
  {
    (TeacherResponsesOf(TeacherPage(teachers, TeacherListOptions(q))),
     ListMeta(q.pagination.page.GetOr(1), q.pagination.limit.GetOr(20), |TeachersMatching(teachers, q.search)|))
  }

  /**
   * The total counts the same search the page is cut from, page and limit
   * default to 1 and 20, and the page's i-th entry is selected teacher skip + i.
   */
  lemma TeacherListMeaning(teachers: seq<TeacherRow>, q: TeacherListQuery)
    requires Validated(q.pagination)
    ensures var (data, meta) := TeacherListOutcome(teachers, q);
      var selected := TeachersMatching(teachers, q.search);
      var skip := GetSkip(q.pagination);
      && meta.total == |selected|
      && meta.page == q.pagination.page.GetOr(1) && meta.limit == q.pagination.limit.GetOr(20)
      && 0 <= skip
      && |data| == Min(meta.limit, if skip <= meta.total then meta.total - skip else 0)
      && (forall i :: 0 <= i < |data| ==> data[i] == TeacherResponseOf(selected[skip + i]))
  {
    SkipNonNegative(q.pagination);
    var o := TeacherListOptions(q);
    assert o.skip == GetSkip(q.pagination) && o.take == q.pagination.limit.GetOr(20);
    TeacherPageAgreesWithCount(teachers, o);
    assert TeacherListOutcome(teachers, q).0 == TeacherResponsesOf(TeacherPage(teachers, o));
  }

  /** `findById(id)`. */
  function TeacherFindOutcome(teachers: seq<TeacherRow>, id: string): Result<TeacherResponse> {
    match FirstTeacherMeeting(teachers, NoTeacherFields.(id := Some(id)))
    case None => Failure(TeacherNotFound(id))
    case Some(t) => Success(TeacherResponseOf(t))
  }

  lemma TeacherFindMeaning(teachers: seq<TeacherRow>, id: string)
    ensures TeacherFindOutcome(teachers, id).Failure? <==> !HasTeacher(teachers, id)
    ensures TeacherFindOutcome(teachers, id).Failure? ==> TeacherFindOutcome(teachers, id).error == TeacherNotFound(id)
    ensures TeacherFindOutcome(teachers, id).Success? ==>
      && TeacherById(teachers, id).Some?
      && TeacherFindOutcome(teachers, id) == Success(TeacherResponseOf(TeacherById(teachers, id).value))
      && TeacherFindOutcome(teachers, id).value.id == id
  {
    FirstTeacherMeetingKeys(teachers, NoTeacherFields, None, id);
    FindFirstAt(teachers, (t: TeacherRow) => t.id == id);
  }

  /** The body of a create request. */
  datatype CreateTeacher = CreateTeacher(fullName: string, email: string)

  /** `create(dto)`: the model is built from the name and email alone, then saved. */
  function TeacherCreateOutcome(teachers: seq<TeacherRow>, dto: CreateTeacher, freshId: string, now: int)
    : (Result<TeacherResponse>, seq<TeacherRow>)
  {
    var model := NewTeacher(NoTeacherFields.(fullName := Some(dto.fullName), email := Some(dto.email)), now);
    var (r, ts) := SaveTeacherOutcome(teachers, model, freshId, now);
    (if r.Success? then Success(TeacherResponseOf(r.value)) else Failure(r.error), ts)
  }

  /**
   * A created teacher is appended under the generated id with the given
   * name and email, and with an empty user id: the service links it to no user.
   */
  lemma TeacherCreateMeaning(teachers: seq<TeacherRow>, dto: CreateTeacher, freshId: string, now: int)
    requires forall i :: 0 <= i < |teachers| ==> teachers[i].id != freshId
    ensures var (r, ts) := TeacherCreateOutcome(teachers, dto, freshId, now);
      var row := TeacherRow(freshId, "", dto.fullName, dto.email, now);
      && ts == teachers + [row]
      && r == Success(TeacherResponseOf(row))
      && TeacherById(ts, freshId) == Some(row)
  {
    var model := NewTeacher(NoTeacherFields.(fullName := Some(dto.fullName), email := Some(dto.email)), now);
    SaveTeacherInsertMeaning(teachers, model, freshId, now);
  }

  /** The body of an update request; absent fields are left as stored. */
  datatype TeacherChanges = TeacherChanges(fullName: Option<string>, email: Option<string>)

  function TeacherChangesPartial(dto: TeacherChanges): TeacherPartial {
    NoTeacherFields.(fullName := dto.fullName, email := dto.email)
  }

  /** `update(id, dto)`. */
  function TeacherUpdateOutcome(teachers: seq<TeacherRow>, id: string, dto: TeacherChanges, freshId: string, now: int)
    : (Result<TeacherResponse>, seq<TeacherRow>)
  {
    match FirstTeacherMeeting(teachers, NoTeacherFields.(id := Some(id)))
    case None => (Failure(TeacherNotFound(id)), teachers)
    case Some(model) =>
      var (r, ts) := SaveTeacherOutcome(teachers, MergedTeacher(model, TeacherChangesPartial(dto)), freshId, now);
      (if r.Success? then Success(TeacherResponseOf(r.value)) else Failure(r.error), ts)
  }

  /**
   * An update of an existing teacher rewrites it with the given name and
   * email, keeping what is not given, its id, user link and creation time;
   * no other teacher changes. A missing teacher is NotFound with nothing changed.
   */
  lemma TeacherUpdateMeaning(teachers: seq<TeacherRow>, id: string, dto: TeacherChanges, freshId: string, now: int)
    requires id != ""
    ensures var (r, ts) := TeacherUpdateOutcome(teachers, id, dto, freshId, now);
      && (r.Failure? <==> !HasTeacher(teachers, id))
      && (r.Failure? ==> r.error == TeacherNotFound(id) && ts == teachers)
      && (r.Success? ==>
           var stored := TeacherById(teachers, id).value;
           var updated := TeacherRow(id, stored.userId, dto.fullName.GetOr(stored.fullName),
                                     dto.email.GetOr(stored.email), stored.createdAt);
           && r == Success(TeacherResponseOf(updated))
           && TeacherById(ts, id) == Some(updated)
           && |ts| == |teachers|
           && forall i :: 0 <= i < |teachers| && teachers[i].id != id ==> ts[i] == teachers[i])
  {
    FirstTeacherMeetingKeys(teachers, NoTeacherFields, None, id);
    FindFirstAt(teachers, (t: TeacherRow) => t.id == id);
    var found := TeacherById(teachers, id);
    if found.Some? {
      var merged := MergedTeacher(found.value, TeacherChangesPartial(dto));
      assert merged.id == id;
      SaveTeacherUpdateMeaning(teachers, merged, freshId, now);
    }
  }

  /** `remove(id)`: NotFound exactly when no row was affected. */
  function TeacherRemoveOutcome(teachers: seq<TeacherRow>, id: string): (Result<()>, seq<TeacherRow>) {
    var (affected, ts) := DeleteTeacherOutcome(teachers, id);
    (if affected == 0 then Failure(TeacherNotFound(id)) else Success(()), ts)
  }

  lemma TeacherRemoveMeaning(teachers: seq<TeacherRow>, id: string)
    ensures var (r, ts) := TeacherRemoveOutcome(teachers, id);
      && (r.Failure? <==> !HasTeacher(teachers, id))
      && (r.Failure? ==> r.error == TeacherNotFound(id) && ts == teachers)
      && (r.Success? ==> !HasTeacher(ts, id))
  {
    DeleteTeacherMeaning(teachers, id);
  }

  function OwnedBy(id: string): Course -> bool {
    (c: Course) => c.teacherId == id
  }

  /** `getCoursesForTeacher(id)`: the teacher's courses as responses, and how many there are. */
  function TeacherCoursesOutcome(t: Tables, id: string): Result<(seq<CourseResponse>, nat)> {
    if TeacherById(t.teachers, id).None? then Failure(TeacherNotFound(id))
    else
      var data := ResponsesOf(Filter(t.courses, OwnedBy(id)));
      Success((data, |data|))
  }

  /**
   * A missing teacher is NotFound; otherwise there is one entry per course
   * the teacher owns, carrying its id, title and code, and the total is the
   * number of entries.
   */
  lemma TeacherCoursesMeaning(t: Tables, id: string)
    ensures TeacherCoursesOutcome(t, id).Failure? <==> !HasTeacher(t.teachers, id)
    ensures TeacherCoursesOutcome(t, id).Failure? ==> TeacherCoursesOutcome(t, id).error == TeacherNotFound(id)
    ensures TeacherCoursesOutcome(t, id).Success? ==>
      var (data, total) := TeacherCoursesOutcome(t, id).value;
      var owned := Filter(t.courses, OwnedBy(id));
      && total == |data| == |owned|
      && (forall c :: c in owned <==> c in t.courses && c.teacherId == id)
      && (forall i :: 0 <= i < |data| ==>
            data[i].id == owned[i].id && data[i].title == owned[i].title && data[i].code == owned[i].code)
  {
    FindFirstAt(t.teachers, (x: TeacherRow) => x.id == id);
    forall c {
      FilterMembership(t.courses, OwnedBy(id), c);
    }
  }

  class TeachersService {
    const repository: TeacherRepositoryPrisma
    const prisma: Database

    constructor (repository: TeacherRepositoryPrisma, prisma: Database)
      ensures this.repository == repository && this.prisma == prisma
    {
      this.repository := repository;
      this.prisma := prisma;
    }

    method FindAll(query: TeacherListQuery) returns (data: seq<TeacherResponse>, meta: ListMeta)
      requires Validated(query.pagination)
      ensures (data, meta) == TeacherListOutcome(repository.db.teachers, query)
    {
      SkipNonNegative(query.pagination);
      var skip := GetSkip(query.pagination);
      var take := GetTake(query.pagination);
      var models := repository.FindMany(TeacherFindManyOptions(skip, take, query.search));
      var total := repository.Count(query.search);
      data := TeacherResponsesOf(models);
      meta := ListMeta(query.pagination.page.GetOr(1), query.pagination.limit.GetOr(20), total);
    }

    method FindById(id: string) returns (r: Result<TeacherResponse>)
      ensures r == TeacherFindOutcome(repository.db.teachers, id)
    {
      var model := repository.FindOneBy(NoTeacherFields.(id := Some(id)));
      if model.None? {
        return Failure(TeacherNotFound(id));
      }
      r := Success(TeacherResponseOf(model.value));
    }

    method Create(dto: CreateTeacher, freshId: string, now: int) returns (r: Result<TeacherResponse>)
      modifies repository.db`teachers
      ensures (r, repository.db.teachers) == TeacherCreateOutcome(old(repository.db.teachers), dto, freshId, now)
    {
      var model := NewTeacher(NoTeacherFields.(fullName := Some(dto.fullName), email := Some(dto.email)), now);
      var saved := repository.Save(model, freshId, now);
      r := if saved.Success? then Success(TeacherResponseOf(saved.value)) else Failure(saved.error);
    }

    method Update(id: string, dto: TeacherChanges, freshId: string, now: int) returns (r: Result<TeacherResponse>)
      modifies repository.db`teachers
      ensures (r, repository.db.teachers) == TeacherUpdateOutcome(old(repository.db.teachers), id, dto, freshId, now)
    {
      var model := repository.FindOneBy(NoTeacherFields.(id := Some(id)));
      if model.None? {
        return Failure(TeacherNotFound(id));
      }
      var merged := MergedTeacher(model.value, TeacherChangesPartial(dto));
      var saved := repository.Save(merged, freshId, now);
      r := if saved.Success? then Success(TeacherResponseOf(saved.value)) else Failure(saved.error);
    }

    method Remove(id: string) returns (r: Result<()>)
      modifies repository.db`teachers
      ensures (r, repository.db.teachers) == TeacherRemoveOutcome(old(repository.db.teachers), id)
    {
      var affected := repository.Delete(id);
      r := if affected == 0 then Failure(TeacherNotFound(id)) else Success(());
    }

    method GetCoursesForTeacher(id: string) returns (r: Result<(seq<CourseResponse>, nat)>)
      ensures r == TeacherCoursesOutcome(prisma.Snapshot(), id)
    {
      var teacher := TeacherById(prisma.teachers, id);
      if teacher.None? {
        return Failure(TeacherNotFound(id));
      }
      var data := ResponsesOf(Filter(prisma.courses, OwnedBy(id)));
      r := Success((data, |data|));
    }
  }
}
