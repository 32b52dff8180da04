/**
 * The courses service: the paged listing with its count, look-up, create,
 * update and remove through the course repository, and enrolling and
 * unenrolling a student through the course/student relation.
 */
module CoursesSvc {
  import opened Base
  import opened Store
  import opened Pagination
  import opened CourseRepo
  import StudentRepo

  /** `toCourseResponseDto`; the creation time stays a number (its ISO rendering is not modelled). */
  datatype CourseResponse = CourseResponse(id: string, title: string, code: string, createdAt: int)

  function ResponseOf(c: Course): CourseResponse {
    CourseResponse(c.id, c.title, c.code, c.createdAt)
  }

  function ResponsesOf(cs: seq<Course>): (r: seq<CourseResponse>)
    ensures |r| == |cs|
    ensures forall i :: 0 <= i < |cs| ==> r[i] == ResponseOf(cs[i])
  {
    if cs == [] then [] else [ResponseOf(cs[0])] + ResponsesOf(cs[1..])
  }

  function CourseNotFound(id: string): Error {
    NotFound("Course " + id + " not found")
  }

  function StudentNotFound(id: string): Error {
    NotFound("Student " + id + " not found")
  }

  // ---------------------------------------------------------------------
  // Listing

  /** The listing query: a page and a limit, a search text and a teacher. */
  datatype CourseListQuery = CourseListQuery(pagination: PaginationQuery, search: Option<string>, teacherId: Option<string>)

  datatype ListMeta = ListMeta(page: int, limit: int, total: nat)

  /** The options `findAll` hands to `findMany`. */
  function ListOptions(q: CourseListQuery): CourseFindManyOptions
    requires Validated(q.pagination)
  {
    SkipNonNegative(q.pagination);
    CourseFindManyOptions(GetSkip(q.pagination), GetTake(q.pagination), q.search, q.teacherId)
  }

  /** `findAll(query)`: one page of responses, and the page, limit and count of the whole selection. */
  function ListOutcome(courses: seq<Course>, q: CourseListQuery): (seq<CourseResponse>, ListMeta)
    requires Validated(q.pagination)
  {
    (ResponsesOf(CoursePage(courses, ListOptions(q))),
     ListMeta(q.pagination.page.GetOr(1), q.pagination.limit.GetOr(20),
              |CoursesMatching(courses, CourseFilter(q.search, q.teacherId))|))
  }

  /**
   * The listing's total counts the same selection the page is cut from:
   * the page's i-th entry is selected course skip + i, the page is full
   * unless the selection runs out, and page and limit default to 1 and 20,
   * which is the first twenty selected courses.
   */
  lemma ListMeaning(courses: seq<Course>, q: CourseListQuery)
    requires Validated(q.pagination)
    ensures var (data, meta) := ListOutcome(courses, q);
      var selected := CoursesMatching(courses, CourseFilter(q.search, q.teacherId));
      var skip := GetSkip(q.pagination);
      && meta.total == |selected|
      && meta.page == q.pagination.page.GetOr(1) && meta.limit == q.pagination.limit.GetOr(20)
      && 0 <= skip
      && |data| == Min(meta.limit, if skip <= meta.total then meta.total - skip else 0)
      && (forall i :: 0 <= i < |data| ==> data[i] == ResponseOf(selected[skip + i]))
    ensures q.pagination == PaginationQuery(None, None) ==>
      ListOutcome(courses, q).0 == ResponsesOf(Page(CoursesMatching(courses, CourseFilter(q.search, q.teacherId)), 0, 20))
  {
    SkipNonNegative(q.pagination);
    PageAgreesWithCount(courses, ListOptions(q));
  }

  // ---------------------------------------------------------------------
  // Single course

  /** `findById(id)`. */
  function FindOutcome(courses: seq<Course>, id: string): Result<CourseResponse> {
    match FirstMeeting(courses, NoCourseFields.(id := Some(id)))
    case None => Failure(CourseNotFound(id))
    case Some(c) => Success(ResponseOf(c))
  }

  lemma FindMeaning(courses: seq<Course>, id: string)
    ensures FindOutcome(courses, id).Failure? <==> !HasCourse(courses, id)
    ensures FindOutcome(courses, id).Failure? ==> FindOutcome(courses, id).error == CourseNotFound(id)
    ensures FindOutcome(courses, id).Success? ==>
      && CourseById(courses, id).Some?
      && FindOutcome(courses, id) == Success(ResponseOf(CourseById(courses, id).value))
      && FindOutcome(courses, id).value.id == id
  {
    FirstMeetingById(courses, id);
    FindFirstAt(courses, (c: Course) => c.id == id);
  }

  /** The body of a create request. */
  datatype CreateCourse = CreateCourse(title: string, code: string, teacherId: Option<string>)

  /** The teacher a new course belongs to: the signed-in teacher when there is one, else the one in the body. */
  function OwnerOf(dto: CreateCourse, currentTeacherId: Option<string>): Option<string> {
    if currentTeacherId.Some? then currentTeacherId else dto.teacherId
  }

  /** `create(dto, currentTeacherId)`: the model built by the repository, then saved. */
  function CreateOutcome(courses: seq<Course>, dto: CreateCourse, currentTeacherId: Option<string>, freshId: string, now: int)
    : (Result<CourseResponse>, seq<Course>)
  {
    var model := NewCourse(NoCourseFields.(title := Some(dto.title), code := Some(dto.code),
                                           teacherId := OwnerOf(dto, currentTeacherId)), now);
    var (r, cs) := SaveOutcome(courses, model, freshId, now);
    (if r.Success? then Success(ResponseOf(r.value)) else Failure(r.error), cs)
  }

  /**
   * A created course is appended under the generated id with the given
   * title and code, owned by the signed-in teacher whatever the body says,
   * and by the body's teacher (or none, '') otherwise.
   */
  lemma CreateMeaning(courses: seq<Course>, dto: CreateCourse, currentTeacherId: Option<string>, freshId: string, now: int)
    requires forall i :: 0 <= i < |courses| ==> courses[i].id != freshId
    ensures var (r, cs) := CreateOutcome(courses, dto, currentTeacherId, freshId, now);
      var row := Course(freshId, dto.title, dto.code, now, OwnerOf(dto, currentTeacherId).GetOr(""));
      && cs == courses + [row]
      && r == Success(ResponseOf(row))
      && CourseById(cs, freshId) == Some(row)
      && (currentTeacherId.Some? ==> row.teacherId == currentTeacherId.value)
  {
    var model := NewCourse(NoCourseFields.(title := Some(dto.title), code := Some(dto.code),
                                           teacherId := OwnerOf(dto, currentTeacherId)), now);
    SaveInsertMeaning(courses, model, freshId, now);
  }

  /** The body of an update request; absent fields are left as stored. */
  datatype CourseChanges = CourseChanges(title: Option<string>, code: Option<string>, teacherId: Option<string>)

  function ChangesPartial(dto: CourseChanges): CoursePartial {
    NoCourseFields.(title := dto.title, code := dto.code, teacherId := dto.teacherId)
  }

  /** `update(id, dto)`: NotFound for a missing course, else the stored course merged with the changes is saved. */
  function UpdateOutcome(courses: seq<Course>, id: string, dto: CourseChanges, freshId: string, now: int)
    : (Result<CourseResponse>, seq<Course>)
  {
    match FirstMeeting(courses, NoCourseFields.(id := Some(id)))
    case None => (Failure(CourseNotFound(id)), courses)
    case Some(model) =>
      var (r, cs) := SaveOutcome(courses, Merged(model, ChangesPartial(dto)), freshId, now);
      (if r.Success? then Success(ResponseOf(r.value)) else Failure(r.error), cs)
  }

  /**
   * An update of an existing course rewrites that course with every given
   * field and keeps the others, its id and its creation time; no other
   * course changes. A missing course is NotFound with nothing changed.
   */
  lemma UpdateMeaning(courses: seq<Course>, id: string, dto: CourseChanges, freshId: string, now: int)
    requires id != ""
    ensures var (r, cs) := UpdateOutcome(courses, id, dto, freshId, now);
      && (r.Failure? <==> !HasCourse(courses, id))
      && (r.Failure? ==> r.error == CourseNotFound(id) && cs == courses)
      && (r.Success? ==>
           var stored := CourseById(courses, id).value;
           var updated := Course(id, dto.title.GetOr(stored.title), dto.code.GetOr(stored.code),
                                 stored.createdAt, dto.teacherId.GetOr(stored.teacherId));
           && r == Success(ResponseOf(updated))
           && CourseById(cs, id) == Some(updated)
           && |cs| == |courses|
           && forall i :: 0 <= i < |courses| && courses[i].id != id ==> cs[i] == courses[i])
  {
    FirstMeetingById(courses, id);
    FindFirstAt(courses, (c: Course) => c.id == id);
    var found := CourseById(courses, id);
    if found.Some? {
      var merged := Merged(found.value, ChangesPartial(dto));
      assert merged.id == id;
      SaveUpdateMeaning(courses, merged, freshId, now);
    }
  }

  /** `remove(id)`: NotFound exactly when the repository reports no affected row. */
  function RemoveOutcome(t: Tables, id: string): (Result<()>, Tables) {
    var (affected, t') := DeleteOutcome(t, id);
    (if affected == 0 then Failure(CourseNotFound(id)) else Success(()), t')
  }

  lemma RemoveMeaning(t: Tables, id: string)
    ensures var (r, t') := RemoveOutcome(t, id);
      && (r.Failure? <==> !HasCourse(t.courses, id))
      && (r.Failure? ==> r.error == CourseNotFound(id) && t' == t)
      && (r.Success? ==> !HasCourse(t'.courses, id) && forall p :: p in t'.enrollments ==> p.0 != id)
  {
    DeleteMeaning(t, id);
  }

  // ---------------------------------------------------------------------
  // Enrollment

  /** The check both enrollment calls make first: the course, then the student, must exist. */
  function EnrollmentCheck(t: Tables, courseId: string, studentId: string): Result<()> {
    if CourseById(t.courses, courseId).None? then Failure(CourseNotFound(courseId))
    else if StudentRowById(t.students, studentId).None? then Failure(StudentNotFound(studentId))
    else Success(())
  }

  /** `enrollStudent`: connects the student to the course. */
  function EnrollOutcome(t: Tables, courseId: string, studentId: string): (Result<()>, set<(string, string)>) {
    var check := EnrollmentCheck(t, courseId, studentId);
    (check, if check.Success? then t.enrollments + {(courseId, studentId)} else t.enrollments)
  }

  /** `unenrollStudent`: disconnects the student from the course. */
  function UnenrollOutcome(t: Tables, courseId: string, studentId: string): (Result<()>, set<(string, string)>) {
    var check := EnrollmentCheck(t, courseId, studentId);
    (check, if check.Success? then t.enrollments - {(courseId, studentId)} else t.enrollments)
  }

  /** A missing course is reported before a missing student, and either failure is all the check can report. */
  lemma EnrollmentCheckMeaning(t: Tables, courseId: string, studentId: string)
    ensures EnrollmentCheck(t, courseId, studentId).Failure? <==>
      !HasCourse(t.courses, courseId) || !StudentRepo.HasStudent(t.students, studentId)
    ensures !HasCourse(t.courses, courseId) ==> EnrollmentCheck(t, courseId, studentId) == Failure(CourseNotFound(courseId))
    ensures HasCourse(t.courses, courseId) && !StudentRepo.HasStudent(t.students, studentId) ==>
      EnrollmentCheck(t, courseId, studentId) == Failure(StudentNotFound(studentId))
  {
    FindFirstAt(t.courses, (c: Course) => c.id == courseId);
    FindFirstAt(t.students, (s: StudentRow) => s.id == studentId);
  }

  /**
   * Enrolling puts the pair in the relation and touches no other pair (so
   * no other course's students change); it fails, changing nothing, as the
   * check says. Enrolling again is a no-op.
   */
  lemma EnrollMeaning(t: Tables, courseId: string, studentId: string)
    ensures var (r, e) := EnrollOutcome(t, courseId, studentId);
      && r == EnrollmentCheck(t, courseId, studentId)
      && (r.Failure? ==> e == t.enrollments)
      && (r.Success? ==> (courseId, studentId) in e)
      && (forall p :: p != (courseId, studentId) ==> (p in e <==> p in t.enrollments))
    ensures var (r, e) := EnrollOutcome(t, courseId, studentId);
      EnrollOutcome(t.(enrollments := e), courseId, studentId) == (r, e)
  {
  }

  /** Unenrolling takes the pair out and touches no other pair; unenrolling again is a no-op. */
  lemma UnenrollMeaning(t: Tables, courseId: string, studentId: string)
    ensures var (r, e) := UnenrollOutcome(t, courseId, studentId);
      && r == EnrollmentCheck(t, courseId, studentId)
      && (r.Failure? ==> e == t.enrollments)
      && (r.Success? ==> (courseId, studentId) !in e)
      && (forall p :: p != (courseId, studentId) ==> (p in e <==> p in t.enrollments))
    ensures var (r, e) := UnenrollOutcome(t, courseId, studentId);
      UnenrollOutcome(t.(enrollments := e), courseId, studentId) == (r, e)
  {
    var (r, e) := UnenrollOutcome(t, courseId, studentId);
    assert EnrollmentCheck(t.(enrollments := e), courseId, studentId) == r;
    if r.Success? {
      assert e - {(courseId, studentId)} == e;
    }
  }

  /** Unenrolling right after enrolling restores the relation when the pair was not in it before. */
  lemma EnrollThenUnenroll(t: Tables, courseId: string, studentId: string)
    requires (courseId, studentId) !in t.enrollments
    ensures var (_, e) := EnrollOutcome(t, courseId, studentId);
      UnenrollOutcome(t.(enrollments := e), courseId, studentId).1 == t.enrollments
  {
  }

  class CoursesService {
    const repository: CourseRepositoryPrisma
    const prisma: Database

    constructor (repository: CourseRepositoryPrisma, prisma: Database)
      ensures this.repository == repository && this.prisma == prisma
    {
      this.repository := repository;
      this.prisma := prisma;
    }

    method FindAll(query: CourseListQuery) returns (data: seq<CourseResponse>, meta: ListMeta)
      requires Validated(query.pagination)
      ensures (data, meta) == ListOutcome(repository.db.courses, query)
    {
      SkipNonNegative(query.pagination);
      var skip := GetSkip(query.pagination);
      var take := GetTake(query.pagination);
      var models := repository.FindMany(CourseFindManyOptions(skip, take, query.search, query.teacherId));
      var total := repository.Count(Some(CourseFilter(query.search, query.teacherId)));
      data := ResponsesOf(models);
      meta := ListMeta(query.pagination.page.GetOr(1), query.pagination.limit.GetOr(20), total);
    }

    method FindById(id: string) returns (r: Result<CourseResponse>)
      ensures r == FindOutcome(repository.db.courses, id)
    {
      var model := repository.FindOneBy(NoCourseFields.(id := Some(id)));
      if model.None? {
        return Failure(CourseNotFound(id));
      }
      r := Success(ResponseOf(model.value));
    }

    method Create(dto: CreateCourse, currentTeacherId: Option<string>, freshId: string, now: int)
      returns (r: Result<CourseResponse>)
      modifies repository.db`courses
      ensures (r, repository.db.courses) == CreateOutcome(old(repository.db.courses), dto, currentTeacherId, freshId, now)
    {
      var teacherId := if currentTeacherId.Some? then currentTeacherId else dto.teacherId;
      var model := NewCourse(NoCourseFields.(title := Some(dto.title), code := Some(dto.code), teacherId := teacherId), now);
      var saved := repository.Save(model, freshId, now);
      r := if saved.Success? then Success(ResponseOf(saved.value)) else Failure(saved.error);
    }

    method Update(id: string, dto: CourseChanges, freshId: string, now: int) returns (r: Result<CourseResponse>)
      modifies repository.db`courses
      ensures (r, repository.db.courses) == UpdateOutcome(old(repository.db.courses), id, dto, freshId, now)
    {
      var model := repository.FindOneBy(NoCourseFields.(id := Some(id)));
      if model.None? {
        return Failure(CourseNotFound(id));
      }
      var merged := Merged(model.value, ChangesPartial(dto));
      var saved := repository.Save(merged, freshId, now);
      r := if saved.Success? then Success(ResponseOf(saved.value)) else Failure(saved.error);
    }

    method Remove(id: string) returns (r: Result<()>)
      modifies repository.db`courses, repository.db`enrollments
      ensures (r, repository.db.Snapshot()) == RemoveOutcome(old(repository.db.Snapshot()), id)
    {
      var affected := repository.Delete(id);
      r := if affected == 0 then Failure(CourseNotFound(id)) else Success(());
    }

    /** Both rows are read before either is checked; the course is checked first. */
    method EnrollStudent(courseId: string, studentId: string) returns (r: Result<()>)
      modifies prisma`enrollments
      ensures (r, prisma.enrollments) == EnrollOutcome(old(prisma.Snapshot()), courseId, studentId)
    {
      var course := CourseById(prisma.courses, courseId);
      var student := StudentRowById(prisma.students, studentId);
      if course.None? {
        return Failure(CourseNotFound(courseId));
      }
      if student.None? {
        return Failure(StudentNotFound(studentId));
      }
      prisma.enrollments := prisma.enrollments + {(courseId, studentId)};
      r := Success(());
    }

    method UnenrollStudent(courseId: string, studentId: string) returns (r: Result<()>)
      modifies prisma`enrollments
      ensures (r, prisma.enrollments) == UnenrollOutcome(old(prisma.Snapshot()), courseId, studentId)
    {
      var course := CourseById(prisma.courses, courseId);
      var student := StudentRowById(prisma.students, studentId);
      if course.None? {
        return Failure(CourseNotFound(courseId));
      }
      if student.None? {
        return Failure(StudentNotFound(studentId));
      }
      prisma.enrollments := prisma.enrollments - {(courseId, studentId)};
      r := Success(());
    }
  }
}
