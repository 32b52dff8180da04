/**
 * The students service: registering a student (a user row, then the
 * student profile), listing, look-up, update and remove through the student
 * repository, the passing-grade filter, and the courses a student is
 * enrolled in.
 */
module StudentsSvc {
  import opened Base
  import opened Crypto
  import opened Store
  import opened UserRepo
  import opened StudentRepo
  import Auth
  import CoursesSvc

  function StudentNotFound(id: string): Error {
    CoursesSvc.StudentNotFound(id)
  }

  /** The body of a create request. */
  datatype CreateStudent = CreateStudent(email: string, password: string, name: string, age: int, grade: int, isActive: bool)

  /** The user row `create` inserts first: the lower-cased email, the password digest, role STUDENT, active. */
  function StudentUser(dto: CreateStudent, config: map<string, string>, userId: string, now: int): UserRow {
    InsertedRow(NewUser(ToLower(dto.email), Auth.PasswordDigest(config, dto.password), Student, true, None), userId, now)
  }

  /** The model `create` then saves: the user's id is handed over, but the entity has no such field. */
  function StudentModel(dto: CreateStudent, now: int): StudentEntity {
    NewStudent(NoStudentFields.(name := Some(dto.name), age := Some(dto.age), grade := Some(dto.grade),
                                isActive := Some(dto.isActive)), now)
  }

  /**
   * `create(dto)`: the user insert fails on an email already stored, with
   * nothing changed; otherwise the student is saved after it.
   */
  function StudentCreateOutcome(t: Tables, dto: CreateStudent, config: map<string, string>,
                                userId: string, studentId: string, now: int): (Result<StudentEntity>, Tables)
  {
    var user := StudentUser(dto, config, userId, now);
    if EmailTaken(t.users, user.email) then (Failure(UniqueViolation("email")), t)
    else
      var (r, ss) := SaveStudentOutcome(t.students, StudentModel(dto, now), studentId, now);
      (r, t.(users := t.users + [user], students := ss))
  }

  /**
   * A create whose lower-cased email is free adds exactly one user (role
   * STUDENT, active, no session, a digest that accepts the password) and
   * exactly one student with the given profile, and nothing else. The student
   * row is linked to no user, so the new user reads back with no student
   * profile. A taken email changes nothing.
   */
  lemma StudentCreateMeaning(t: Tables, dto: CreateStudent, config: map<string, string>,
                             userId: string, studentId: string, now: int)
    requires FreshId(t, userId) && FreshId(t, studentId) && userId != studentId
    ensures var (r, t') := StudentCreateOutcome(t, dto, config, userId, studentId, now);
      && (EmailTaken(t.users, ToLower(dto.email)) ==> r == Failure(UniqueViolation("email")) && t' == t)
      && (!EmailTaken(t.users, ToLower(dto.email)) ==>
           var user := StudentUser(dto, config, userId, now);
           var row := StudentRow(studentId, None, dto.name, dto.age, dto.grade, dto.isActive, now);
           && t'.users == t.users + [user]
           && user.email == ToLower(dto.email) && user.role == Student && user.isActive
           && user.refreshTokenHash.None? && Compare(dto.password, user.passwordHash)
           && t'.students == t.students + [row]
           && r == Success(EntityOf(row))
           && t'.teachers == t.teachers && t'.courses == t.courses && t'.enrollments == t.enrollments
           && LookupById(t', userId).Some? && LookupById(t', userId).value.studentId.None?)
  {
    if !EmailTaken(t.users, ToLower(dto.email)) {
      var user := StudentUser(dto, config, userId, now);
      var row := StudentRow(studentId, None, dto.name, dto.age, dto.grade, dto.isActive, now);
      SaveStudentInsertMeaning(t.students, StudentModel(dto, now), studentId, now);
      var t' := StudentCreateOutcome(t, dto, config, userId, studentId, now).1;
      FindFirstAt(t.users, (u: UserRow) => u.id == userId);
      FindFirstAppend(t.users, [user], (u: UserRow) => u.id == userId);
      FindFirstAt(t.students, (s: StudentRow) => s.userId == Some(userId));
      FindFirstAppend(t.students, [row], (s: StudentRow) => s.userId == Some(userId));
      assert UserRowById(t'.users, userId) == Some(user);
      assert StudentIdOf(t'.students, userId) == None;
    }
  }

  /** `findAll()`: every student, oldest first. */
  function StudentListOutcome(students: seq<StudentRow>): seq<StudentEntity> {
    EntitiesOf(FoundStudents(students, Some(FindOptions(None, Some([("createdAt", "ASC")])))))
  }

  lemma StudentListMeaning(students: seq<StudentRow>)
    ensures |StudentListOutcome(students)| == |students|
    ensures forall i :: 0 <= i < |students| ==> StudentListOutcome(students)[i] == EntityOf(students[i])
  {
  }

  /** `findById(id)`. */
  function StudentFindOutcome(students: seq<StudentRow>, id: string): Result<StudentEntity> {
    match FirstStudentMeeting(students, NoStudentFields.(id := Some(id)))
    case None => Failure(StudentNotFound(id))
    case Some(s) => Success(EntityOf(s))
  }

  lemma StudentFindMeaning(students: seq<StudentRow>, id: string)
    ensures StudentFindOutcome(students, id).Failure? <==> !HasStudent(students, id)
    ensures StudentFindOutcome(students, id).Failure? ==> StudentFindOutcome(students, id).error == StudentNotFound(id)
    ensures StudentFindOutcome(students, id).Success? ==>
      && StudentRowById(students, id).Some?
      && StudentFindOutcome(students, id) == Success(EntityOf(StudentRowById(students, id).value))
      && StudentFindOutcome(students, id).value.id == id
  {
    FirstStudentMeetingById(students, id);
    FindFirstAt(students, (s: StudentRow) => s.id == id);
  }

  /** The body of an update request; absent fields are left as stored. */
  datatype StudentChanges = StudentChanges(name: Option<string>, age: Option<int>, grade: Option<int>, isActive: Option<bool>)

  function StudentChangesPartial(dto: StudentChanges): StudentPartial {
    NoStudentFields.(name := dto.name, age := dto.age, grade := dto.grade, isActive := dto.isActive)
  }

  /** `update(id, dto)`. */
  function StudentUpdateOutcome(students: seq<StudentRow>, id: string, dto: StudentChanges, freshId: string, now: int)
    : (Result<StudentEntity>, seq<StudentRow>)
  {
    match FirstStudentMeeting(students, NoStudentFields.(id := Some(id)))
    case None => (Failure(StudentNotFound(id)), students)
    case Some(row) => SaveStudentOutcome(students, MergedStudent(EntityOf(row), StudentChangesPartial(dto)), freshId, now)
  }

  /**
   * An update of an existing student rewrites its profile with every given
   * field, keeping the others, its id, user link and creation time; no
   * other student changes. A missing student is NotFound with nothing changed.
   */
  lemma StudentUpdateMeaning(students: seq<StudentRow>, id: string, dto: StudentChanges, freshId: string, now: int)
    requires id != ""
    ensures var (r, ss) := StudentUpdateOutcome(students, id, dto, freshId, now);
      && (r.Failure? <==> !HasStudent(students, id))
      && (r.Failure? ==> r.error == StudentNotFound(id) && ss == students)
      && (r.Success? ==>
           var stored := StudentRowById(students, id).value;
           var updated := stored.(name := dto.name.GetOr(stored.name), age := dto.age.GetOr(stored.age),
                                  grade := dto.grade.GetOr(stored.grade), isActive := dto.isActive.GetOr(stored.isActive));
           && r == Success(EntityOf(updated))
           && StudentRowById(ss, id) == Some(updated)
           && |ss| == |students|
           && forall i :: 0 <= i < |students| && students[i].id != id ==> ss[i] == students[i])
  {
    FirstStudentMeetingById(students, id);
    FindFirstAt(students, (s: StudentRow) => s.id == id);
    var found := StudentRowById(students, id);
    if found.Some? {
      var merged := MergedStudent(EntityOf(found.value), StudentChangesPartial(dto));
      assert merged.id == id;
      SaveStudentUpdateMeaning(students, merged, freshId, now);
    }
  }

  /** `remove(id)`: NotFound exactly when no row was affected. */
  function StudentRemoveOutcome(t: Tables, id: string): (Result<()>, Tables) {
    var (affected, t') := DeleteStudentOutcome(t, id);
    (if affected == 0 then Failure(StudentNotFound(id)) else Success(()), t')
  }

  lemma StudentRemoveMeaning(t: Tables, id: string)
    ensures var (r, t') := StudentRemoveOutcome(t, id);
      && (r.Failure? <==> !HasStudent(t.students, id))
      && (r.Failure? ==> r.error == StudentNotFound(id) && t' == t)
      && (r.Success? ==> !HasStudent(t'.students, id) && forall p :: p in t'.enrollments ==> p.1 != id)
  {
    DeleteStudentMeaning(t, id);
  }

  const DefaultMinGrade := 50

  /** `passed(minGrade)`: the repository's grade filter, with 50 when no bound is given. */
  function PassedOutcome(students: seq<StudentRow>, minGrade: Option<int>): seq<StudentEntity> {
    EntitiesOf(GradeAtLeast(students, minGrade.GetOr(DefaultMinGrade)))
  }

  lemma PassedMeaning(students: seq<StudentRow>, minGrade: Option<int>)
    ensures forall i :: 0 <= i < |PassedOutcome(students, minGrade)| ==>
      PassedOutcome(students, minGrade)[i].grade >= minGrade.GetOr(50)
    ensures forall s :: s in students && s.grade >= minGrade.GetOr(50) ==> EntityOf(s) in PassedOutcome(students, minGrade)
  {
    GradeAtLeastMeaning(students, minGrade.GetOr(DefaultMinGrade));
    var kept := GradeAtLeast(students, minGrade.GetOr(DefaultMinGrade));
    forall s | s in students && s.grade >= minGrade.GetOr(50)
      ensures EntityOf(s) in PassedOutcome(students, minGrade)
    {
      var i :| 0 <= i < |kept| && kept[i] == s;
      assert PassedOutcome(students, minGrade)[i] == EntityOf(s);
    }
  }

  function EnrolledIn(enrollments: set<(string, string)>, id: string): Course -> bool {
    (c: Course) => (c.id, id) in enrollments
  }

  /** `getCoursesForStudent(id)`: the courses the student is enrolled in, as responses. */
  function StudentCoursesOutcome(t: Tables, id: string): Result<seq<CoursesSvc.CourseResponse>> {
    if StudentRowById(t.students, id).None? then Failure(StudentNotFound(id))
    else Success(CoursesSvc.ResponsesOf(Filter(t.courses, EnrolledIn(t.enrollments, id))))
  }

  /**
   * A missing student is NotFound; otherwise there is one entry per
   * stored course related to the student, with its id, title and code.
   */
  lemma StudentCoursesMeaning(t: Tables, id: string)
    ensures StudentCoursesOutcome(t, id).Failure? <==> !HasStudent(t.students, id)
    ensures StudentCoursesOutcome(t, id).Failure? ==> StudentCoursesOutcome(t, id).error == StudentNotFound(id)
    ensures StudentCoursesOutcome(t, id).Success? ==>
      var data := StudentCoursesOutcome(t, id).value;
      var enrolled := Filter(t.courses, EnrolledIn(t.enrollments, id));
      && |data| == |enrolled|
      && (forall c :: c in enrolled <==> c in t.courses && (c.id, id) in t.enrollments)
      && (forall i :: 0 <= i < |data| ==>
            data[i].id == enrolled[i].id && data[i].title == enrolled[i].title && data[i].code == enrolled[i].code)
  {
    FindFirstAt(t.students, (s: StudentRow) => s.id == id);
    forall c {
      FilterMembership(t.courses, EnrolledIn(t.enrollments, id), c);
    }
  }

  /** After a successful enrollment the course is among the student's courses; after unenrolling it is not. */
  lemma EnrollmentShowsInStudentCourses(t: Tables, courseId: string, studentId: string, c: Course)
    requires c in t.courses && c.id == courseId
    ensures var (r, e) := CoursesSvc.EnrollOutcome(t, courseId, studentId);
      r.Success? ==> c in Filter(t.courses, EnrolledIn(e, studentId))
    ensures var (r, e) := CoursesSvc.UnenrollOutcome(t, courseId, studentId);
      r.Success? ==> c !in Filter(t.courses, EnrolledIn(e, studentId))
  {
    var e1 := CoursesSvc.EnrollOutcome(t, courseId, studentId).1;
    var e2 := CoursesSvc.UnenrollOutcome(t, courseId, studentId).1;
    FilterMembership(t.courses, EnrolledIn(e1, studentId), c);
    FilterMembership(t.courses, EnrolledIn(e2, studentId), c);
  }

  class StudentsService {
    const repository: StudentRepositoryPrisma
    const prisma: Database
    const config: map<string, string>

    constructor (repository: StudentRepositoryPrisma, prisma: Database, config: map<string, string>)
      ensures this.repository == repository && this.prisma == prisma && this.config == config
    {
      this.repository := repository;
      this.prisma := prisma;
      this.config := config;
    }

    /** `userId` and `studentId` are the ids the database generates for the two inserts. */
    method Create(dto: CreateStudent, userId: string, studentId: string, now: int) returns (r: Result<StudentEntity>)
      requires repository.db == prisma
      modifies prisma`users, prisma`students
      ensures (r, prisma.Snapshot()) == StudentCreateOutcome(old(prisma.Snapshot()), dto, config, userId, studentId, now)
    {
      var passwordHash := Hash(dto.password, Auth.PasswordCost(config));
      var user := InsertedRow(NewUser(ToLower(dto.email), passwordHash, Student, true, None), userId, now);
      if exists i :: 0 <= i < |prisma.users| && prisma.users[i].email == user.email {
        return Failure(UniqueViolation("email"));
      }
      prisma.users := prisma.users + [user];
      var model := NewStudent(NoStudentFields.(name := Some(dto.name), age := Some(dto.age), grade := Some(dto.grade),
                                               isActive := Some(dto.isActive)), now);
      r := repository.Save(model, studentId, now);
    }

    method FindAll() returns (r: seq<StudentEntity>)
      ensures r == StudentListOutcome(repository.db.students)
    {
      var ordered: Option<seq<(string, Direction)>>;
      r, ordered := repository.Find(Some(FindOptions(None, Some([("createdAt", "ASC")]))));
    }

    method FindById(id: string) returns (r: Result<StudentEntity>)
      ensures r == StudentFindOutcome(repository.db.students, id)
    {
      var model := repository.FindOneBy(NoStudentFields.(id := Some(id)));
      if model.None? {
        return Failure(StudentNotFound(id));
      }
      r := Success(model.value);
    }

    method Update(id: string, dto: StudentChanges, freshId: string, now: int) returns (r: Result<StudentEntity>)
      modifies repository.db`students
      ensures (r, repository.db.students) == StudentUpdateOutcome(old(repository.db.students), id, dto, freshId, now)
    {
      var model := repository.FindOneBy(NoStudentFields.(id := Some(id)));
      if model.None? {
        return Failure(StudentNotFound(id));
      }
      var merged := MergedStudent(model.value, StudentChangesPartial(dto));
      r := repository.Save(merged, freshId, now);
    }

    method Remove(id: string) returns (r: Result<()>)
      modifies repository.db`students, repository.db`enrollments
      ensures (r, repository.db.Snapshot()) == StudentRemoveOutcome(old(repository.db.Snapshot()), id)
    {
      var affected := repository.Delete(id);
      r := if affected == 0 then Failure(StudentNotFound(id)) else Success(());
    }

    method Passed(minGrade: Option<int>) returns (r: seq<StudentEntity>)
      ensures r == PassedOutcome(repository.db.students, minGrade)
    {
      r := repository.FindWithGradeGreaterOrEqual(minGrade.GetOr(DefaultMinGrade));
    }

    method GetCoursesForStudent(id: string) returns (r: Result<seq<CoursesSvc.CourseResponse>>)
      ensures r == StudentCoursesOutcome(prisma.Snapshot(), id)
    {
      var student := StudentRowById(prisma.students, id);
      if student.None? {
        return Failure(StudentNotFound(id));
      }
      r := Success(CoursesSvc.ResponsesOf(Filter(prisma.courses, EnrolledIn(prisma.enrollments, id))));
    }
  }
}
