/**
 * The guard in front of course modifications: it lets a teacher through
 * only for courses they own, and leaves a missing course to the handler.
 */
module CourseOwnerGuard {
  import opened Base
  import opened Store
  import opened JwtStrategy

  const NotOwner := Forbidden("You can only modify your own courses")

  /** `canActivate` for the request's user and `:id` parameter against the stored courses. */
  function OwnerDecision(user: Option<RequestUser>, courseId: Option<string>, courses: seq<Course>): Result<bool> {
    var teacherId := if user.Some? then user.value.teacherId else None;
    if !Truthy(courseId) || !Truthy(teacherId) then Success(false)
    else match CourseById(courses, courseId.value)
      case None => Success(true)
      case Some(c) => if c.teacherId != teacherId.value then Failure(NotOwner) else Success(true)
  }

  /**
   * The guard's whole decision: no id or no teacher profile refuses;
   * otherwise it passes exactly when the course is missing or owned by the
   * caller's teacher profile, and refuses with Forbidden when another
   * teacher owns it.
   */
  lemma OwnerDecisionMeaning(user: Option<RequestUser>, courseId: Option<string>, courses: seq<Course>)
    ensures var r := OwnerDecision(user, courseId, courses);
      && (r == Success(false) <==> !Truthy(courseId) || user.None? || !Truthy(user.value.teacherId))
      && (r == Success(true) <==>
            && Truthy(courseId) && user.Some? && Truthy(user.value.teacherId)
            && (CourseById(courses, courseId.value).None? ||
                CourseById(courses, courseId.value).value.teacherId == user.value.teacherId.value))
      && (r.Failure? <==>
            && Truthy(courseId) && user.Some? && Truthy(user.value.teacherId)
            && CourseById(courses, courseId.value).Some?
            && CourseById(courses, courseId.value).value.teacherId != user.value.teacherId.value)
      && (r.Failure? ==> r.error == NotOwner)
  {
  }

  /** Ids are unique in the course table. */
  predicate UniqueIds(courses: seq<Course>) {
    forall i, j :: 0 <= i < |courses| && 0 <= j < |courses| && courses[i].id == courses[j].id ==> i == j
  }

  /** Security: when the guard passes and the course exists, every stored course with that id belongs to the caller. */
  lemma PassMeansOwned(user: Option<RequestUser>, courseId: Option<string>, courses: seq<Course>)
    requires UniqueIds(courses)
    requires OwnerDecision(user, courseId, courses) == Success(true)
    ensures forall i :: 0 <= i < |courses| && courses[i].id == courseId.value ==>
      Some(courses[i].teacherId) == user.value.teacherId
  {
    FindFirstAt(courses, (c: Course) => c.id == courseId.value);
  }

  class CourseOwnerGuard {
    const prisma: Database

    constructor (prisma: Database)
      ensures this.prisma == prisma
    {
      this.prisma := prisma;
    }

    function CanActivate(user: Option<RequestUser>, courseId: Option<string>): (r: Result<bool>)
      reads prisma
      ensures r == OwnerDecision(user, courseId, prisma.courses)
    {
      OwnerDecision(user, courseId, prisma.courses)
    }
  }
}
