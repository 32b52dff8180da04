/**
 * The relational store behind the repositories: one table per entity of the
 * schema, each a sequence of rows in insertion order, and the many-to-many
 * course/student relation as a set of pairs. The database's own clock
 * stamps `createdAt` at insertion, so insertion order is `createdAt` order.
 */
module Store {
  import opened Base
  import opened Crypto

  datatype UserRow = UserRow(
    id: string,
    email: string,
    passwordHash: Digest,
    role: Role,
    isActive: bool,
    refreshTokenHash: Option<Digest>,
    createdAt: int,
    updatedAt: int)

  /** A teacher row, which is also the repository's teacher model. */
  datatype TeacherRow = TeacherRow(id: string, userId: string, fullName: string, email: string, createdAt: int)

  /** A student row; `userId` links it to its user, when it has one. */
  datatype StudentRow = StudentRow(
    id: string,
    userId: Option<string>,
    name: string,
    age: int,
    grade: int,
    isActive: bool,
    createdAt: int)

  /** A course row, which is also the repository's course model. */
  datatype Course = Course(id: string, title: string, code: string, createdAt: int, teacherId: string)

  /** The whole content of the store at one moment. */
  datatype Tables = Tables(
    users: seq<UserRow>,
    teachers: seq<TeacherRow>,
    students: seq<StudentRow>,
    courses: seq<Course>,
    enrollments: set<(string, string)>)   // (course id, student id)

  /** The database the services and repositories share. */
  class Database {
    var users: seq<UserRow>
    var teachers: seq<TeacherRow>
    var students: seq<StudentRow>
    var courses: seq<Course>
    var enrollments: set<(string, string)>

    constructor ()
      ensures Snapshot() == Tables([], [], [], [], {})
    {
      users, teachers, students, courses, enrollments := [], [], [], [], {};
    }

    function Snapshot(): Tables
      reads this
    {
      Tables(users, teachers, students, courses, enrollments)
    }
  }

  /** The first user row with that id (the unique `findUnique` by id). */
  function UserRowById(users: seq<UserRow>, id: string): Option<UserRow> {
    FindFirst(users, (u: UserRow) => u.id == id)
  }

  function CourseById(courses: seq<Course>, id: string): Option<Course> {
    FindFirst(courses, (c: Course) => c.id == id)
  }

  function TeacherById(teachers: seq<TeacherRow>, id: string): Option<TeacherRow> {
    FindFirst(teachers, (t: TeacherRow) => t.id == id)
  }

  function StudentRowById(students: seq<StudentRow>, id: string): Option<StudentRow> {
    FindFirst(students, (s: StudentRow) => s.id == id)
  }

  /**
   * An id the database may hand out for a new row: the generated
   * identifiers are non-empty and collide with nothing stored.
   */
  predicate FreshId(t: Tables, id: string) {
    && id != ""
    && (forall i :: 0 <= i < |t.users| ==> t.users[i].id != id)
    && (forall i :: 0 <= i < |t.teachers| ==> t.teachers[i].id != id && t.teachers[i].userId != id)
    && (forall i :: 0 <= i < |t.students| ==> t.students[i].id != id && t.students[i].userId != Some(id))
    && (forall i :: 0 <= i < |t.courses| ==> t.courses[i].id != id && t.courses[i].teacherId != id)
    && (forall p :: p in t.enrollments ==> p.0 != id && p.1 != id)
  }
}
