/**
 * The user repository over the users table: conversion of a row (with the
 * ids of its teacher and student profiles) to the user model, lookups by id
 * and by lower-cased email, insertion, and the single-column update of the
 * refresh-token hash.
 */
module UserRepo {
  import opened Base
  import opened Crypto
  import opened Store

  /** The user model the repository hands to the services. */
  datatype UserModel = UserModel(
    id: string,
    email: string,
    passwordHash: Digest,
    role: Role,
    isActive: bool,
    refreshTokenHash: Option<Digest>,
    createdAt: int,
    updatedAt: int,
    teacherId: Option<string>,
    studentId: Option<string>)

  /** `toModel`: a row plus the ids of its included teacher and student profiles. */
  function ToModel(row: UserRow, teacher: Option<string>, student: Option<string>): UserModel {
    UserModel(row.id, row.email, row.passwordHash, row.role, row.isActive, row.refreshTokenHash,
              row.createdAt, row.updatedAt, teacher, student)
  }

  /** The row a model was made from. */
  function RowOf(m: UserModel): UserRow {
    UserRow(m.id, m.email, m.passwordHash, m.role, m.isActive, m.refreshTokenHash, m.createdAt, m.updatedAt)
  }

  /** `toModel` keeps every column of the row and sets the profile ids to the included ones (null when absent). */
  lemma ToModelRoundTrip(row: UserRow, teacher: Option<string>, student: Option<string>)
    ensures RowOf(ToModel(row, teacher, student)) == row
    ensures ToModel(row, teacher, student).teacherId == teacher
    ensures ToModel(row, teacher, student).studentId == student
  {
  }

  /** The id of the teacher profile whose `userId` is this user's: `include: { teacher: { select: { id } } }`. */
  function TeacherIdOf(teachers: seq<TeacherRow>, userId: string): Option<string> {
    match FindFirst(teachers, (t: TeacherRow) => t.userId == userId)
    case None => None
    case Some(t) => Some(t.id)
  }

  /** The id of the student profile linked to this user. */
  function StudentIdOf(students: seq<StudentRow>, userId: string): Option<string> {
    match FindFirst(students, (s: StudentRow) => s.userId == Some(userId))
    case None => None
    case Some(s) => Some(s.id)
  }

  /** A row read together with its profile ids. */
  function WithProfiles(t: Tables, row: UserRow): UserModel {
    ToModel(row, TeacherIdOf(t.teachers, row.id), StudentIdOf(t.students, row.id))
  }

  /** `findById`: the user with that id, or null. */
  function LookupById(t: Tables, id: string): (r: Option<UserModel>)
    ensures r.None? <==> forall i :: 0 <= i < |t.users| ==> t.users[i].id != id
    ensures r.Some? ==> r.value.id == id && RowOf(r.value) in t.users
  {
    FindFirstAt(t.users, (u: UserRow) => u.id == id);
    match UserRowById(t.users, id)
    case None => None
    case Some(row) => Some(WithProfiles(t, row))
  }

  function UserRowByEmail(users: seq<UserRow>, email: string): Option<UserRow> {
    FindFirst(users, (u: UserRow) => u.email == email)
  }

  /** `findByEmail`: the user whose stored email is the lower-cased argument, or null. */
  function LookupByEmail(t: Tables, email: string): (r: Option<UserModel>)
    ensures r.None? <==> forall i :: 0 <= i < |t.users| ==> t.users[i].email != ToLower(email)
    ensures r.Some? ==> r.value.email == ToLower(email) && RowOf(r.value) in t.users
  {
    FindFirstAt(t.users, (u: UserRow) => u.email == ToLower(email));
    match UserRowByEmail(t.users, ToLower(email))
    case None => None
    case Some(row) => Some(WithProfiles(t, row))
  }

  /** Email lookup ignores the case of its argument. */
  lemma LookupByEmailIgnoresCase(t: Tables, e1: string, e2: string)
    requires ToLower(e1) == ToLower(e2)
    ensures LookupByEmail(t, e1) == LookupByEmail(t, e2)
  {
  }

  predicate HasUser(users: seq<UserRow>, id: string) {
    exists i :: 0 <= i < |users| && users[i].id == id
  }

  predicate EmailTaken(users: seq<UserRow>, email: string) {
    exists i :: 0 <= i < |users| && users[i].email == email
  }

  /** The users table after `update({ where: { id }, data: { refreshTokenHash } })`. */
  function SetRefreshHash(users: seq<UserRow>, id: string, h: Option<Digest>): (r: seq<UserRow>)
    ensures |r| == |users|
    ensures forall i :: 0 <= i < |users| && users[i].id == id ==> r[i] == users[i].(refreshTokenHash := h)
    ensures forall i :: 0 <= i < |users| && users[i].id != id ==> r[i] == users[i]
  {
    if users == [] then []
    else
      [if users[0].id == id then users[0].(refreshTokenHash := h) else users[0]]
      + SetRefreshHash(users[1..], id, h)
  }

  /** Writing the same hash twice is writing it once. */
  lemma SetRefreshHashIdempotent(users: seq<UserRow>, id: string, h: Option<Digest>)
    ensures SetRefreshHash(SetRefreshHash(users, id, h), id, h) == SetRefreshHash(users, id, h)
  {
  }

  /** Looking a user row up by id after the hash update finds the same row, with the new hash when it is that user. */
  lemma {:induction false} SetRefreshHashRowById(users: seq<UserRow>, id: string, h: Option<Digest>, x: string)
    ensures UserRowById(SetRefreshHash(users, id, h), x) ==
      match UserRowById(users, x)
      case None => None
      case Some(row) => Some(if row.id == id then row.(refreshTokenHash := h) else row)
  {
    if users != [] {
      SetRefreshHashRowById(users[1..], id, h, x);
      var r := SetRefreshHash(users, id, h);
      assert r[1..] == SetRefreshHash(users[1..], id, h);
    }
  }

  /** The model read after the hash update: unchanged except for that user's hash. */
  lemma SetRefreshHashLookup(t: Tables, id: string, h: Option<Digest>, x: string)
    ensures LookupById(t.(users := SetRefreshHash(t.users, id, h)), x) ==
      match LookupById(t, x)
      case None => None
      case Some(u) => Some(if x == id then u.(refreshTokenHash := h) else u)
  {
    SetRefreshHashRowById(t.users, id, h, x);
  }

  /** The fields `create` receives: a user model without id and timestamps. */
  datatype NewUser = NewUser(
    email: string,
    passwordHash: Digest,
    role: Role,
    isActive: bool,
    refreshTokenHash: Option<Digest>)

  /** The row the database stores for `create`: the given columns, a generated id and the insertion time. */
  function InsertedRow(data: NewUser, id: string, now: int): UserRow {
    UserRow(id, data.email, data.passwordHash, data.role, data.isActive, data.refreshTokenHash, now, now)
  }

  class UserRepositoryPrisma {
    const db: Database

    constructor (db: Database)
      ensures this.db == db
    {
      this.db := db;
    }

    function FindById(id: string): (r: Option<UserModel>)
      reads db
      ensures r == LookupById(db.Snapshot(), id)
    {
      LookupById(db.Snapshot(), id)
    }

    function FindByEmail(email: string): (r: Option<UserModel>)
      reads db
      ensures r == LookupByEmail(db.Snapshot(), email)
    {
      LookupByEmail(db.Snapshot(), email)
    }

    /**
     * `create`: inserts the row (a null refresh hash is simply omitted, which
     * stores null) and returns it without profile ids. The unique email
     * column rejects a second row with the same email.
     */
    method Create(data: NewUser, freshId: string, now: int) returns (r: Result<UserModel>)
      requires FreshId(db.Snapshot(), freshId)
      modifies db`users
      ensures EmailTaken(old(db.users), data.email) ==>
        r == Failure(UniqueViolation("email")) && db.users == old(db.users)
      ensures !EmailTaken(old(db.users), data.email) ==>
        && r == Success(ToModel(InsertedRow(data, freshId, now), None, None))
        && db.users == old(db.users) + [InsertedRow(data, freshId, now)]
    {
      if exists i :: 0 <= i < |db.users| && db.users[i].email == data.email {
        return Failure(UniqueViolation("email"));
      }
      var row := InsertedRow(data, freshId, now);
      db.users := db.users + [row];
      r := Success(ToModel(row, None, None));
    }

    /** `updateRefreshTokenHash`: changes that column of that user only; a missing user is an error. */
    method UpdateRefreshTokenHash(userId: string, hash: Option<Digest>) returns (r: Result<()>)
      modifies db`users
      ensures r == if HasUser(old(db.users), userId) then Success(()) else Failure(RecordNotFound)
      ensures db.users == if r.Success? then SetRefreshHash(old(db.users), userId, hash) else old(db.users)
    {
      if !(exists i :: 0 <= i < |db.users| && db.users[i].id == userId) {
        return Failure(RecordNotFound);
      }
      db.users := SetRefreshHash(db.users, userId, hash);
      r := Success(());
    }
  }
}
