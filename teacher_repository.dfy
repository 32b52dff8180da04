/**
 * The teacher repository over the teachers table: the name/email search
 * shared by listing and counting, the look-up by optional criteria, the
 * in-memory `create` and `merge`, the insert-or-update `save` and a
 * `delete` that reports how many rows it removed.
 */
module TeacherRepo {
  import opened Base
  import opened Store

  /** A partial teacher: the `Partial<TeacherModel>` the repository accepts. */
  datatype TeacherPartial = TeacherPartial(
    id: Option<string>,
    userId: Option<string>,
    fullName: Option<string>,
    email: Option<string>,
    createdAt: Option<int>)

  const NoTeacherFields := TeacherPartial(None, None, None, None, None)

  function TeacherPartialOf(t: TeacherRow): TeacherPartial {
    TeacherPartial(Some(t.id), Some(t.userId), Some(t.fullName), Some(t.email), Some(t.createdAt))
  }

  // ---------------------------------------------------------------------
  // Search

  /** The clause `buildWhere(search)` returns: a name-or-email match on the trimmed term, or none. */
  datatype TeacherWhere = NameOrEmailContains(term: string)

  function TeacherWhereFor(search: Option<string>): Option<TeacherWhere> {
    match SearchTerm(search)
    case None => None
    case Some(term) => Some(NameOrEmailContains(term))
  }

  predicate TeacherMatches(w: Option<TeacherWhere>, t: TeacherRow) {
    w.None? || ContainsInsensitive(t.fullName, w.value.term) || ContainsInsensitive(t.email, w.value.term)
  }

  /**
   * No clause is built for an absent or blank search; otherwise a teacher
   * passes exactly when its full name or email contains the trimmed search,
   * ignoring case.
   */
  lemma TeacherWhereMeaning(search: Option<string>, t: TeacherRow)
    ensures TeacherWhereFor(search).None? <==> search.None? || IsBlank(search.value)
    ensures search.Some? && !IsBlank(search.value) ==>
      (TeacherMatches(TeacherWhereFor(search), t) <==>
        ContainsInsensitive(t.fullName, Trim(search.value)) || ContainsInsensitive(t.email, Trim(search.value)))
  {
    SearchTermMeaning(search);
  }

  /** The teachers the search selects, in `createdAt` order. */
  function TeachersMatching(teachers: seq<TeacherRow>, search: Option<string>): seq<TeacherRow> {
    Filter(teachers, (t: TeacherRow) => TeacherMatches(TeacherWhereFor(search), t))
  }

  /** Exactly the stored teachers the clause lets through are selected. */
  lemma TeachersMatchingMeaning(teachers: seq<TeacherRow>, search: Option<string>)
    ensures forall t :: t in TeachersMatching(teachers, search) <==> t in teachers && TeacherMatches(TeacherWhereFor(search), t)
  {
    forall t {
      FilterMembership(teachers, (t: TeacherRow) => TeacherMatches(TeacherWhereFor(search), t), t);
    }
  }

  /** The options of `findMany`: the window and the search. */
  datatype TeacherFindManyOptions = TeacherFindManyOptions(skip: nat, take: nat, search: Option<string>)

  function TeacherPage(teachers: seq<TeacherRow>, o: TeacherFindManyOptions): seq<TeacherRow> {
    Page(TeachersMatching(teachers, o.search), o.skip, o.take)
  }

  /**
   * The page and the count use the same search: the page holds at most
   * `take` of the counted teachers, the ones after the first `skip`, and it
   * is full unless the count runs out.
   */
  lemma TeacherPageAgreesWithCount(teachers: seq<TeacherRow>, o: TeacherFindManyOptions)
    ensures var total := |TeachersMatching(teachers, o.search)|;
      |TeacherPage(teachers, o)| == Min(o.take, if o.skip <= total then total - o.skip else 0)
    ensures forall i :: 0 <= i < |TeacherPage(teachers, o)| ==>
      o.skip + i < |TeachersMatching(teachers, o.search)| &&
      TeacherPage(teachers, o)[i] == TeachersMatching(teachers, o.search)[o.skip + i]
  {
    var matching := TeachersMatching(teachers, o.search);
    assert TeacherPage(teachers, o) == Page(matching, o.skip, o.take);
    PageIndexes(matching, o.skip, o.take);
  }

  /** Every teacher on a page is a stored teacher the search lets through. */
  lemma TeacherPageSelected(teachers: seq<TeacherRow>, o: TeacherFindManyOptions)
    ensures forall t :: t in TeacherPage(teachers, o) ==> t in teachers && TeacherMatches(TeacherWhereFor(o.search), t)
  {
    var matching := TeachersMatching(teachers, o.search);
    assert TeacherPage(teachers, o) == Page(matching, o.skip, o.take);
    PageWithin(matching, o.skip, o.take);
    TeachersMatchingMeaning(teachers, o.search);
  }

  // ---------------------------------------------------------------------
  // Look-up by criteria

  /** The `where` object `findOneBy` assembles: every criterion but the creation time. */
  datatype TeacherKeys = TeacherKeys(id: Option<string>, userId: Option<string>, email: Option<string>, fullName: Option<string>)

  predicate MeetsTeacherKeys(w: TeacherKeys, t: TeacherRow) {
    && (w.id.Some? ==> t.id == w.id.value)
    && (w.userId.Some? ==> t.userId == w.userId.value)
    && (w.email.Some? ==> t.email == w.email.value)
    && (w.fullName.Some? ==> t.fullName == w.fullName.value)
  }

  function TeacherKeysMatch(w: TeacherKeys): TeacherRow -> bool {
    t => MeetsTeacherKeys(w, t)
  }

  function TeacherKeysOf(crit: TeacherPartial): TeacherKeys {
    TeacherKeys(crit.id, crit.userId, crit.email, crit.fullName)
  }

  /** The teacher `findOneBy(criteria)` returns: the first meeting every given criterion. */
  function FirstTeacherMeeting(teachers: seq<TeacherRow>, crit: TeacherPartial): (r: Option<TeacherRow>)
    ensures r.Some? ==> r.value in teachers && MeetsTeacherKeys(TeacherKeysOf(crit), r.value)
    ensures r.None? <==> forall i :: 0 <= i < |teachers| ==> !MeetsTeacherKeys(TeacherKeysOf(crit), teachers[i])
  {
    FindFirstAt(teachers, TeacherKeysMatch(TeacherKeysOf(crit)));
    FindFirst(teachers, TeacherKeysMatch(TeacherKeysOf(crit)))
  }

  /** The creation time of the criteria is ignored, and a look-up by id alone is the table's look-up by id. */
  lemma FirstTeacherMeetingKeys(teachers: seq<TeacherRow>, crit: TeacherPartial, createdAt: Option<int>, id: string)
    ensures FirstTeacherMeeting(teachers, crit.(createdAt := createdAt)) == FirstTeacherMeeting(teachers, crit)
    ensures FirstTeacherMeeting(teachers, NoTeacherFields.(id := Some(id))) == TeacherById(teachers, id)
  {
    assert TeacherKeysOf(crit.(createdAt := createdAt)) == TeacherKeysOf(crit);
    FindFirstPointwise(teachers, TeacherKeysMatch(TeacherKeysOf(NoTeacherFields.(id := Some(id)))),
                       (t: TeacherRow) => t.id == id);
  }

  // ---------------------------------------------------------------------
  // In-memory construction

  /** `create(data)`: the given fields, '' for a missing string and `now` for a missing creation time. */
  function NewTeacher(data: TeacherPartial, now: int): TeacherRow {
    TeacherRow(data.id.GetOr(""), data.userId.GetOr(""), data.fullName.GetOr(""), data.email.GetOr(""), data.createdAt.GetOr(now))
  }

  lemma NewTeacherDefaults(data: TeacherPartial, now: int)
    ensures NewTeacher(NoTeacherFields, now) == TeacherRow("", "", "", "", now)
    ensures forall t :: NewTeacher(TeacherPartialOf(t), now) == t
    ensures data.userId.None? ==> NewTeacher(data, now).userId == ""
  {
  }

  /** `merge(entity, data)`: every field present in `data` overrides the entity's. */
  function MergedTeacher(e: TeacherRow, data: TeacherPartial): TeacherRow {
    TeacherRow(data.id.GetOr(e.id), data.userId.GetOr(e.userId), data.fullName.GetOr(e.fullName),
               data.email.GetOr(e.email), data.createdAt.GetOr(e.createdAt))
  }

  lemma MergedTeacherMeaning(e: TeacherRow, data: TeacherPartial)
    ensures MergedTeacher(e, NoTeacherFields) == e
    ensures MergedTeacher(MergedTeacher(e, data), data) == MergedTeacher(e, data)
    ensures forall t :: MergedTeacher(e, TeacherPartialOf(t)) == t
    ensures data.id.None? ==> MergedTeacher(e, data).id == e.id
  {
  }

  // ---------------------------------------------------------------------
  // Writes

  predicate HasTeacher(teachers: seq<TeacherRow>, id: string) {
    exists i :: 0 <= i < |teachers| && teachers[i].id == id
  }

  /** The columns `save` writes. */
  datatype TeacherPayload = TeacherPayload(userId: string, fullName: string, email: string)

  function TeacherPayloadOf(e: TeacherRow): TeacherPayload {
    TeacherPayload(e.userId, e.fullName, e.email)
  }

  function WithTeacherPayload(t: TeacherRow, p: TeacherPayload): TeacherRow {
    t.(userId := p.userId, fullName := p.fullName, email := p.email)
  }

  function RewrittenTeachers(teachers: seq<TeacherRow>, id: string, p: TeacherPayload): (r: seq<TeacherRow>)
    ensures |r| == |teachers|
    ensures forall i :: 0 <= i < |teachers| && teachers[i].id == id ==> r[i] == WithTeacherPayload(teachers[i], p)
    ensures forall i :: 0 <= i < |teachers| && teachers[i].id != id ==> r[i] == teachers[i]
  {
    if teachers == [] then []
    else
      [if teachers[0].id == id then WithTeacherPayload(teachers[0], p) else teachers[0]]
      + RewrittenTeachers(teachers[1..], id, p)
  }

  function InsertedTeacher(p: TeacherPayload, id: string, now: int): TeacherRow {
    TeacherRow(id, p.userId, p.fullName, p.email, now)
  }

  /** `save(entity)`: update by a non-empty id (failing when no row has it), else insert. */
  function SaveTeacherOutcome(teachers: seq<TeacherRow>, e: TeacherRow, freshId: string, now: int)
    : (Result<TeacherRow>, seq<TeacherRow>)
  {
    if e.id != "" then
      match TeacherById(teachers, e.id)
      case None => (Failure(RecordNotFound), teachers)
      case Some(stored) =>
        (Success(WithTeacherPayload(stored, TeacherPayloadOf(e))), RewrittenTeachers(teachers, e.id, TeacherPayloadOf(e)))
    else
      var row := InsertedTeacher(TeacherPayloadOf(e), freshId, now);
      (Success(row), teachers + [row])
  }

  lemma {:induction false} RewrittenTeachersById(teachers: seq<TeacherRow>, id: string, p: TeacherPayload)
    ensures TeacherById(RewrittenTeachers(teachers, id, p), id) ==
      match TeacherById(teachers, id)
      case None => None
      case Some(t) => Some(WithTeacherPayload(t, p))
  {
    if teachers != [] {
      RewrittenTeachersById(teachers[1..], id, p);
      assert RewrittenTeachers(teachers, id, p)[1..] == RewrittenTeachers(teachers[1..], id, p);
    }
  }

  /**
   * An update writes the user id, full name and email and nothing else: the
   * stored id and creation time are kept, other rows are untouched, and the
   * row read back by id is the returned one. A missing row fails unchanged.
   */
  lemma SaveTeacherUpdateMeaning(teachers: seq<TeacherRow>, e: TeacherRow, freshId: string, now: int)
    requires e.id != ""
    ensures var (r, ts) := SaveTeacherOutcome(teachers, e, freshId, now);
      && (r.Failure? <==> !HasTeacher(teachers, e.id))
      && (r.Failure? ==> r.error == RecordNotFound && ts == teachers)
      && (r.Success? ==>
           && r.value.id == e.id && r.value.createdAt == TeacherById(teachers, e.id).value.createdAt
           && TeacherPayloadOf(r.value) == TeacherPayloadOf(e)
           && TeacherById(ts, e.id) == Some(r.value)
           && |ts| == |teachers|
           && forall i :: 0 <= i < |teachers| && teachers[i].id != e.id ==> ts[i] == teachers[i])
  {
    FindFirstAt(teachers, (t: TeacherRow) => t.id == e.id);
    RewrittenTeachersById(teachers, e.id, TeacherPayloadOf(e));
  }

  lemma SaveTeacherInsertMeaning(teachers: seq<TeacherRow>, e: TeacherRow, freshId: string, now: int)
    requires e.id == ""
    requires forall i :: 0 <= i < |teachers| ==> teachers[i].id != freshId
    ensures var (r, ts) := SaveTeacherOutcome(teachers, e, freshId, now);
      && r == Success(InsertedTeacher(TeacherPayloadOf(e), freshId, now))
      && ts == teachers + [r.value]
      && TeacherById(ts, freshId) == Some(r.value)
  {
    var row := InsertedTeacher(TeacherPayloadOf(e), freshId, now);
    FindFirstAt(teachers, (t: TeacherRow) => t.id == freshId);
    FindFirstAppend(teachers, [row], (t: TeacherRow) => t.id == freshId);
  }

  /** `delete(id)`: affected 1 and the row gone when it existed, else affected 0 and nothing changed. */
  function DeleteTeacherOutcome(teachers: seq<TeacherRow>, id: string): (nat, seq<TeacherRow>) {
    if HasTeacher(teachers, id) then (1, Filter(teachers, (t: TeacherRow) => t.id != id)) else (0, teachers)
  }

  lemma DeleteTeacherMeaning(teachers: seq<TeacherRow>, id: string)
    ensures var (affected, ts) := DeleteTeacherOutcome(teachers, id);
      && (affected == 1 <==> HasTeacher(teachers, id))
      && (affected == 0 <==> !HasTeacher(teachers, id))
      && (affected == 0 ==> ts == teachers)
      && (forall t :: t in ts <==> t in teachers && (affected == 1 ==> t.id != id))
  {
    forall t {
      FilterMembership(teachers, (t: TeacherRow) => t.id != id, t);
    }
  }

  class TeacherRepositoryPrisma {
    const db: Database

    constructor (db: Database)
      ensures this.db == db
    {
      this.db := db;
    }

    method FindMany(options: TeacherFindManyOptions) returns (r: seq<TeacherRow>)
      ensures r == TeacherPage(db.teachers, options)
    {
      var where := TeacherWhereFor(options.search);
      r := Page(Filter(db.teachers, (t: TeacherRow) => TeacherMatches(where, t)), options.skip, options.take);
    }

    method Count(search: Option<string>) returns (n: nat)
      ensures n == |TeachersMatching(db.teachers, search)|
    {
      var where := TeacherWhereFor(search);
      n := |Filter(db.teachers, (t: TeacherRow) => TeacherMatches(where, t))|;
    }

    /** `findOneBy(criteria)`: the where object is filled field by field from the non-null criteria. */
    method FindOneBy(criteria: TeacherPartial) returns (r: Option<TeacherRow>)
      ensures r == FirstTeacherMeeting(db.teachers, criteria)
    {
      var where := TeacherKeys(None, None, None, None);
      if criteria.id.Some? { where := where.(id := criteria.id); }
      if criteria.userId.Some? { where := where.(userId := criteria.userId); }
      if criteria.email.Some? { where := where.(email := criteria.email); }
      if criteria.fullName.Some? { where := where.(fullName := criteria.fullName); }
      assert where == TeacherKeysOf(criteria);
      r := FindFirst(db.teachers, TeacherKeysMatch(where));
    }

    method Save(entity: TeacherRow, freshId: string, now: int) returns (r: Result<TeacherRow>)
      modifies db`teachers
      ensures (r, db.teachers) == SaveTeacherOutcome(old(db.teachers), entity, freshId, now)
    {
      var payload := TeacherPayloadOf(entity);
      if entity.id != "" {
        var stored := TeacherById(db.teachers, entity.id);
        if stored.None? {
          return Failure(RecordNotFound);
        }
        db.teachers := RewrittenTeachers(db.teachers, entity.id, payload);
        return Success(WithTeacherPayload(stored.value, payload));
      }
      var created := InsertedTeacher(payload, freshId, now);
      db.teachers := db.teachers + [created];
      r := Success(created);
    }

    /** `delete(id)`: any failure of the underlying delete is reported as 0 affected rows. */
    method Delete(id: string) returns (affected: nat)
      modifies db`teachers
      ensures (affected, db.teachers) == DeleteTeacherOutcome(old(db.teachers), id)
    {
      if !(exists i :: 0 <= i < |db.teachers| && db.teachers[i].id == id) {
        return 0;
      }
      db.teachers := Filter(db.teachers, (t: TeacherRow) => t.id != id);
      affected := 1;
    }
  }
}
