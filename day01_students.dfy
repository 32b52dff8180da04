/**
 * The first, in-memory version of the students API: a service object that
 * keeps an array of student objects, appends to it, merges update data into
 * a stored object in place, filters it on removal and answers grade queries.
 */
module Day01Students {
  import opened Base

  /** What a student object holds at one moment. */
  datatype StudentValue = StudentValue(id: string, name: string, age: int, grade: int, isActive: bool, createdAt: int)

  datatype CreateStudentDto = CreateStudentDto(name: string, age: int, grade: int, isActive: bool)

  /** The update body: every field optional; a present field overwrites the stored one. */
  datatype UpdateStudentDto = UpdateStudentDto(name: Option<string>, age: Option<int>, grade: Option<int>, isActive: Option<bool>)

  /** A stored student: a mutable object shared by everyone who holds a reference to it. */
  class Student {
    var id: string
    var name: string
    var age: int
    var grade: int
    var isActive: bool
    var createdAt: int

    constructor (v: StudentValue)
      ensures View() == v
    {
      id, name, age, grade, isActive, createdAt := v.id, v.name, v.age, v.grade, v.isActive, v.createdAt;
    }

    function View(): StudentValue
      reads this
    {
      StudentValue(id, name, age, grade, isActive, createdAt)
    }

    /** `Object.assign(this, dto)`: only the fields the dto carries change. */
    method Assign(dto: UpdateStudentDto)
      modifies this
      ensures View() == Assigned(old(View()), dto)
    {
      if dto.name.Some? { name := dto.name.value; }
      if dto.age.Some? { age := dto.age.value; }
      if dto.grade.Some? { grade := dto.grade.value; }
      if dto.isActive.Some? { isActive := dto.isActive.value; }
    }
  }

  // ---------------------------------------------------------------------
  // The value-level specification

  /** A student's value after the dto is merged into it. */
  function Assigned(v: StudentValue, dto: UpdateStudentDto): (r: StudentValue)
    ensures r.id == v.id && r.createdAt == v.createdAt
    ensures r.name == dto.name.GetOr(v.name) && r.age == dto.age.GetOr(v.age)
    ensures r.grade == dto.grade.GetOr(v.grade) && r.isActive == dto.isActive.GetOr(v.isActive)
  {
    v.(name := dto.name.GetOr(v.name), age := dto.age.GetOr(v.age),
       grade := dto.grade.GetOr(v.grade), isActive := dto.isActive.GetOr(v.isActive))
  }

  /** Merging the same dto twice is merging it once. */
  lemma AssignedIdempotent(v: StudentValue, dto: UpdateStudentDto)
    ensures Assigned(Assigned(v, dto), dto) == Assigned(v, dto)
  {
  }

  /** The position of the first student with the id, or the length when there is none. */
  function IndexOf(vs: seq<StudentValue>, id: string): (k: nat)
    ensures k <= |vs|
    ensures k < |vs| ==> vs[k].id == id
    ensures forall j :: 0 <= j < k ==> vs[j].id != id
  {
    FirstIndex(vs, (v: StudentValue) => v.id == id)
  }

  function NotFoundError(id: string): Error {
    NotFound("Student " + id + " not found")
  }

  /** The list after `update(id, dto)`: the first student with the id merged with the dto, or the list as it was. */
  function Updated(vs: seq<StudentValue>, id: string, dto: UpdateStudentDto): seq<StudentValue> {
    var k := IndexOf(vs, id);
    if k < |vs| then vs[k := Assigned(vs[k], dto)] else vs
  }

  /**
   * An update changes only the first student with the id, keeps the length,
   * and changes nothing when no student has it.
   */
  lemma UpdatedEffect(vs: seq<StudentValue>, id: string, dto: UpdateStudentDto)
    ensures |Updated(vs, id, dto)| == |vs|
    ensures forall j :: 0 <= j < |vs| && j != IndexOf(vs, id) ==> Updated(vs, id, dto)[j] == vs[j]
    ensures IndexOf(vs, id) < |vs| ==> Updated(vs, id, dto)[IndexOf(vs, id)] == Assigned(vs[IndexOf(vs, id)], dto)
    ensures (forall j :: 0 <= j < |vs| ==> vs[j].id != id) ==> Updated(vs, id, dto) == vs
  {
  }

  /** Ids are kept, so the same update applied twice has the effect of one. */
  lemma UpdatedIdempotent(vs: seq<StudentValue>, id: string, dto: UpdateStudentDto)
    ensures Updated(Updated(vs, id, dto), id, dto) == Updated(vs, id, dto)
  {
    var ws := Updated(vs, id, dto);
    var k := IndexOf(vs, id);
    assert forall j :: 0 <= j < |ws| ==> ws[j].id == vs[j].id;
    assert IndexOf(ws, id) == k;
    if k < |vs| {
      AssignedIdempotent(vs[k], dto);
    }
  }

  /** The list after `remove(id)`: students with any other id, in their order. */
  function Removed(vs: seq<StudentValue>, id: string): seq<StudentValue> {
    Filter(vs, (v: StudentValue) => v.id != id)
  }

  /**
   * Removal deletes every student with the id and keeps every other one; when
   * the length is unchanged no student had the id and the list is the same.
   */
  lemma RemovedMeaning(vs: seq<StudentValue>, id: string)
    ensures forall v :: v in Removed(vs, id) <==> v in vs && v.id != id
    ensures |Removed(vs, id)| == |vs| <==> forall j :: 0 <= j < |vs| ==> vs[j].id != id
    ensures |Removed(vs, id)| == |vs| ==> Removed(vs, id) == vs
  {
    forall v
      ensures v in Removed(vs, id) <==> v in vs && v.id != id
    {
      FilterMembership(vs, (v: StudentValue) => v.id != id, v);
    }
    FilterAllOrNone(vs, (v: StudentValue) => v.id != id);
    if exists j :: 0 <= j < |vs| && vs[j].id == id {
      var j :| 0 <= j < |vs| && vs[j].id == id;
      FilterShorter(vs, (v: StudentValue) => v.id != id, j);
    }
  }

  /** A filter that drops some element is strictly shorter than its input. */
  lemma {:induction false} FilterShorter<T>(s: seq<T>, p: T -> bool, j: nat)
    requires j < |s| && !p(s[j])
    ensures |Filter(s, p)| < |s|
  {
    if j > 0 {
      FilterShorter(s[1..], p, j - 1);
    }
  }

  /** The lowest grade that passes when the caller gives none. */
  const DefaultMinGrade := 50

  /** `passed(minGrade)`: the students whose grade reaches the bound, in stored order. */
  function PassedValues(vs: seq<StudentValue>, minGrade: Option<int>): seq<StudentValue> {
    Filter(vs, Reaches(minGrade.GetOr(DefaultMinGrade)))
  }

  function Reaches(minGrade: int): StudentValue -> bool {
    (v: StudentValue) => v.grade >= minGrade
  }

  lemma PassedMeaning(vs: seq<StudentValue>, minGrade: Option<int>)
    ensures forall v :: v in PassedValues(vs, minGrade) <==> v in vs && v.grade >= minGrade.GetOr(50)
    ensures PassedValues(vs, None) == PassedValues(vs, Some(50))
  {
    forall v
      ensures v in PassedValues(vs, minGrade) <==> v in vs && v.grade >= minGrade.GetOr(50)
    {
      FilterMembership(vs, Reaches(minGrade.GetOr(DefaultMinGrade)), v);
    }
  }

  function GradeSum(vs: seq<StudentValue>): int {
    if vs == [] then 0 else vs[0].grade + GradeSum(vs[1..])
  }

  /** `Math.round(x * 100) / 100`, over exact reals: rounding half up to two decimals. */
  function RoundHundredths(x: real): real {
    ((x * 100.0 + 0.5).Floor as real) / 100.0
  }

  /** `averageGrade()`: 0 for an empty list, else the mean grade rounded to two decimals. */
  function AverageOf(vs: seq<StudentValue>): (r: real)
    ensures vs == [] ==> r == 0.0
  {
    if vs == [] then 0.0 else RoundHundredths(GradeSum(vs) as real / |vs| as real)
  }

  lemma {:induction false} GradeSumConstant(vs: seq<StudentValue>, g: int)
    requires forall i :: 0 <= i < |vs| ==> vs[i].grade == g
    ensures GradeSum(vs) == |vs| * g
  {
    if vs != [] {
      GradeSumConstant(vs[1..], g);
    }
  }

  /** When every student has the same whole grade, the average is that grade. */
  lemma AverageOfConstant(vs: seq<StudentValue>, g: int)
    requires vs != [] && forall i :: 0 <= i < |vs| ==> vs[i].grade == g
    ensures AverageOf(vs) == g as real
  {
    GradeSumConstant(vs, g);
    var n := |vs|;
    assert (n * g) as real == n as real * g as real;
    assert GradeSum(vs) as real / n as real == g as real;
    assert g as real * 100.0 + 0.5 == (g * 100) as real + 0.5;
    assert (g as real * 100.0 + 0.5).Floor == g * 100;
  }

  // ---------------------------------------------------------------------
  // Object lists and the service

  /** No object is stored twice, so writing one stored student changes one position of the list. */
  predicate Distinct(ss: seq<Student>) {
    forall i, j :: 0 <= i < j < |ss| ==> ss[i] != ss[j]
  }

  /** The values the listed objects hold now. */
  function Views(ss: seq<Student>): (r: seq<StudentValue>)
    reads set s | s in ss
    ensures |r| == |ss|
    ensures forall i :: 0 <= i < |ss| ==> r[i] == ss[i].View()
  {
    if ss == [] then [] else [ss[0].View()] + Views(ss[1..])
  }

  /** `ss.filter(x => keep(x))` over objects: the kept objects, whose values are the filtered values. */
  function Select(ss: seq<Student>, keep: StudentValue -> bool): (r: seq<Student>)
    reads set s | s in ss
    ensures Views(r) == Filter(Views(ss), keep)
    ensures forall x :: x in r ==> x in ss
    ensures Distinct(ss) ==> Distinct(r)
  {
    if ss == [] then []
    else
      var rest := Select(ss[1..], keep);
      assert Views(ss)[1..] == Views(ss[1..]);
      if keep(ss[0].View()) then
        assert Distinct(ss) ==> ss[0] !in rest;
        assert Views([ss[0]] + rest) == [ss[0].View()] + Views(rest);
        [ss[0]] + rest
      else rest
  }

  class StudentsService {
    var students: seq<Student>

    /** The values of the stored students, in order. */
    function Values(): seq<StudentValue>
      reads this, set s | s in students
    {
      Views(students)
    }

    predicate Valid()
      reads this
    {
      Distinct(students)
    }

    /** The list starts as a copy of the seed list; the objects themselves are shared with it. */
    constructor (seed: seq<Student>)
      requires Distinct(seed)
      ensures students == seed && Valid()
    {
      students := seed;
    }

    /** `create(dto)` with `id` the generated identifier and `now` the creation time. */
    method Create(dto: CreateStudentDto, id: string, now: int) returns (s: Student)
      requires Valid()
      modifies this
      ensures fresh(s) && Valid()
      ensures s.View() == StudentValue(id, dto.name, dto.age, dto.grade, dto.isActive, now)
      ensures students == old(students) + [s]
      ensures Values() == old(Values()) + [s.View()]
    {
      s := new Student(StudentValue(id, dto.name, dto.age, dto.grade, dto.isActive, now));
      students := students + [s];
    }

    /** `findAll()`: the stored list itself. */
    function FindAll(): (r: seq<Student>)
      reads this
      ensures r == students
    {
      students
    }

    /** `findById(id)`: the first stored student with the id, or NotFound. */
    function FindById(id: string): (r: Result<Student>)
      reads this, set s | s in students
      ensures r.Success? <==> exists i :: 0 <= i < |students| && students[i].id == id
      ensures r.Success? ==> r.value == students[IndexOf(Values(), id)] && r.value.id == id
      ensures r.Failure? ==> r.error == NotFoundError(id)
    {
      var k := IndexOf(Values(), id);
      if k < |students| then Success(students[k]) else Failure(NotFoundError(id))
    }

    /** `update(id, dto)`: the found object is merged with the dto in place. */
    method Update(id: string, dto: UpdateStudentDto) returns (r: Result<Student>)
      requires Valid()
      modifies set s | s in students
      ensures r == old(FindById(id))
      ensures students == old(students) && Valid()
      ensures Values() == Updated(old(Values()), id, dto)
    {
      r := FindById(id);
      if r.Failure? {
        return;
      }
      ghost var k := IndexOf(Values(), id);
      ghost var before := Values();
      r.value.Assign(dto);
      assert forall j :: 0 <= j < |students| && j != k ==> students[j] != students[k];
      assert Values() == before[k := Assigned(before[k], dto)];
    }

    /** `remove(id)`: the list is reassigned to the filtered one, then NotFound when nothing was dropped. */
    method Remove(id: string) returns (r: Result<()>)
      requires Valid()
      modifies this
      ensures Valid()
      ensures Values() == Removed(old(Values()), id)
      ensures r.Failure? <==> forall i :: 0 <= i < |old(students)| ==> old(students)[i].id != id
      ensures r.Failure? ==> r.error == NotFoundError(id) && Values() == old(Values())
    {
      ghost var before := Values();
      var n := |students|;
      students := Select(students, (v: StudentValue) => v.id != id);
      RemovedMeaning(before, id);
      if |students| == n {
        return Failure(NotFoundError(id));
      }
      r := Success(());
    }

    /** `passed(minGrade)`: the stored students whose grade reaches the bound, 50 by default. */
    function Passed(minGrade: Option<int>): (r: seq<Student>)
      reads this, set s | s in students
      ensures Views(r) == PassedValues(Values(), minGrade)
      ensures forall x :: x in r ==> x in students
    {
      Select(students, Reaches(minGrade.GetOr(DefaultMinGrade)))
    }

    /** `averageGrade()`. */
    function AverageGrade(): (r: real)
      reads this, set s | s in students
      ensures students == [] ==> r == 0.0
      ensures r == AverageOf(Values())
    {
      AverageOf(Values())
    }
  }
}
