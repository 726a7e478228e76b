/** The courses table: the page view that bumps `viewCount` and the
    filtered list newest first. */
module CoursesDb {
  import opened Wrappers
  import opened Text
  import Query
  import Db
  import Schema

  datatype CourseType = OneOnOne | SmallClass | LargeClass

  function CourseTypeName(t: CourseType): string {
    match t
    case OneOnOne => "一对一"
    case SmallClass => "小班课"
    case LargeClass => "大班课"
  }

  datatype Course = Course(
    id: int,
    title: string,
    teacherName: string,
    teacherTitle: Option<string>,
    teacherSchool: Option<string>,
    teacherIntro: Option<string>,
    subject: string,
    grade: string,
    description: Option<string>,
    syllabus: Option<string>,
    schedule: Option<string>,
    location: Option<string>,
    price: Schema.Cents,
    maxStudents: Option<int>,
    courseType: CourseType,
    duration: Option<string>,
    startDate: Option<int>,
    endDate: Option<int>,
    contactPhone: Option<string>,
    contactWechat: Option<string>,
    isActive: bool,
    viewCount: int,
    createdBy: int,
    createdAt: int)

  function CourseHasId(id: int): Course -> bool {
    (c: Course) => c.id == id
  }

  function Viewed(c: Course): Course {
    c.(viewCount := c.viewCount + 1)
  }

  /** The `viewCount + 1` update for one id. */
  function ViewCourse(rows: seq<Course>, id: int): (r: seq<Course>)
    ensures |r| == |rows|
    ensures forall i :: 0 <= i < |rows| ==>
      r[i] == if rows[i].id == id then rows[i].(viewCount := rows[i].viewCount + 1) else rows[i]
  {
    Query.UpdateWhere(rows, CourseHasId(id), Viewed)
  }

  /** What the page view answers: the row as it is after the bump. */
  function ViewedAnswer(rows: seq<Course>, id: int): (r: Option<Course>)
    ensures r.None? <==> forall i :: 0 <= i < |rows| ==> rows[i].id != id
    ensures r.Some? ==> exists i :: 0 <= i < |rows| && rows[i].id == id && r.value == Viewed(rows[i])
  {
    var after := ViewCourse(rows, id);
    var found := Query.FirstWhere(after, CourseHasId(id));
    if found.Some? then
      var i :| 0 <= i < |after| && after[i] == found.value;
      assert rows[i].id == id;
      found
    else found
  }

  /** The filters `listCourses` accepts. */
  datatype CourseFilter = CourseFilter(
    subject: Option<string>,
    grade: Option<string>,
    search: Option<string>,
    limit: Option<int>,
    offset: Option<int>,
    activeOnly: Option<bool>)

  predicate Given(s: Option<string>) {
    s.Some? && s.value != ""
  }

  predicate OtherFiltersHold(f: CourseFilter, c: Course) {
    (f.activeOnly == Some(true) ==> c.isActive)
    && (Given(f.subject) ==> c.subject == f.subject.value)
    && (Given(f.grade) ==> c.grade == f.grade.value)
  }

  predicate SearchHits(term: string, c: Course) {
    Contains(c.title, term) || Contains(c.teacherName, term)
  }

  /** The intended selection: every truthy filter holds, the term in the
      title or the teacher's name. */
  predicate Matches(f: CourseFilter, c: Course) {
    OtherFiltersHold(f, c) && (Given(f.search) ==> SearchHits(f.search.value, c))
  }

  function MatchesFilter(f: CourseFilter): Course -> bool {
    (c: Course) => Matches(f, c)
  }

  /** The selection as the statement reads under SQL precedence:
      `(others AND title LIKE …) OR teacherName LIKE …`. */
  predicate MatchesAsWritten(f: CourseFilter, c: Course) {
    if Given(f.search) then (OtherFiltersHold(f, c) && Contains(c.title, f.search.value)) || Contains(c.teacherName, f.search.value)
    else OtherFiltersHold(f, c)
  }

  /** A withdrawn course is listed among the active ones when the term is
      in its teacher's name. */
  lemma SearchEscapesActiveOnly()
    ensures var f := CourseFilter(None, None, Some("x"), None, None, Some(true));
      var c := Course(1, "", "x", None, None, None, "", "", None, None, None, None, 0, None, SmallClass,
                      None, None, None, None, None, false, 0, 1, 0);
      MatchesAsWritten(f, c) && !Matches(f, c)
  {
    var c := Course(1, "", "x", None, None, None, "", "", None, None, None, None, 0, None, SmallClass,
                    None, None, None, None, None, false, 0, 1, 0);
    assert c.teacherName[0..1] == "x";
  }

  function CourseCreatedAt(c: Course): int {
    c.createdAt
  }

  /** `listCourses`: the matching rows, newest first, then the window. */
  function ListCoursesSpec(rows: seq<Course>, f: CourseFilter): (r: Result<seq<Course>, Query.QueryError>)
    ensures r.Failure? <==> (Query.IsSet(f.limit) && f.limit.value < 0) || (Query.IsSet(f.offset) && f.offset.value < 0)
    ensures r.Success? ==> forall c :: c in r.value ==>
      c in rows && (f.activeOnly == Some(true) ==> c.isActive)
      && (Given(f.subject) ==> c.subject == f.subject.value)
      && (Given(f.grade) ==> c.grade == f.grade.value)
      && (Given(f.search) ==> Contains(c.title, f.search.value) || Contains(c.teacherName, f.search.value))
    ensures r.Success? ==> Query.SortedDesc(r.value, CourseCreatedAt)
    ensures r.Success? ==> Query.IsWindow(r.value, Query.Ordered(rows, MatchesFilter(f), CourseCreatedAt), f.limit, f.offset)
    ensures r.Success? && Query.IsSet(f.limit) ==> |r.value| <= f.limit.value
  {
    Query.Select(rows, MatchesFilter(f), CourseCreatedAt, f.limit, f.offset)
  }

  /** A filter without a window lists every matching row. */
  lemma ListCoursesEverything(rows: seq<Course>, f: CourseFilter, c: Course)
    requires f.limit.None? && f.offset.None?
    ensures ListCoursesSpec(rows, f).Success?
    ensures c in ListCoursesSpec(rows, f).value <==> c in rows && Matches(f, c)
  {
    Query.SelectEverything(rows, MatchesFilter(f), CourseCreatedAt);
  }

  /** The courses table, changed in place by the page view. */
  class CourseTable {
    const available: bool
    var rows: seq<Course>

    constructor (available: bool, rows: seq<Course>)
      ensures this.available == available && this.rows == rows
    {
      this.available := available;
      this.rows := rows;
    }

    /** `getCourseById`: bump the view count, then read the row back. */
    method GetCourseById(id: int) returns (result: Result<Option<Course>, Db.DbError>)
      modifies this
      ensures !available ==> result == Failure(Db.Unavailable) && rows == old(rows)
      ensures available ==> rows == ViewCourse(old(rows), id) && result == Success(ViewedAnswer(old(rows), id))
    {
      if !available {
        return Failure(Db.Unavailable);
      }
      rows := Query.UpdateWhere(rows, CourseHasId(id), Viewed);
      result := Success(Query.FirstWhere(rows, CourseHasId(id)));
    }

    /** `listCourses`: push one condition per truthy filter, then select. */
    method ListCourses(f: CourseFilter) returns (result: Result<seq<Course>, Db.DbError>)
      ensures !available ==> result == Failure(Db.Unavailable)
      ensures available ==> match ListCoursesSpec(rows, f)
        case Success(page) => result == Success(page)
        case Failure(_) => result == Failure(Db.BadQuery)
    {
      if !available {
        return Failure(Db.Unavailable);
      }
      ghost var p1 := Push(f.activeOnly == Some(true), IsActive());
      ghost var p2 := Push(Given(f.subject), InSubject(f.subject.GetOr("")));
      ghost var p3 := Push(Given(f.grade), ForGrade(f.grade.GetOr("")));
      var conditions: seq<Course -> bool> := [];
      if f.activeOnly == Some(true) {
        conditions := conditions + [IsActive()];
      }
      assert conditions == p1;
      if Given(f.subject) {
        conditions := conditions + [InSubject(f.subject.value)];
      }
      assert conditions == p1 + p2;
      if Given(f.grade) {
        conditions := conditions + [ForGrade(f.grade.value)];
      }
      assert conditions == p1 + p2 + p3;
      if Given(f.search) {
        conditions := conditions + [Searched(f.search.value)];
      }
      assert conditions == PushedConditions(f);
      forall c: Course
        ensures Query.AllTrue(conditions, c) <==> Matches(f, c)
      {
        ConditionsMean(f, c);
      }
      var page := Query.RunSelect(rows, conditions, MatchesFilter(f), CourseCreatedAt, f.limit, f.offset);
      result := if page.Success? then Success(page.value) else Failure(Db.BadQuery);
    }
  }

  function IsActive(): Course -> bool {
    (c: Course) => c.isActive
  }

  function InSubject(s: string): Course -> bool {
    (c: Course) => c.subject == s
  }

  function ForGrade(s: string): Course -> bool {
    (c: Course) => c.grade == s
  }

  function Searched(term: string): Course -> bool {
    (c: Course) => SearchHits(term, c)
  }

  function Push(guard: bool, cond: Course -> bool): seq<Course -> bool> {
    if guard then [cond] else []
  }

  /** The conditions `listCourses` pushes, in order, for a filter. */
  function PushedConditions(f: CourseFilter): seq<Course -> bool> {
    Push(f.activeOnly == Some(true), IsActive())
    + Push(Given(f.subject), InSubject(f.subject.GetOr("")))
    + Push(Given(f.grade), ForGrade(f.grade.GetOr("")))
    + Push(Given(f.search), Searched(f.search.GetOr("")))
  }

  lemma ConditionsMean(f: CourseFilter, c: Course)
    ensures Query.AllTrue(PushedConditions(f), c) <==> Matches(f, c)
  {
    var p1 := Push(f.activeOnly == Some(true), IsActive());
    var p2 := Push(Given(f.subject), InSubject(f.subject.GetOr("")));
    var p3 := Push(Given(f.grade), ForGrade(f.grade.GetOr("")));
    var p4 := Push(Given(f.search), Searched(f.search.GetOr("")));
    Query.AllTrueSingle(IsActive(), c);
    Query.AllTrueSingle(InSubject(f.subject.GetOr("")), c);
    Query.AllTrueSingle(ForGrade(f.grade.GetOr("")), c);
    Query.AllTrueSingle(Searched(f.search.GetOr("")), c);
    Query.AllTrueConcat(p1, p2, c);
    Query.AllTrueConcat(p1 + p2, p3, c);
    Query.AllTrueConcat(p1 + p2 + p3, p4, c);
  }
}
