/** The competitions table: the page view that bumps `viewCount`, the
    filtered list newest first, and the non-empty categories. */
module CompetitionsDb {
  import opened Wrappers
  import opened Text
  import Query
  import Db

  datatype CompetitionLevel = National | Provincial | Municipal | School

  /** The enum's stored labels. */
  function LevelName(l: CompetitionLevel): string {
    match l
    case National => "国家级"
    case Provincial => "省级"
    case Municipal => "市级"
    case School => "校级"
  }

  datatype CompetitionStatus = Upcoming | RegistrationOpen | InProgress | Ended

  function StatusName(s: CompetitionStatus): string {
    match s
    case Upcoming => "即将开始"
    case RegistrationOpen => "报名中"
    case InProgress => "进行中"
    case Ended => "已结束"
  }

  datatype Competition = Competition(
    id: int,
    name: string,
    organizer: Option<string>,
    category: Option<string>,
    level: Option<CompetitionLevel>,
    description: Option<string>,
    requirements: Option<string>,
    awards: Option<string>,
    registrationStart: Option<int>,
    registrationEnd: Option<int>,
    competitionDate: Option<int>,
    officialWebsite: Option<string>,
    contactInfo: Option<string>,
    status: CompetitionStatus,
    isWhitelisted: bool,
    isPublished: bool,
    viewCount: int,
    createdBy: int,
    createdAt: int)

  function CompetitionHasId(id: int): Competition -> bool {
    (c: Competition) => c.id == id
  }

  function Viewed(c: Competition): Competition {
    c.(viewCount := c.viewCount + 1)
  }

  /** The `viewCount + 1` update for one id. */
  function ViewCompetition(rows: seq<Competition>, id: int): (r: seq<Competition>)
    ensures |r| == |rows|
    ensures forall i :: 0 <= i < |rows| ==>
      r[i] == if rows[i].id == id then rows[i].(viewCount := rows[i].viewCount + 1) else rows[i]
  {
    Query.UpdateWhere(rows, CompetitionHasId(id), Viewed)
  }

  /** What the page view answers: the row as it is after the bump. */
  function ViewedAnswer(rows: seq<Competition>, id: int): (r: Option<Competition>)
    ensures r.None? <==> forall i :: 0 <= i < |rows| ==> rows[i].id != id
    ensures r.Some? ==> exists i :: 0 <= i < |rows| && rows[i].id == id && r.value == Viewed(rows[i])
  {
    var after := ViewCompetition(rows, id);
    var found := Query.FirstWhere(after, CompetitionHasId(id));
    if found.Some? then
      var i :| 0 <= i < |after| && after[i] == found.value;
      assert rows[i].id == id;
      found
    else found
  }

  /** The filters `listCompetitions` accepts. */
  datatype CompetitionFilter = CompetitionFilter(
    category: Option<string>,
    level: Option<string>,
    status: Option<string>,
    isWhitelisted: Option<bool>,
    search: Option<string>,
    limit: Option<int>,
    offset: Option<int>,
    publishedOnly: Option<bool>)

  predicate Given(s: Option<string>) {
    s.Some? && s.value != ""
  }

  /** A nullable column compared for equality: NULL never matches. */
  predicate HasLevel(c: Competition, name: string) {
    c.level.Some? && LevelName(c.level.value) == name
  }

  /** The conditions before the search term. `isWhitelisted` applies
      whenever it is given, `false` included. */
  predicate OtherFiltersHold(f: CompetitionFilter, c: Competition) {
    (f.publishedOnly == Some(true) ==> c.isPublished)
    && (Given(f.category) ==> c.category == Some(f.category.value))
    && (Given(f.level) ==> HasLevel(c, f.level.value))
    && (Given(f.status) ==> StatusName(c.status) == f.status.value)
    && (f.isWhitelisted.Some? ==> c.isWhitelisted == f.isWhitelisted.value)
  }

  /** `description LIKE …` on a NULL description is not a hit. */
  predicate DescriptionHit(term: string, c: Competition) {
    c.description.Some? && Contains(c.description.value, term)
  }

  predicate SearchHits(term: string, c: Competition) {
    Contains(c.name, term) || DescriptionHit(term, c)
  }

  /** The intended selection: every given filter holds, the term in the
      name or the description. */
  predicate Matches(f: CompetitionFilter, c: Competition) {
    OtherFiltersHold(f, c) && (Given(f.search) ==> SearchHits(f.search.value, c))
  }

  function MatchesFilter(f: CompetitionFilter): Competition -> bool {
    (c: Competition) => Matches(f, c)
  }

  /** The selection as the statement reads under SQL precedence:
      `(others AND name LIKE …) OR description LIKE …`. */
  predicate MatchesAsWritten(f: CompetitionFilter, c: Competition) {
    if Given(f.search) then (OtherFiltersHold(f, c) && Contains(c.name, f.search.value)) || DescriptionHit(f.search.value, c)
    else OtherFiltersHold(f, c)
  }

  /** A school-level competition shows up in a national-level search when
      its description holds the term. */
  lemma SearchEscapesLevel()
    ensures var f := CompetitionFilter(None, Some("国家级"), None, None, Some("x"), None, None, None);
      var c := Competition(1, "", None, None, Some(School), Some("x"), None, None, None, None, None, None, None,
                           Upcoming, false, true, 0, 1, 0);
      MatchesAsWritten(f, c) && !Matches(f, c)
  {
    var c := Competition(1, "", None, None, Some(School), Some("x"), None, None, None, None, None, None, None,
                         Upcoming, false, true, 0, 1, 0);
    assert c.description.value[0..1] == "x";
    assert LevelName(School) != "国家级" by {
      assert LevelName(School)[0] != "国家级"[0];
    }
  }

  function CompetitionCreatedAt(c: Competition): int {
    c.createdAt
  }

  /** `listCompetitions`: the matching rows, newest first, then the window. */
  function ListCompetitionsSpec(rows: seq<Competition>, f: CompetitionFilter): (r: Result<seq<Competition>, Query.QueryError>)
    ensures r.Failure? <==> (Query.IsSet(f.limit) && f.limit.value < 0) || (Query.IsSet(f.offset) && f.offset.value < 0)
    ensures r.Success? ==> forall c :: c in r.value ==>
      c in rows && (f.publishedOnly == Some(true) ==> c.isPublished)
      && (Given(f.category) ==> c.category == Some(f.category.value))
      && (Given(f.level) ==> c.level.Some? && LevelName(c.level.value) == f.level.value)
      && (Given(f.status) ==> StatusName(c.status) == f.status.value)
      && (f.isWhitelisted.Some? ==> c.isWhitelisted == f.isWhitelisted.value)
      && (Given(f.search) ==> SearchHits(f.search.value, c))
    ensures r.Success? ==> Query.SortedDesc(r.value, CompetitionCreatedAt)
    ensures r.Success? ==> Query.IsWindow(r.value, Query.Ordered(rows, MatchesFilter(f), CompetitionCreatedAt), f.limit, f.offset)
    ensures r.Success? && Query.IsSet(f.limit) ==> |r.value| <= f.limit.value
  {
    Query.Select(rows, MatchesFilter(f), CompetitionCreatedAt, f.limit, f.offset)
  }

  /** A filter without a window lists every matching row. */
  lemma ListCompetitionsEverything(rows: seq<Competition>, f: CompetitionFilter, c: Competition)
    requires f.limit.None? && f.offset.None?
    ensures ListCompetitionsSpec(rows, f).Success?
    ensures c in ListCompetitionsSpec(rows, f).value <==> c in rows && Matches(f, c)
  {
    Query.SelectEverything(rows, MatchesFilter(f), CompetitionCreatedAt);
  }

  /** A truthy category: neither NULL nor the empty string. */
  predicate NamedCategory(o: Option<string>) {
    o.Some? && o.value != ""
  }

  function CategoryOf(c: Competition): Option<string> {
    c.category
  }

  function IsNamedCategory(): Option<string> -> bool {
    (o: Option<string>) => NamedCategory(o)
  }

  function ValueOf(o: Option<string>): string {
    o.GetOr("")
  }

  /** `getCompetitionCategories`: each non-empty category once, NULL and
      the empty string dropped. */
  function CategoriesSpec(rows: seq<Competition>): (r: seq<string>)
    ensures forall s :: s in r <==> s != "" && exists i :: 0 <= i < |rows| && rows[i].category == Some(s)
    ensures forall i, j :: 0 <= i < j < |r| ==> r[i] != r[j]
  {
    var grouped := Query.Distinct(Query.Map(rows, CategoryOf));
    var named := Query.Filter(grouped, IsNamedCategory());
    var r := Query.Map(named, ValueOf);
    CategoriesMean(rows, grouped, named, r);
    r
  }

  /** Every listed category is some row's non-empty category. */
  lemma CategoryFromRow(rows: seq<Competition>, grouped: seq<Option<string>>, named: seq<Option<string>>,
                        r: seq<string>, s: string)
    requires grouped == Query.Distinct(Query.Map(rows, CategoryOf))
    requires named == Query.Filter(grouped, IsNamedCategory())
    requires r == Query.Map(named, ValueOf)
    requires s in r
    ensures s != "" && exists i :: 0 <= i < |rows| && rows[i].category == Some(s)
  {
    var categories := Query.Map(rows, CategoryOf);
    var k :| 0 <= k < |r| && r[k] == s;
    assert named[k] in named;
    assert named[k] == Some(s);
    assert Some(s) in categories;
    var i :| 0 <= i < |categories| && categories[i] == Some(s);
  }

  /** Every row's non-empty category is listed. */
  lemma CategoryOfRow(rows: seq<Competition>, grouped: seq<Option<string>>, named: seq<Option<string>>,
                      r: seq<string>, i: nat)
    requires grouped == Query.Distinct(Query.Map(rows, CategoryOf))
    requires named == Query.Filter(grouped, IsNamedCategory())
    requires r == Query.Map(named, ValueOf)
    requires i < |rows| && rows[i].category.Some? && rows[i].category.value != ""
    ensures rows[i].category.value in r
  {
    var s := rows[i].category.value;
    var categories := Query.Map(rows, CategoryOf);
    assert categories[i] == Some(s);
    assert Some(s) in grouped;
    assert Some(s) in named;
    var k :| 0 <= k < |named| && named[k] == Some(s);
    assert r[k] == s;
  }

  lemma CategoriesMean(rows: seq<Competition>, grouped: seq<Option<string>>, named: seq<Option<string>>, r: seq<string>)
    requires grouped == Query.Distinct(Query.Map(rows, CategoryOf))
    requires named == Query.Filter(grouped, IsNamedCategory())
    requires r == Query.Map(named, ValueOf)
    ensures forall s :: s in r <==> s != "" && exists i :: 0 <= i < |rows| && rows[i].category == Some(s)
    ensures forall i, j :: 0 <= i < j < |r| ==> r[i] != r[j]
  {
    forall s
      ensures s in r <==> s != "" && exists i :: 0 <= i < |rows| && rows[i].category == Some(s)
    {
      if s in r {
        CategoryFromRow(rows, grouped, named, r, s);
      }
      if s != "" && exists i :: 0 <= i < |rows| && rows[i].category == Some(s) {
        var i :| 0 <= i < |rows| && rows[i].category == Some(s);
        CategoryOfRow(rows, grouped, named, r, i);
      }
    }
    forall i, j | 0 <= i < j < |r|
      ensures r[i] != r[j]
    {
      assert named[i] in named && named[j] in named;
      NamedDistinct(grouped, named, i, j);
    }
  }

  /** Two positions of the kept categories hold different values. */
  lemma NamedDistinct(grouped: seq<Option<string>>, named: seq<Option<string>>, i: int, j: int)
    requires forall a, b :: 0 <= a < b < |grouped| ==> grouped[a] != grouped[b]
    requires named == Query.Filter(grouped, IsNamedCategory())
    requires 0 <= i < j < |named|
    ensures named[i] != named[j]
  {
    Query.FilterKeepsDistinct(grouped, IsNamedCategory());
  }

  /** The competitions table, changed in place by the page view. */
  class CompetitionTable {
    const available: bool
    var rows: seq<Competition>

    constructor (available: bool, rows: seq<Competition>)
      ensures this.available == available && this.rows == rows
    {
      this.available := available;
      this.rows := rows;
    }

    /** `getCompetitionById`: bump the view count, then read the row back. */
    method GetCompetitionById(id: int) returns (result: Result<Option<Competition>, Db.DbError>)
      modifies this
      ensures !available ==> result == Failure(Db.Unavailable) && rows == old(rows)
      ensures available ==> rows == ViewCompetition(old(rows), id) && result == Success(ViewedAnswer(old(rows), id))
    {
      if !available {
        return Failure(Db.Unavailable);
      }
      rows := Query.UpdateWhere(rows, CompetitionHasId(id), Viewed);
      result := Success(Query.FirstWhere(rows, CompetitionHasId(id)));
    }

    /** `listCompetitions`: push one condition per given filter, then select. */
    method ListCompetitions(f: CompetitionFilter) returns (result: Result<seq<Competition>, Db.DbError>)
      ensures !available ==> result == Failure(Db.Unavailable)
      ensures available ==> match ListCompetitionsSpec(rows, f)
        case Success(page) => result == Success(page)
        case Failure(_) => result == Failure(Db.BadQuery)
    {
      if !available {
        return Failure(Db.Unavailable);
      }
      ghost var p1 := Push(f.publishedOnly == Some(true), IsPublished());
      ghost var p2 := Push(Given(f.category), InCategory(f.category.GetOr("")));
      ghost var p3 := Push(Given(f.level), AtLevel(f.level.GetOr("")));
      ghost var p4 := Push(Given(f.status), InStatus(f.status.GetOr("")));
      ghost var p5 := Push(f.isWhitelisted.Some?, Whitelisted(f.isWhitelisted.GetOr(false)));
      ghost var p6 := Push(Given(f.search), Searched(f.search.GetOr("")));
      var conditions: seq<Competition -> bool> := [];
      if f.publishedOnly == Some(true) {
        conditions := conditions + [IsPublished()];
      }
      assert conditions == p1;
      if Given(f.category) {
        conditions := conditions + [InCategory(f.category.value)];
      }
      assert conditions == p1 + p2;
      if Given(f.level) {
        conditions := conditions + [AtLevel(f.level.value)];
      }
      assert conditions == p1 + p2 + p3;
      if Given(f.status) {
        conditions := conditions + [InStatus(f.status.value)];
      }
      assert conditions == p1 + p2 + p3 + p4;
      if f.isWhitelisted.Some? {
        conditions := conditions + [Whitelisted(f.isWhitelisted.value)];
      }
      assert conditions == p1 + p2 + p3 + p4 + p5;
      if Given(f.search) {
        conditions := conditions + [Searched(f.search.value)];
      }
      assert conditions == PushedConditions(f);
      forall c: Competition
        ensures Query.AllTrue(conditions, c) <==> Matches(f, c)
      {
        ConditionsMean(f, c);
      }
      var page := Query.RunSelect(rows, conditions, MatchesFilter(f), CompetitionCreatedAt, f.limit, f.offset);
      result := if page.Success? then Success(page.value) else Failure(Db.BadQuery);
    }

    /** `getCompetitionCategories`. */
    method GetCompetitionCategories() returns (result: Result<seq<string>, Db.DbError>)
      ensures !available ==> result == Failure(Db.Unavailable)
      ensures available ==> result == Success(CategoriesSpec(rows))
    {
      if !available {
        return Failure(Db.Unavailable);
      }
      result := Success(CategoriesSpec(rows));
    }
  }

  function IsPublished(): Competition -> bool {
    (c: Competition) => c.isPublished
  }

  function InCategory(s: string): Competition -> bool {
    (c: Competition) => c.category == Some(s)
  }

  function AtLevel(s: string): Competition -> bool {
    (c: Competition) => HasLevel(c, s)
  }

  function InStatus(s: string): Competition -> bool {
    (c: Competition) => StatusName(c.status) == s
  }

  function Whitelisted(b: bool): Competition -> bool {
    (c: Competition) => c.isWhitelisted == b
  }

  function Searched(term: string): Competition -> bool {
    (c: Competition) => SearchHits(term, c)
  }

  function Push(guard: bool, cond: Competition -> bool): seq<Competition -> bool> {
    if guard then [cond] else []
  }

  /** The conditions `listCompetitions` pushes, in order, for a filter. */
  function PushedConditions(f: CompetitionFilter): seq<Competition -> bool> {
    Push(f.publishedOnly == Some(true), IsPublished())
    + Push(Given(f.category), InCategory(f.category.GetOr("")))
    + Push(Given(f.level), AtLevel(f.level.GetOr("")))
    + Push(Given(f.status), InStatus(f.status.GetOr("")))
    + Push(f.isWhitelisted.Some?, Whitelisted(f.isWhitelisted.GetOr(false)))
    + Push(Given(f.search), Searched(f.search.GetOr("")))
  }

  lemma ConditionsMean(f: CompetitionFilter, c: Competition)
    ensures Query.AllTrue(PushedConditions(f), c) <==> Matches(f, c)
  {
    var p1 := Push(f.publishedOnly == Some(true), IsPublished());
    var p2 := Push(Given(f.category), InCategory(f.category.GetOr("")));
    var p3 := Push(Given(f.level), AtLevel(f.level.GetOr("")));
    var p4 := Push(Given(f.status), InStatus(f.status.GetOr("")));
    var p5 := Push(f.isWhitelisted.Some?, Whitelisted(f.isWhitelisted.GetOr(false)));
    var p6 := Push(Given(f.search), Searched(f.search.GetOr("")));
    Query.AllTrueSingle(IsPublished(), c);
    Query.AllTrueSingle(InCategory(f.category.GetOr("")), c);
    Query.AllTrueSingle(AtLevel(f.level.GetOr("")), c);
    Query.AllTrueSingle(InStatus(f.status.GetOr("")), c);
    Query.AllTrueSingle(Whitelisted(f.isWhitelisted.GetOr(false)), c);
    Query.AllTrueSingle(Searched(f.search.GetOr("")), c);
    Query.AllTrueConcat(p1, p2, c);
    Query.AllTrueConcat(p1 + p2, p3, c);
    Query.AllTrueConcat(p1 + p2 + p3, p4, c);
    Query.AllTrueConcat(p1 + p2 + p3 + p4, p5, c);
    Query.AllTrueConcat(p1 + p2 + p3 + p4 + p5, p6, c);
  }
}
