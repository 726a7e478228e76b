/** The news table: the page view that bumps `viewCount` before reading the
    row, the filtered list newest-published first, and the category list. */
module NewsDb {
  import opened Wrappers
  import opened Text
  import Query
  import Db

  datatype News = News(
    id: int,
    title: string,
    summary: Option<string>,
    content: string,
    category: string,
    coverImage: Option<string>,
    author: Option<string>,
    source: Option<string>,
    publishDate: int,
    isPublished: bool,
    viewCount: int,
    createdBy: int,
    createdAt: int)

  function NewsHasId(id: int): News -> bool {
    (n: News) => n.id == id
  }

  function Viewed(n: News): News {
    n.(viewCount := n.viewCount + 1)
  }

  /** The `viewCount + 1` update for one id: that row gains one view,
      every other row is untouched. */
  function ViewNews(rows: seq<News>, id: int): (r: seq<News>)
    ensures |r| == |rows|
    ensures forall i :: 0 <= i < |rows| ==>
      r[i] == if rows[i].id == id then rows[i].(viewCount := rows[i].viewCount + 1) else rows[i]
  {
    Query.UpdateWhere(rows, NewsHasId(id), Viewed)
  }

  /** What the page view answers: the row as it is after the bump. */
  function ViewedAnswer(rows: seq<News>, id: int): (r: Option<News>)
    ensures r.None? <==> forall i :: 0 <= i < |rows| ==> rows[i].id != id
    ensures r.Some? ==> exists i :: 0 <= i < |rows| && rows[i].id == id && r.value == Viewed(rows[i])
  {
    var after := ViewNews(rows, id);
    var found := Query.FirstWhere(after, NewsHasId(id));
    if found.Some? then
      var i :| 0 <= i < |after| && after[i] == found.value;
      assert rows[i].id == id;
      found
    else found
  }

  /** The filters `listNews` accepts. */
  datatype NewsFilter = NewsFilter(
    category: Option<string>,
    search: Option<string>,
    limit: Option<int>,
    offset: Option<int>,
    publishedOnly: Option<bool>)

  predicate Given(s: Option<string>) {
    s.Some? && s.value != ""
  }

  /** The conditions before the search term, as one test. */
  predicate OtherFiltersHold(f: NewsFilter, n: News) {
    (f.publishedOnly == Some(true) ==> n.isPublished)
    && (Given(f.category) ==> n.category == f.category.value)
  }

  predicate SearchHits(term: string, n: News) {
    Contains(n.title, term) || Contains(n.content, term)
  }

  /** The intended selection: every truthy filter holds, the search term in
      the title or the content. */
  predicate Matches(f: NewsFilter, n: News) {
    OtherFiltersHold(f, n) && (Given(f.search) ==> SearchHits(f.search.value, n))
  }

  function MatchesFilter(f: NewsFilter): News -> bool {
    (n: News) => Matches(f, n)
  }

  /** The selection as the statement reads under SQL precedence: the
      unparenthesised `title LIKE … OR content LIKE …` inside `and(…)`
      binds as `(others AND title LIKE …) OR content LIKE …`. */
  predicate MatchesAsWritten(f: NewsFilter, n: News) {
    if Given(f.search) then (OtherFiltersHold(f, n) && Contains(n.title, f.search.value)) || Contains(n.content, f.search.value)
    else OtherFiltersHold(f, n)
  }

  /** An unpublished article whose content holds the term is listed as
      published under the statement as written, but not under the intended
      selection. */
  lemma SearchEscapesPublishedOnly()
    ensures var f := NewsFilter(None, Some("x"), None, None, Some(true));
      var n := News(1, "", None, "x", "c", None, None, None, 0, false, 0, 1, 0);
      MatchesAsWritten(f, n) && !Matches(f, n)
  {
    var n := News(1, "", None, "x", "c", None, None, None, 0, false, 0, 1, 0);
    assert n.content[0..1] == "x";
  }

  /** With no other filter the two readings agree. */
  lemma SearchAloneAgrees(f: NewsFilter, n: News)
    requires f.publishedOnly != Some(true) && !Given(f.category)
    ensures MatchesAsWritten(f, n) <==> Matches(f, n)
  {
  }

  function NewsPublishDate(n: News): int {
    n.publishDate
  }

  /** `listNews`: the matching rows, newest publication first, then the window. */
  function ListNewsSpec(rows: seq<News>, f: NewsFilter): (r: Result<seq<News>, Query.QueryError>)
    ensures r.Failure? <==> (Query.IsSet(f.limit) && f.limit.value < 0) || (Query.IsSet(f.offset) && f.offset.value < 0)
    ensures r.Success? ==> forall n :: n in r.value ==>
      n in rows && (f.publishedOnly == Some(true) ==> n.isPublished)
      && (Given(f.category) ==> n.category == f.category.value)
      && (Given(f.search) ==> Contains(n.title, f.search.value) || Contains(n.content, f.search.value))
    ensures r.Success? ==> Query.SortedDesc(r.value, NewsPublishDate)
    ensures r.Success? ==> Query.IsWindow(r.value, Query.Ordered(rows, MatchesFilter(f), NewsPublishDate), f.limit, f.offset)
    ensures r.Success? && Query.IsSet(f.limit) ==> |r.value| <= f.limit.value
  {
    Query.Select(rows, MatchesFilter(f), NewsPublishDate, f.limit, f.offset)
  }

  /** A filter without a window lists every matching row. */
  lemma ListNewsEverything(rows: seq<News>, f: NewsFilter, n: News)
    requires f.limit.None? && f.offset.None?
    ensures ListNewsSpec(rows, f).Success?
    ensures n in ListNewsSpec(rows, f).value <==> n in rows && Matches(f, n)
  {
    Query.SelectEverything(rows, MatchesFilter(f), NewsPublishDate);
  }

  /** `getNewsCategories`: each category once. */
  function CategoriesSpec(rows: seq<News>): (r: seq<string>)
    ensures forall c :: c in r <==> exists i :: 0 <= i < |rows| && rows[i].category == c
    ensures forall i, j :: 0 <= i < j < |r| ==> r[i] != r[j]
  {
    var categories := Query.Map(rows, (n: News) => n.category);
    assert forall c :: c in categories <==> exists i :: 0 <= i < |rows| && rows[i].category == c by {
      forall c | c in categories
        ensures exists i :: 0 <= i < |rows| && rows[i].category == c
      {
        var i :| 0 <= i < |categories| && categories[i] == c;
      }
      forall i | 0 <= i < |rows|
        ensures rows[i].category in categories
      {
        assert categories[i] == rows[i].category;
      }
    }
    Query.Distinct(categories)
  }

  /** The news table, changed in place by the page view. */
  class NewsTable {
    const available: bool
    var rows: seq<News>

    constructor (available: bool, rows: seq<News>)
      ensures this.available == available && this.rows == rows
    {
      this.available := available;
      this.rows := rows;
    }

    /** `getNewsById`: bump the view count, then read the row back. */
    method GetNewsById(id: int) returns (result: Result<Option<News>, Db.DbError>)
      modifies this
      ensures !available ==> result == Failure(Db.Unavailable) && rows == old(rows)
      ensures available ==> rows == ViewNews(old(rows), id) && result == Success(ViewedAnswer(old(rows), id))
    {
      if !available {
        return Failure(Db.Unavailable);
      }
      rows := Query.UpdateWhere(rows, NewsHasId(id), Viewed);
      result := Success(Query.FirstWhere(rows, NewsHasId(id)));
    }

    /** `listNews`: push one condition per truthy filter, then select. */
    method ListNews(f: NewsFilter) returns (result: Result<seq<News>, Db.DbError>)
      ensures !available ==> result == Failure(Db.Unavailable)
      ensures available ==> match ListNewsSpec(rows, f)
        case Success(page) => result == Success(page)
        case Failure(_) => result == Failure(Db.BadQuery)
    {
      if !available {
        return Failure(Db.Unavailable);
      }
      var conditions: seq<News -> bool> := [];
      if f.publishedOnly == Some(true) {
        conditions := conditions + [IsPublished()];
      }
      if Given(f.category) {
        conditions := conditions + [InCategory(f.category.value)];
      }
      if Given(f.search) {
        conditions := conditions + [Searched(f.search.value)];
      }
      assert conditions == PushedConditions(f);
      forall n: News
        ensures Query.AllTrue(conditions, n) <==> Matches(f, n)
      {
        ConditionsMean(f, n);
      }
      var page := Query.RunSelect(rows, conditions, MatchesFilter(f), NewsPublishDate, f.limit, f.offset);
      result := if page.Success? then Success(page.value) else Failure(Db.BadQuery);
    }

    /** `getNewsCategories`. */
    method GetNewsCategories() returns (result: Result<seq<string>, Db.DbError>)
      ensures !available ==> result == Failure(Db.Unavailable)
      ensures available ==> result == Success(CategoriesSpec(rows))
    {
      if !available {
        return Failure(Db.Unavailable);
      }
      result := Success(CategoriesSpec(rows));
    }
  }

  function IsPublished(): News -> bool {
    (n: News) => n.isPublished
  }

  function InCategory(c: string): News -> bool {
    (n: News) => n.category == c
  }

  function Searched(term: string): News -> bool {
    (n: News) => SearchHits(term, n)
  }

  /** The conditions `listNews` pushes, in order, for a filter. */
  function PushedConditions(f: NewsFilter): seq<News -> bool> {
    (if f.publishedOnly == Some(true) then [IsPublished()] else [])
    + (if Given(f.category) then [InCategory(f.category.value)] else [])
    + (if Given(f.search) then [Searched(f.search.value)] else [])
  }

  lemma ConditionsMean(f: NewsFilter, n: News)
    ensures Query.AllTrue(PushedConditions(f), n) <==> Matches(f, n)
  {
    var a: seq<News -> bool> := if f.publishedOnly == Some(true) then [IsPublished()] else [];
    var b: seq<News -> bool> := if Given(f.category) then [InCategory(f.category.value)] else [];
    var c: seq<News -> bool> := if Given(f.search) then [Searched(f.search.value)] else [];
    Query.AllTrueSingle(IsPublished(), n);
    Query.AllTrueSingle(InCategory(f.category.GetOr("")), n);
    Query.AllTrueSingle(Searched(f.search.GetOr("")), n);
    Query.AllTrueConcat(a, b, n);
    Query.AllTrueConcat(a + b, c, n);
  }
}
