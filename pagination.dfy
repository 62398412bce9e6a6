/**
 * The listing protocol that the category and the product services share:
 * clamping of the page parameters, the sort allow-list and the direction,
 * the LIMIT/OFFSET window, and the page metadata with its link list.
 *
 * The two services repeat this logic almost line for line (only the product
 * service falls back to "desc" for a null direction; the category service
 * would throw on one); it is stated once here and each service applies it
 * to its own allow-list and WHERE clauses.
 *
 * Numbers from the request are JavaScript numbers: `None` stands for a
 * non-finite value (NaN or an infinity) and `Some(n)` for an integral one.
 */
module Pagination {
  import opened Wrappers

  const DefaultPerPage: int := 10
  const MaxPerPage: int := 100
  const DefaultSortField: string := "created_at"

  function Min(a: int, b: int): int { if a <= b then a else b }
  function Max(a: int, b: int): int { if a >= b then a else b }

  // ---------------------------------------------------------------------------
  // Sanitizing the request
  // ---------------------------------------------------------------------------

  /** The requested page, or 1 when it is non-finite or below 1. */
  function SanitizePage(page: Option<int>): (r: int)
    ensures r >= 1
    ensures page.Some? && page.value >= 1 ==> r == page.value
    ensures page.None? || page.value < 1 ==> r == 1
  {
    Max(1, if page.Some? then page.value else 1)
  }

  /** The requested page size clamped to [1, MaxPerPage]; DefaultPerPage when non-finite. */
  function SanitizePerPage(perPage: Option<int>): (r: int)
    ensures 1 <= r <= MaxPerPage
    ensures perPage.None? ==> r == DefaultPerPage
    ensures perPage.Some? && 1 <= perPage.value <= MaxPerPage ==> r == perPage.value
    ensures perPage.Some? && perPage.value < 1 ==> r == 1
    ensures perPage.Some? && perPage.value > MaxPerPage ==> r == MaxPerPage
  {
    Max(1, Min(MaxPerPage, if perPage.Some? then perPage.value else DefaultPerPage))
  }

  /** The sanitized page, page size and the row offset of the page's first row. */
  datatype Window = Window(page: int, perPage: int, offset: int)

  lemma OffsetBounds(page: int, perPage: int)
    requires page >= 1 && perPage >= 1
    ensures 0 <= (page - 1) * perPage
    ensures (page - 1) * perPage + perPage == page * perPage
  {
  }

  function Sanitize(page: Option<int>, perPage: Option<int>): (w: Window)
    ensures w.page == SanitizePage(page) && w.perPage == SanitizePerPage(perPage)
    ensures w.page >= 1 && 1 <= w.perPage <= MaxPerPage
    ensures w.offset >= 0 && w.offset + w.perPage == w.page * w.perPage
  {
    var p := SanitizePage(page);
    var pp := SanitizePerPage(perPage);
    OffsetBounds(p, pp);
    Window(p, pp, (p - 1) * pp)
  }

  // ---------------------------------------------------------------------------
  // Sort field and direction
  // ---------------------------------------------------------------------------

  /**
   * The column the listing is ordered by: the requested one when the
   * allow-list holds it, DefaultSortField otherwise (an absent field
   * defaults to DefaultSortField as well). Only allow-listed names ever
   * reach the SQL text.
   */
  function ResolveSortField(requested: Option<string>, allowed: set<string>): (r: string)
    requires DefaultSortField in allowed
    ensures r in allowed
    ensures requested.Some? && requested.value in allowed ==> r == requested.value
    ensures requested.None? || requested.value !in allowed ==> r == DefaultSortField
  {
    var field := if requested.Some? then requested.value else DefaultSortField;
    if field in allowed then field else DefaultSortField
  }

  datatype Direction = Asc | Desc

  /** Lower-casing of one character; only the ASCII letters A-Z change. */
  function LowerChar(c: char): char {
    if 'A' <= c <= 'Z' then (c as int + 32) as char else c
  }

  function ToLower(s: string): string {
    seq(|s|, i requires 0 <= i < |s| => LowerChar(s[i]))
  }

  /**
   * The direction keyword: ascending exactly when the request spells "asc"
   * in any letter case, descending otherwise and when it is absent.
   */
  function ResolveDirection(sortDir: Option<string>): (d: Direction)
    ensures d == Asc <==> sortDir.Some? && SpellsAsc(sortDir.value)
  {
    var dir := if sortDir.Some? then sortDir.value else "desc";
    LowerIsAsc(dir);
    if ToLower(dir) == "asc" then Asc else Desc
  }

  /** "asc" spelled in any mix of upper and lower case. */
  predicate SpellsAsc(s: string) {
    |s| == 3 && (s[0] == 'a' || s[0] == 'A') && (s[1] == 's' || s[1] == 'S') && (s[2] == 'c' || s[2] == 'C')
  }

  lemma LowerIsAsc(s: string)
    ensures ToLower(s) == "asc" <==> SpellsAsc(s)
  {
    if SpellsAsc(s) {
      assert ToLower(s)[0] == 'a' && ToLower(s)[1] == 's' && ToLower(s)[2] == 'c';
    }
    if ToLower(s) == "asc" {
      assert |s| == 3;
      assert ToLower(s)[0] == LowerChar(s[0]) == 'a';
      assert ToLower(s)[1] == LowerChar(s[1]) == 's';
      assert ToLower(s)[2] == LowerChar(s[2]) == 'c';
    }
  }

  // ---------------------------------------------------------------------------
  // The WHERE clause
  // ---------------------------------------------------------------------------

  /** The parts joined with `sep` between neighbours; the first part opens the text. */
  function Join(parts: seq<string>, sep: string): (r: string)
    ensures parts != [] ==> |r| >= |parts[0]| && r[..|parts[0]|] == parts[0]
  {
    if parts == [] then ""
    else if |parts| == 1 then parts[0]
    else parts[0] + sep + Join(parts[1..], sep)
  }

  /** Appending a part to a non-empty list appends the separator and the part to the joined text. */
  lemma {:induction false} JoinAppend(parts: seq<string>, sep: string, p: string)
    requires parts != []
    ensures Join(parts + [p], sep) == Join(parts, sep) + sep + p
  {
    var q := parts + [p];
    assert q[0] == parts[0];
    if |parts| == 1 {
      assert q[1..] == [p];
    } else {
      assert q[1..] == parts[1..] + [p];
      JoinAppend(parts[1..], sep, p);
      calc {
        Join(q, sep);
        parts[0] + sep + Join(parts[1..] + [p], sep);
        parts[0] + sep + (Join(parts[1..], sep) + sep + p);
        (parts[0] + sep + Join(parts[1..], sep)) + sep + p;
      }
    }
  }

  /** The WHERE text of a listing: the clauses joined by AND, or nothing when there are none. */
  function WhereSql(clauses: seq<string>): (r: string)
    ensures clauses == [] <==> r == ""
    ensures clauses != [] ==> |r| >= 6 + |clauses[0]| && r[..6] == "WHERE " && r[6..6 + |clauses[0]|] == clauses[0]
  {
    if |clauses| > 0 then "WHERE " + Join(clauses, " AND ") else ""
  }

  /** One clause gives "WHERE " and that clause. */
  lemma WhereSqlSingle(c: string)
    ensures WhereSql([c]) == "WHERE " + c
  {
    assert Join([c], " AND ") == c;
  }

  /**
   * Each clause pushed onto a non-empty list adds " AND " and the clause to
   * the WHERE text, so every clause reaches the text, in order.
   */
  lemma WhereSqlPush(clauses: seq<string>, c: string)
    requires clauses != []
    ensures WhereSql(clauses + [c]) == WhereSql(clauses) + " AND " + c
  {
    JoinAppend(clauses, " AND ", c);
    assert WhereSql(clauses + [c]) == "WHERE " + (Join(clauses, " AND ") + " AND " + c);
  }

  /** The value bound to `:search`: the search text as a substring pattern. */
  function SearchPattern(search: string): (r: string)
    ensures |r| == |search| + 2 && r[0] == '%' && r[|r| - 1] == '%' && r[1..|r| - 1] == search
  {
    "%" + search + "%"
  }

  // ---------------------------------------------------------------------------
  // Page metadata
  // ---------------------------------------------------------------------------

  /**
   * The URL of a listing page. The link builder is not part of this model:
   * with the base path and the query held fixed, a page URL is determined by
   * the page number and the page size alone, which this term records.
   */
  datatype Url = PageUrl(page: int, perPage: int)

  datatype Link = Link(url: Option<Url>, active: bool)

  datatype Meta = Meta(
    currentPage: int,
    firstPageUrl: Url,
    from: int,
    lastPage: int,
    lastPageUrl: Url,
    links: seq<Link>,
    nextPageUrl: Option<Url>,
    path: string,
    perPage: int,
    prevPageUrl: Option<Url>,
    to: int,
    total: int)

  /** The ceiling of a / b for a non-negative numerator: the least q with q * b >= a. */
  function CeilDiv(a: nat, b: int): (q: nat)
    requires b >= 1
    ensures q * b >= a
    ensures (q - 1) * b < a || q == 0
  {
    var n := a + b - 1;
    assert n == (n / b) * b + n % b;
    n / b
  }

  /** The number of the last page: at least 1, and the fewest pages that hold `total` rows. */
  function LastPage(total: nat, perPage: int): (r: int)
    requires perPage >= 1
    ensures r >= 1
    ensures total == 0 ==> r == 1
    ensures total > 0 ==> (r - 1) * perPage < total <= r * perPage
  {
    Max(1, CeilDiv(total, perPage))
  }

  /**
   * The link list: the inactive previous-page sentinel, one link per page
   * from 1 to lastPage (page i at position i, active exactly when it is the
   * current page), and the inactive next-page sentinel.
   */
  function Links(lastPage: nat, currentPage: int, perPage: int, prev: Option<Url>, next: Option<Url>): (ls: seq<Link>)
    ensures |ls| == lastPage + 2
    ensures ls[0] == Link(prev, false) && ls[lastPage + 1] == Link(next, false)
    ensures forall i :: 1 <= i <= lastPage ==> ls[i] == Link(Some(PageUrl(i, perPage)), i == currentPage)
  {
    var pages := seq(lastPage, i requires 0 <= i < lastPage => Link(Some(PageUrl(i + 1, perPage)), i + 1 == currentPage));
    var ls := [Link(prev, false)] + pages + [Link(next, false)];
    assert forall i :: 1 <= i <= lastPage ==> ls[i] == pages[i - 1];
    ls
  }

  /**
   * The metadata of a listing of `total` rows for the sanitized `page` and
   * `perPage`. The current page is clamped to the last page, but `from`
   * and `to` are computed from the unclamped offset.
   */
  function BuildMeta(total: nat, page: int, perPage: int, path: string): (m: Meta)
    requires page >= 1 && perPage >= 1
    ensures m.total == total && m.perPage == perPage && m.path == path
    ensures m.lastPage >= 1 && (total == 0 ==> m.lastPage == 1)
    ensures total > 0 ==> (m.lastPage - 1) * perPage < total <= m.lastPage * perPage
    ensures 1 <= m.currentPage <= m.lastPage
    ensures page <= m.lastPage ==> m.currentPage == page
    ensures page > m.lastPage ==> m.currentPage == m.lastPage
    ensures m.firstPageUrl == PageUrl(1, perPage) && m.lastPageUrl == PageUrl(m.lastPage, perPage)
    ensures m.links == Links(m.lastPage, m.currentPage, perPage, m.prevPageUrl, m.nextPageUrl)
    ensures m.nextPageUrl.None? <==> m.currentPage == m.lastPage
    ensures m.nextPageUrl.Some? ==> m.nextPageUrl.value == PageUrl(m.currentPage + 1, perPage)
    ensures m.prevPageUrl.None? <==> m.currentPage == 1
    ensures m.prevPageUrl.Some? ==> m.prevPageUrl.value == PageUrl(m.currentPage - 1, perPage)
    ensures m.from == 0 <==> total == 0
    ensures total > 0 ==> m.from == (page - 1) * perPage + 1
    ensures m.to <= total && m.to <= page * perPage && (m.to == total || m.to == page * perPage)
  {
    OffsetBounds(page, perPage);
    var offset := (page - 1) * perPage;
    var lastPage := LastPage(total, perPage);
    var currentPage := Min(page, lastPage);
    var next := if currentPage < lastPage then Some(PageUrl(currentPage + 1, perPage)) else None;
    var prev := if currentPage > 1 then Some(PageUrl(currentPage - 1, perPage)) else None;
    Meta(
      currentPage := currentPage,
      firstPageUrl := PageUrl(1, perPage),
      from := if total == 0 then 0 else offset + 1,
      lastPage := lastPage,
      lastPageUrl := PageUrl(lastPage, perPage),
      links := Links(lastPage, currentPage, perPage, prev, next),
      nextPageUrl := next,
      path := path,
      perPage := perPage,
      prevPageUrl := prev,
      to := Min(offset + perPage, total),
      total := total)
  }

  /** How many links of a list are active. */
  function CountActive(links: seq<Link>): nat {
    if links == [] then 0 else (if links[0].active then 1 else 0) + CountActive(links[1..])
  }

  lemma {:induction false} CountActiveNone(links: seq<Link>)
    requires forall i :: 0 <= i < |links| ==> !links[i].active
    ensures CountActive(links) == 0
  {
    if links != [] {
      CountActiveNone(links[1..]);
    }
  }

  lemma {:induction false} CountActiveSingle(links: seq<Link>, k: int)
    requires 0 <= k < |links|
    requires forall i :: 0 <= i < |links| ==> (links[i].active <==> i == k)
    ensures CountActive(links) == 1
  {
    if k == 0 {
      CountActiveNone(links[1..]);
    } else {
      CountActiveSingle(links[1..], k - 1);
    }
  }

  /** Exactly one link is active, the current page's; the sentinels never are. */
  lemma ExactlyOneActive(total: nat, page: int, perPage: int, path: string)
    requires page >= 1 && perPage >= 1
    ensures var m := BuildMeta(total, page, perPage, path);
      && (forall i :: 0 <= i < |m.links| ==> (m.links[i].active <==> i == m.currentPage))
      && CountActive(m.links) == 1
  {
    var m := BuildMeta(total, page, perPage, path);
    CountActiveSingle(m.links, m.currentPage);
  }

  lemma MulMonotone(a: int, b: int, c: int)
    requires 0 <= a <= b && c >= 0
    ensures a * c <= b * c
  {
  }

  /** On a page that exists, `from` and `to` are the 1-based bounds of a non-empty run of at most `perPage` rows. */
  lemma FromToOnExistingPage(total: nat, page: int, perPage: int, path: string)
    requires page >= 1 && perPage >= 1
    requires total > 0
    requires page <= LastPage(total, perPage)
    ensures var m := BuildMeta(total, page, perPage, path);
      1 <= m.from <= m.to <= total && m.to - m.from < perPage
  {
    var last := LastPage(total, perPage);
    MulMonotone(page - 1, last - 1, perPage);
  }

  /**
   * Past the last page the current page is clamped, but `from` is not:
   * it lies beyond `to`, so the metadata describes an empty run of rows.
   */
  lemma FromBeyondToPastLastPage(total: nat, page: int, perPage: int, path: string)
    requires page >= 1 && perPage >= 1
    requires total > 0
    requires page > LastPage(total, perPage)
    ensures var m := BuildMeta(total, page, perPage, path);
      m.currentPage == m.lastPage && m.from > total >= m.to
  {
    var last := LastPage(total, perPage);
    MulMonotone(last, page - 1, perPage);
  }

  /** 25 rows, 10 per page, page 999 asked for: page 3 is reported, with from = 9981 and to = 25. */
  lemma PageNineHundredNinetyNine(path: string)
    ensures var m := BuildMeta(25, 999, 10, path);
      m.lastPage == 3 && m.currentPage == 3 && m.from == 9981 && m.to == 25
      && m.nextPageUrl == None && m.prevPageUrl == Some(PageUrl(2, 10))
  {
    var m := BuildMeta(25, 999, 10, path);
    assert CeilDiv(25, 10) == 3;
  }

  /** 25 rows, 10 per page, page 3 asked for: rows 21 to 25 of 25, no next page, the previous one is page 2. */
  lemma LastOfThreePages(path: string)
    ensures var m := BuildMeta(25, 3, 10, path);
      m.lastPage == 3 && m.currentPage == 3 && m.from == 21 && m.to == 25
      && m.nextPageUrl == None && m.prevPageUrl == Some(PageUrl(2, 10))
  {
    assert CeilDiv(25, 10) == 3;
  }

  /** An empty listing: one page, from = to = 0, no previous or next page. */
  lemma EmptyListing(path: string)
    ensures var m := BuildMeta(0, 1, 10, path);
      m.lastPage == 1 && m.currentPage == 1 && m.from == 0 && m.to == 0
      && m.nextPageUrl == None && m.prevPageUrl == None
  {
  }

  // ---------------------------------------------------------------------------
  // The request and the statement a listing issues
  // ---------------------------------------------------------------------------

  /**
   * The parameters of a listing. An absent search is the empty string; an
   * absent sort field or direction is None. `path` is the origin and path
   * name of the request's base URL, which the metadata echoes.
   */
  datatype ListRequest = ListRequest(
    page: Option<int>,
    perPage: Option<int>,
    search: string,
    sortBy: Option<string>,
    sortDir: Option<string>,
    path: string)

  /**
   * The SELECT a listing sends to the store: its WHERE clauses and their
   * text, the bound `:search` value, the ORDER BY column and direction, and
   * the LIMIT and OFFSET. The COUNT query uses the same WHERE text.
   */
  datatype SelectQuery = SelectQuery(
    clauses: seq<string>,
    whereSql: string,
    replacements: map<string, string>,
    orderBy: string,
    direction: Direction,
    limit: int,
    offset: int)

  /** What a listing computes from the request and the row count: the page query and the metadata. */
  datatype Listing = Listing(query: SelectQuery, meta: Meta)

  // ---------------------------------------------------------------------------
  // The page of rows
  // ---------------------------------------------------------------------------

  /** The rows a `LIMIT limit OFFSET offset` clause keeps from an ordered result. */
  function PageWindow<T>(rows: seq<T>, offset: nat, limit: nat): (w: seq<T>)
    ensures |w| == if offset >= |rows| then 0 else Min(limit, |rows| - offset)
    ensures forall i :: 0 <= i < |w| ==> w[i] == rows[offset + i]
  {
    if offset >= |rows| then [] else rows[offset .. Min(offset + limit, |rows|)]
  }

  /**
   * The metadata agrees with the rows a page returns: there are
   * `to - from + 1` of them, the first being row number `from`, unless the
   * page lies past the end, where no row is returned.
   */
  lemma WindowMatchesMeta<T>(rows: seq<T>, page: Option<int>, perPage: Option<int>, path: string)
    ensures var w := Sanitize(page, perPage);
      var m := BuildMeta(|rows|, w.page, w.perPage, path);
      var data := PageWindow(rows, w.offset, w.perPage);
      && (m.from == 0 || m.from > m.to ==> data == [])
      && (0 < m.from <= m.to ==> |data| == m.to - m.from + 1)
      && forall i :: 0 <= i < |data| ==> data[i] == rows[m.from - 1 + i]
  {
  }
}
