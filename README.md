# Catalog listing and soft-delete write path, in Dafny

This project models the core of a small catalog REST backend: the two
service modules that list, read, create, update and soft-delete
**categories** and **products**.

- **Listing** (`getCategories`, `getProducts`). The request's page and page
  size are clamped, and the row offset is computed from them. The sort
  column passes through a fixed allow-list, and the direction is normalised
  to ASC/DESC. The WHERE clause list always holds the soft-delete filters
  and gains a `LIKE :search` clause when a search text is given. The page
  metadata holds the last page, the clamped current page, the
  first/last/next/previous page URLs, `from`/`to`, and a link list laid out
  as `[prev, page 1 … page last, next]` with exactly one active entry. The
  two services repeat this logic almost line for line. A null `sortBy`
  gives `created_at` in both services. A null `sortDir` gives DESC in the
  product service (`?? "desc"`, src/services/product.service.ts:38) but
  throws in the category service (src/services/category.service.ts:38),
  whose callers never pass null. The logic is stated once in module
  `Pagination`, and each service applies it with its own allow-list and
  clauses (`CategoryService.CategoryTable.GetCategories`,
  `ProductService.ProductTable.GetProducts`).
- **Write path** (`create*`, `get*ById`, `update*`, `delete*`). Each table
  is a map from id to row, and every row carries the audit columns (module
  `Audit`). Each write is one SQL statement. Its effect on the table is a
  function on maps (`Insert`, `ApplyUpdate`, `ApplyDelete`), and the
  methods of the table classes are proved to have exactly that effect. They
  report "not found" (None / false) from the number of rows the statement
  matched. Reads filter out soft-deleted rows. Product reads also filter
  out products whose category is soft-deleted.

Modules: `Wrappers` (Option, Result), `Audit`, `Pagination`,
`CategoryService`, `ProductService`.

Conventions of the model:

- A JavaScript number in the request is `Option<int>`. `None` stands for a
  non-finite value (NaN, ±Infinity).
- The link builder and the URL parser are not part of this model. With the
  base path and the query held fixed, a page URL is the term
  `PageUrl(page, perPage)`. The metadata's `path` (origin plus path name)
  is an input string.
- The generated id (`randomUUID()`) and the current time (`new Date()`) are
  method parameters.
- The store's `LIKE '%search%'` match is the parameter
  `like: (string, string) -> bool`. The row count of the COUNT query is the
  number of rows the WHERE clause selects (`Matching`).

Past the last page the code clamps `current_page` to the last page but
computes `from` and `to` from the unclamped offset
(src/services/product.service.ts:35, 72, 94, 102). So with 25 rows and 10
per page, page 999 reports `from = 9981`, `to = 25`
(`Pagination.PageNineHundredNinetyNine`, `Pagination.FromBeyondToPastLastPage`).

## Model

| member | source | states |
|---|---|---|
| Pagination.SanitizePage | src/services/product.service.ts:33 | the page is at least 1; it is the requested page when that is finite and at least 1, otherwise 1 |
| Pagination.SanitizePerPage | src/services/product.service.ts:34 | the page size lies in [1, 100]; a non-finite request gives 10, an in-range one is kept, one below 1 gives 1, one above 100 gives 100 |
| Pagination.Sanitize | src/services/category.service.ts:33-35 | page ≥ 1, page size in [1, 100], offset ≥ 0 and offset + perPage = page · perPage, i.e. offset = (page − 1) · perPage |
| Pagination.ResolveSortField | src/services/product.service.ts:37 | the sort column is always in the allow-list; it is the requested column when the list holds it, "created_at" otherwise or when absent |
| Pagination.ResolveDirection | src/services/product.service.ts:38 | the order is ASC exactly when the requested direction spells "asc" in any letter case; anything else, and an absent direction, gives DESC |
| Pagination.Join | src/services/product.service.ts:46 | the joined text of a non-empty list starts with its first part |
| Pagination.JoinAppend | src/services/product.service.ts:46 | appending a part to a non-empty list appends the separator and that part to the joined text |
| Pagination.WhereSql | src/services/product.service.ts:46 | the WHERE text is empty exactly when there are no clauses; otherwise it starts with "WHERE " followed by the first clause |
| Pagination.WhereSqlSingle | src/services/category.service.ts:40-46 | a single clause gives "WHERE " followed by that clause |
| Pagination.WhereSqlPush | src/services/category.service.ts:42-46 | pushing a clause onto a non-empty clause list extends the WHERE text by " AND " and that clause, so every clause reaches the text in order |
| Pagination.SearchPattern | src/services/product.service.ts:44 | the bound search value is the search text wrapped in `%` on both sides |
| Pagination.CeilDiv | src/services/product.service.ts:71 | the quotient rounded up: the least q ≥ 0 with q · b ≥ a |
| Pagination.LastPage | src/services/category.service.ts:66 | the last page is ≥ 1, is 1 for an empty listing, and otherwise is the fewest pages of perPage rows that hold all rows |
| Pagination.BuildMeta | src/services/product.service.ts:71-104 | 1 ≤ current_page ≤ last_page; the current page is the requested one when it exists and the last page otherwise; next_page_url is null exactly on the last page and prev_page_url exactly on the first, each naming the neighbouring page; first/last URLs name pages 1 and last; from = 0 exactly when total = 0, else (page − 1) · perPage + 1; to ≤ total and to is the smaller of total and page · perPage; the link list is `Links` of the last page, the current page and the neighbouring URLs |
| Pagination.Links | src/services/product.service.ts:82-89 | the link list has last_page + 2 entries: the inactive prev sentinel carrying prev_page_url, page i's URL at position i, active exactly when i is the current page, and the inactive next sentinel carrying next_page_url |
| Pagination.ExactlyOneActive | src/services/category.service.ts:77-87 | entry i is active exactly when i is the current page, so exactly one link is active and never a sentinel |
| Pagination.FromToOnExistingPage | src/services/product.service.ts:94-102 | on an existing page of a non-empty listing, 1 ≤ from ≤ to ≤ total and the page spans at most perPage rows |
| Pagination.FromBeyondToPastLastPage | src/services/category.service.ts:92-100 | past the last page, current_page is the last page but from exceeds total, and so exceeds to |
| Pagination.PageNineHundredNinetyNine | src/services/product.service.ts:71-102 | with 25 rows, 10 per page and page 999: last_page = current_page = 3, from = 9981, to = 25, no next page, previous page 2 |
| Pagination.LastOfThreePages | src/services/category.service.ts:66-100 | with 25 rows, 10 per page and page 3: last_page = current_page = 3, from = 21, to = 25, no next page, previous page 2 |
| Pagination.EmptyListing | src/services/category.service.ts:66-100 | with no rows: one page, from = to = 0, neither next nor previous page |
| Pagination.PageWindow | src/services/product.service.ts:57-69 | LIMIT/OFFSET keeps the rows from the offset on, at most `limit` of them, and none when the offset is past the end |
| Pagination.WindowMatchesMeta | src/services/category.service.ts:54-100 | the page returns to − from + 1 rows, the first being row number from; past the end, or with no rows, it returns none |
| Audit.Stamp | src/services/category.service.ts:126-130 | an inserted row is live, created and modified by the caller (or nobody) at the same instant, with no deleter |
| Audit.Touch | src/services/category.service.ts:142-146 | an update sets only modified_at/modified_by; the creation and deletion columns are kept |
| Audit.SoftDelete | src/services/category.service.ts:156-160 | a delete sets deleted_at/deleted_by and makes the row not live; creation and modification columns are kept |
| CategoryService.Find | src/services/category.service.ts:107-114 | a lookup returns a row exactly when a live row has the id, and then that row; missing and soft-deleted rows give null |
| CategoryService.Matching | src/services/category.service.ts:40-52 | the COUNT query counts a category exactly when it is live and, with a search text, its name matches the pattern |
| CategoryService.MatchingOnlyLive | src/services/category.service.ts:40-52 | listing and lookup agree: every counted category is returned by a lookup of its id, and without a search every category a lookup returns is counted |
| CategoryService.SortField | src/services/category.service.ts:22-37 | the ORDER BY column is one of name, created_at, modified_at: the requested one when allowed, created_at otherwise |
| CategoryService.BuildWhere | src/services/category.service.ts:40-46 | the clause list starts with `deleted_at IS NULL`; `name LIKE :search` and the `%search%` binding are added exactly when the search is non-empty; the WHERE text is `WHERE deleted_at IS NULL`, followed by ` AND name LIKE :search` when searching |
| CategoryService.NewCategory | src/services/category.service.ts:116-133 | the inserted row has the given id and name, is live, and is stamped with the caller and `now` as creator and modifier |
| CategoryService.Insert | src/services/category.service.ts:119-133 | an insert fails with a duplicate key exactly when the id is taken; otherwise the table gains exactly the new row and keeps every other row |
| CategoryService.AffectedRows | src/services/category.service.ts:141-150 | the update/delete statement matches at most one row, and one exactly when a live row has the id |
| CategoryService.ApplyUpdate | src/services/category.service.ts:141-148 | the update changes only a live row with the id, and of it only the name and the modification stamp; on a missing or soft-deleted id the table is unchanged |
| CategoryService.ApplyDelete | src/services/category.service.ts:155-162 | the delete stamps deleted_at/deleted_by on a live row with the id and changes nothing else; afterwards no live row has the id |
| CategoryService.CreateThenFind | src/services/category.service.ts:116-135 | after a create, a lookup by the new id returns a row with the given name and a null deleted_at |
| CategoryService.DeleteIdempotent | src/services/category.service.ts:154-165 | after a delete, a second delete matches no row (returns false) and leaves the table unchanged |
| CategoryService.WritesKeepLiveness | src/services/category.service.ts:137-165 | an update never changes which rows are live; a delete changes the liveness of no row but its target |
| CategoryService.CategoryTable.GetById | src/services/category.service.ts:107-114 | returns the live row with the id, or None |
| CategoryService.CategoryTable.GetCategories | src/services/category.service.ts:24-105 | the page query has a limit in [1, 100], a non-negative offset, an allow-listed ORDER BY column, the normalised direction, one or two clauses with the soft-delete clause first, the WHERE text `WHERE deleted_at IS NULL` plus ` AND name LIKE :search` exactly when searching, and then the binding `search = %search%` and no other; the metadata is BuildMeta of the matching-row count |
| CategoryService.CategoryTable.Create | src/services/category.service.ts:116-135 | the table becomes Insert of the new row and the new row is returned; on a duplicate id the error is returned and the table is unchanged |
| CategoryService.CategoryTable.Update | src/services/category.service.ts:137-152 | the table becomes ApplyUpdate of the old one; the result is null exactly when no live row had the id, otherwise the updated row with the new name |
| CategoryService.CategoryTable.Delete | src/services/category.service.ts:154-165 | the table becomes ApplyDelete of the old one; the result is true exactly when a live row had the id |
| ProductService.Find | src/services/product.service.ts:109-120 | a lookup returns a product exactly when it is live and its category exists and is live, and then the row joined with the category's name |
| ProductService.Matching | src/services/product.service.ts:40-55 | the COUNT query counts a product exactly when it is live, its category exists and is live, and, with a search text, the product's name or its category's name matches the pattern |
| ProductService.MatchingOnlyVisible | src/services/product.service.ts:40-55 | listing and lookup agree: every counted product is returned by a lookup of its id, and without a search every product a lookup returns is counted |
| ProductService.SortField | src/services/product.service.ts:22-37 | the ORDER BY column is one of name, price, stock, created_at, modified_at: the requested one when allowed, created_at otherwise |
| ProductService.BuildWhere | src/services/product.service.ts:40-46 | the clause list starts with `p.deleted_at IS NULL` and `c.deleted_at IS NULL`; the name/category-name search clause and the `%search%` binding are added exactly when the search is non-empty; the WHERE text is `WHERE p.deleted_at IS NULL AND c.deleted_at IS NULL`, followed by ` AND (p.name LIKE :search OR c.name LIKE :search)` when searching |
| ProductService.NewProduct | src/services/product.service.ts:122-153 | the inserted row has the given fields, stock 0 when none is given, is live, and is stamped with the caller and `now` as creator and modifier |
| ProductService.Insert | src/services/product.service.ts:137-154 | an insert fails exactly when the id is taken (duplicate key) or, for a fresh id, when the category id is no key of the categories table (foreign-key violation); otherwise the table gains exactly the new row |
| ProductService.AffectedRows | src/services/product.service.ts:185-186 | the update/delete statement matches at most one row, and one exactly when a live product has the id, whatever its category |
| ProductService.ApplyUpdate | src/services/product.service.ts:168-184 | the update changes only a live product with the id: its name, price, stock, category id and modification stamp; on a missing or soft-deleted id the table is unchanged; a category id with no category row is refused |
| ProductService.ApplyDelete | src/services/product.service.ts:191-198 | the delete stamps deleted_at/deleted_by on a live product and changes nothing else; afterwards no live product has the id |
| ProductService.CreateThenFind | src/services/product.service.ts:122-156 | after a create, the lookup returns the new product exactly when its category is live, with the given name, category and stock (0 by default) and a null deleted_at |
| ProductService.UpdateUnderDeletedCategory | src/services/product.service.ts:168-188 | updating a live product into a soft-deleted category matches one row and writes it, yet the lookup that follows finds nothing |
| ProductService.DeleteIdempotent | src/services/product.service.ts:190-201 | after a delete, a second delete matches no row (returns false) and leaves the table unchanged |
| ProductService.DeletedCategoryHidesProducts | src/services/product.service.ts:113-115 | after a category is soft-deleted, no product of that category is returned by a lookup |
| ProductService.ProductTable.GetById | src/services/product.service.ts:109-120 | returns the live product with the id whose category is live, joined with the category's name, or None |
| ProductService.ProductTable.GetProducts | src/services/product.service.ts:24-107 | the page query has a limit in [1, 100], a non-negative offset, an allow-listed ORDER BY column, the normalised direction, the two soft-delete clauses first and the search clause third exactly when searching, the WHERE text joining them with AND, and then the binding `search = %search%` and no other; the metadata is BuildMeta of the matching-product count |
| ProductService.ProductTable.Create | src/services/product.service.ts:122-156 | the table becomes Insert of the new row; the result is the follow-up lookup, which is present exactly when the category is live; on a constraint violation the error is returned and the table is unchanged |
| ProductService.ProductTable.Update | src/services/product.service.ts:158-188 | the table becomes ApplyUpdate of the old one; the result is an error exactly when ApplyUpdate refuses the write; otherwise it is null when no live product had the id, and else the follow-up lookup, which is null when the category is soft-deleted; the categories table is not changed |
| ProductService.ProductTable.Delete | src/services/product.service.ts:190-201 | the table becomes ApplyDelete of the old one; the result is true exactly when a live product had the id; the categories table is not changed |

## Left out

- The rows a listing returns are not computed. The model gives the SELECT that is sent (clauses, binding, ORDER BY column and direction, LIMIT, OFFSET) and `PageWindow` on an already ordered sequence. Ordering rows by a column is the store's work.
- SQL text generation beyond the WHERE list, and MySQL's LIKE semantics and collation, are not modelled. `like` is an uninterpreted parameter. A `%` or `_` inside the search text acts as a wildcard in the store; the model does not capture this.
- Lower-casing of the sort direction is modelled for the ASCII letters only. No other character lower-cases to `a`, `s` or `c`, so the ASC/DESC decision is unaffected.
- Pagination.BuildMeta: page, offset, `from` and `to` are JavaScript doubles in the source, and `page` has no upper clamp (src/services/product.service.ts:33, 35, 94, 102). The model computes them on unbounded integers. It matches the source only while page · perPage ≤ 2^53. Beyond that the source rounds (page 2^60 gives `from` = offset, not offset + 1) or overflows to Infinity (page 1e308), and the model does neither.
- Pagination.Sanitize: the same bound applies to the offset it computes; the model's offset is exact for every page.
- Fractional page numbers and page sizes are not modelled, because inputs are integers or non-finite. The source does not floor them, so a fractional page would give a fractional offset.
- The link builder, the URL parser and the request's query map are not part of this model. The base path and the query are held fixed.
- The link builder is assumed to return a URL for every page from 1 to last_page, as the code's non-null assertions (`!`, src/services/product.service.ts:75, 76, 86; src/services/category.service.ts:70, 71, 82) assume. Its declared type admits null; a null result for a neighbouring page would make `next_page_url`/`prev_page_url` null even where `Pagination.BuildMeta` says they are present.
- `randomUUID()` and `new Date()` are parameters. UUID uniqueness is not assumed: a collision is the store's duplicate-key error.
- The update and delete code reads the first element of the tuple the query call returns (`const [result] = …`, src/services/product.service.ts:168, 185, 191, 199; src/services/category.service.ts:141, 149, 155, 163) and takes a non-array value as the count. The model assumes that this first element is the number of rows the UPDATE's WHERE matched (0 or 1). How the database driver fills that tuple is not part of this model. If the driver put the count elsewhere, `update*`/`delete*` would always report "not found".
- Store failures other than a duplicate key and a missing category key are not modelled. This covers connectivity loss and column type or NOT NULL violations. The same holds for the absence of retries.
- The COUNT query and the page query are not run in one snapshot. The model is sequential and does not capture drift between them under concurrent writes.
- Prices are JavaScript numbers. The model stores them as reals and does no arithmetic on them.
- The users table, the HTTP controllers, authentication, request validation, the ORM model declarations, seeding and the connection configuration are not part of this model.
