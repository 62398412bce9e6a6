/**
 * The category service: the paginated listing of categories and the
 * audit-stamped create / read / update / soft-delete of a single category.
 *
 * The `categories` table is a map from id to row. Each write is one SQL
 * statement; its effect on the table is given by a function on maps
 * (Insert, ApplyUpdate, ApplyDelete), and the methods of CategoryTable are
 * proved to perform exactly that effect and to report "not found" from the
 * number of rows the statement matched.
 */
module CategoryService {
  import opened Wrappers
  import opened Audit
  import opened Pagination

  const AllowedSortFields: set<string> := {"name", "created_at", "modified_at"}

  const SoftDeleteClause: string := "deleted_at IS NULL"
  const SearchClause: string := "name LIKE :search"

  datatype CategoryRow = CategoryRow(id: Id, name: string, audit: AuditFields)

  type Table = map<Id, CategoryRow>

  /** Every row is stored under its own id. */
  predicate Keyed(t: Table) {
    forall k :: k in t ==> t[k].id == k
  }

  /** The table holds a row with this id that is not soft-deleted. */
  predicate Live(t: Table, id: Id) {
    id in t && IsLive(t[id].audit)
  }

  // ---------------------------------------------------------------------------
  // Reads
  // ---------------------------------------------------------------------------

  /** The row a lookup by id returns: missing and soft-deleted rows are both absent. */
  function Find(t: Table, id: Id): (r: Option<CategoryRow>)
    ensures r.Some? <==> Live(t, id)
    ensures r.Some? ==> r.value == t[id] && IsLive(r.value.audit)
  {
    if Live(t, id) then Some(t[id]) else None
  }

  /**
   * The ids the listing's WHERE clause selects: live rows and, when a search
   * text is given, only those whose name matches it. `like(name, search)`
   * stands for the store's `name LIKE '%search%'` under the column collation.
   */
  function Matching(t: Table, search: string, like: (string, string) -> bool): (ids: set<Id>)
    ensures forall id :: id in ids ==> Live(t, id) && (search == "" || like(t[id].name, search))
    ensures forall id :: Live(t, id) && (search == "" || like(t[id].name, search)) ==> id in ids
    ensures ids <= t.Keys
  {
    set id | id in t && IsLive(t[id].audit) && (search == "" || like(t[id].name, search))
  }

  /**
   * The listing and the lookup agree: every counted row is returned by a
   * lookup of its id, and without a search every row a lookup returns is
   * counted.
   */
  lemma MatchingOnlyLive(t: Table, search: string, like: (string, string) -> bool)
    ensures forall id :: id in Matching(t, search, like) ==> Find(t, id).Some?
    ensures search == "" ==> forall id :: Find(t, id).Some? ==> id in Matching(t, search, like)
  {
  }

  // ---------------------------------------------------------------------------
  // Listing
  // ---------------------------------------------------------------------------

  /** The ORDER BY column: one of the three category columns, the requested one when allowed. */
  function SortField(sortBy: Option<string>): (r: string)
    ensures r == "name" || r == "created_at" || r == "modified_at"
    ensures sortBy.Some? && sortBy.value in AllowedSortFields ==> r == sortBy.value
    ensures sortBy.None? || sortBy.value !in AllowedSortFields ==> r == "created_at"
  {
    ResolveSortField(sortBy, AllowedSortFields)
  }

  /**
   * The WHERE clauses of the listing, built by appending to a list that
   * starts with the soft-delete filter, and the parameters they bind.
   */
  method BuildWhere(search: string) returns (clauses: seq<string>, replacements: map<string, string>)
    ensures |clauses| >= 1 && clauses[0] == SoftDeleteClause
    ensures |clauses| == if search == "" then 1 else 2
    ensures SearchClause in clauses <==> search != ""
    ensures "search" in replacements <==> search != ""
    ensures replacements.Keys <= {"search"}
    ensures search != "" ==> replacements["search"] == SearchPattern(search)
    ensures WhereSql(clauses) == if search == "" then "WHERE " + SoftDeleteClause
                                 else "WHERE " + SoftDeleteClause + " AND " + SearchClause
  {
    WhereSqlSingle(SoftDeleteClause);
    clauses := [SoftDeleteClause];
    replacements := map[];
    if search != "" {
      WhereSqlPush(clauses, SearchClause);
      clauses := clauses + [SearchClause];
      replacements := replacements["search" := SearchPattern(search)];
    }
  }

  // ---------------------------------------------------------------------------
  // Writes, as functions on the table
  // ---------------------------------------------------------------------------

  /** The row the INSERT of a new category writes. */
  function NewCategory(id: Id, name: string, userId: Option<Id>, now: Timestamp): (row: CategoryRow)
    ensures row.id == id && row.name == name
    ensures IsLive(row.audit) && row.audit.deletedBy.None?
    ensures row.audit.createdBy == userId && row.audit.modifiedBy == userId
    ensures row.audit.createdAt == now && row.audit.modifiedAt == now
  {
    CategoryRow(id, name, Stamp(userId, now))
  }

  /** The INSERT: refused when the id is taken, otherwise the table gains exactly that row. */
  function Insert(t: Table, row: CategoryRow): (r: Result<Table, StoreError>)
    ensures r.Failure? <==> row.id in t
    ensures r.Failure? ==> r.error == DuplicateKey
    ensures r.Success? ==> r.value.Keys == t.Keys + {row.id} && r.value[row.id] == row
    ensures r.Success? ==> forall k :: k in t ==> r.value[k] == t[k]
  {
    if row.id in t then Failure(DuplicateKey) else Success(t[row.id := row])
  }

  /** The number of rows an UPDATE filtered on the id and `deleted_at IS NULL` affects. */
  function AffectedRows(t: Table, id: Id): (n: nat)
    ensures n <= 1
    ensures n == 1 <==> Live(t, id)
  {
    if Live(t, id) then 1 else 0
  }

  /**
   * The UPDATE of a category's name: it touches only a live row with this
   * id, and of that row only the name and the modification stamp.
   */
  function ApplyUpdate(t: Table, id: Id, name: string, userId: Option<Id>, now: Timestamp): (t': Table)
    ensures t'.Keys == t.Keys
    ensures forall k :: k in t && k != id ==> t'[k] == t[k]
    ensures !Live(t, id) ==> t' == t
    ensures Live(t, id) ==> && Live(t', id) && t'[id].id == t[id].id && t'[id].name == name
                            && t'[id].audit.modifiedBy == userId && t'[id].audit.modifiedAt == now
                            && t'[id].audit.createdBy == t[id].audit.createdBy
                            && t'[id].audit.createdAt == t[id].audit.createdAt
                            && t'[id].audit.deletedBy == t[id].audit.deletedBy
  {
    if Live(t, id) then t[id := t[id].(name := name, audit := Touch(t[id].audit, userId, now))] else t
  }

  /**
   * The soft delete: it stamps `deleted_at`/`deleted_by` on a live row with
   * this id and changes nothing else; afterwards no live row has this id.
   */
  function ApplyDelete(t: Table, id: Id, userId: Option<Id>, now: Timestamp): (t': Table)
    ensures t'.Keys == t.Keys
    ensures forall k :: k in t && k != id ==> t'[k] == t[k]
    ensures !Live(t', id)
    ensures !Live(t, id) ==> t' == t
    ensures Live(t, id) ==> && t'[id].id == t[id].id && t'[id].name == t[id].name
                            && t'[id].audit.deletedAt == Some(now) && t'[id].audit.deletedBy == userId
                            && t'[id].audit.createdAt == t[id].audit.createdAt
                            && t'[id].audit.createdBy == t[id].audit.createdBy
                            && t'[id].audit.modifiedAt == t[id].audit.modifiedAt
                            && t'[id].audit.modifiedBy == t[id].audit.modifiedBy
  {
    if Live(t, id) then t[id := t[id].(audit := SoftDelete(t[id].audit, userId, now))] else t
  }

  // ---------------------------------------------------------------------------
  // Properties of the write path
  // ---------------------------------------------------------------------------

  /** A created category is found by its id, with the given name and not deleted. */
  lemma CreateThenFind(t: Table, id: Id, name: string, userId: Option<Id>, now: Timestamp)
    requires id !in t
    ensures var ins := Insert(t, NewCategory(id, name, userId, now));
      && ins.Success?
      && Find(ins.value, id).Some?
      && Find(ins.value, id).value.name == name
      && Find(ins.value, id).value.audit.deletedAt.None?
  {
  }

  /** Deleting twice: the second delete matches no row and leaves the table as the first left it. */
  lemma DeleteIdempotent(t: Table, id: Id, u1: Option<Id>, n1: Timestamp, u2: Option<Id>, n2: Timestamp)
    ensures var t1 := ApplyDelete(t, id, u1, n1);
      && AffectedRows(t1, id) == 0
      && ApplyDelete(t1, id, u2, n2) == t1
  {
  }

  /** An update or a delete never revives a row and never deletes a row other than its target. */
  lemma WritesKeepLiveness(t: Table, id: Id, name: string, userId: Option<Id>, now: Timestamp)
    ensures forall k :: Live(ApplyUpdate(t, id, name, userId, now), k) <==> Live(t, k)
    ensures forall k :: k != id ==> (Live(ApplyDelete(t, id, userId, now), k) <==> Live(t, k))
  {
  }

  // ---------------------------------------------------------------------------
  // The table
  // ---------------------------------------------------------------------------

  class CategoryTable {
    var rows: Table

    ghost predicate Valid()
      reads this
    {
      Keyed(rows)
    }

    constructor ()
      ensures Valid() && rows == map[]
    {
      rows := map[];
    }

    /** The lookup by id: the live row with that id, or None. */
    method GetById(id: Id) returns (r: Option<CategoryRow>)
      requires Valid()
      ensures r == Find(rows, id)
      ensures r.Some? ==> r.value.id == id && IsLive(r.value.audit)
    {
      r := Find(rows, id);
    }

    /** The listing: the page query for the request, and the metadata for the number of matching rows. */
    method GetCategories(req: ListRequest, like: (string, string) -> bool) returns (result: Listing)
      ensures var w := Sanitize(req.page, req.perPage);
        && result.meta == BuildMeta(|Matching(rows, req.search, like)|, w.page, w.perPage, req.path)
        && result.query.limit == w.perPage && result.query.offset == w.offset
      ensures result.meta.total == |Matching(rows, req.search, like)|
      ensures 1 <= result.query.limit <= MaxPerPage && result.query.offset >= 0
      ensures result.query.orderBy == SortField(req.sortBy) && result.query.orderBy in AllowedSortFields
      ensures result.query.direction == ResolveDirection(req.sortDir)
      ensures |result.query.clauses| >= 1 && result.query.clauses[0] == SoftDeleteClause
      ensures |result.query.clauses| == if req.search == "" then 1 else 2
      ensures SearchClause in result.query.clauses <==> req.search != ""
      ensures result.query.whereSql == WhereSql(result.query.clauses)
      ensures result.query.whereSql == if req.search == "" then "WHERE " + SoftDeleteClause
                                       else "WHERE " + SoftDeleteClause + " AND " + SearchClause
      ensures "search" in result.query.replacements <==> req.search != ""
      ensures result.query.replacements.Keys <= {"search"}
      ensures req.search != "" ==> result.query.replacements["search"] == SearchPattern(req.search)
    {
      var w := Sanitize(req.page, req.perPage);
      var orderBy := SortField(req.sortBy);
      var direction := ResolveDirection(req.sortDir);
      var clauses, replacements := BuildWhere(req.search);
      var whereSql := WhereSql(clauses);
      var count := |Matching(rows, req.search, like)|;
      var query := SelectQuery(clauses, whereSql, replacements, orderBy, direction, w.perPage, w.offset);
      result := Listing(query, BuildMeta(count, w.page, w.perPage, req.path));
    }

    /** The create: inserts a fresh, live row stamped with the caller, then reads it back. */
    method Create(id: Id, name: string, userId: Option<Id>, now: Timestamp) returns (r: Result<Option<CategoryRow>, StoreError>)
      requires Valid()
      modifies this
      ensures Valid()
      ensures var ins := Insert(old(rows), NewCategory(id, name, userId, now));
        && (ins.Failure? ==> rows == old(rows) && r == Failure(ins.error))
        && (ins.Success? ==> rows == ins.value && r == Success(Some(NewCategory(id, name, userId, now))))
    {
      var row := NewCategory(id, name, userId, now);
      var ins := Insert(rows, row);
      if ins.Failure? {
        return Failure(ins.error);
      }
      rows := ins.value;
      var found := GetById(id);
      r := Success(found);
    }

    /** The update: None when no live row has the id, otherwise the updated row as read back. */
    method Update(id: Id, name: string, userId: Option<Id>, now: Timestamp) returns (r: Option<CategoryRow>)
      requires Valid()
      modifies this
      ensures Valid()
      ensures rows == ApplyUpdate(old(rows), id, name, userId, now)
      ensures r.None? <==> !Live(old(rows), id)
      ensures r.Some? ==> r.value == rows[id] && r.value.id == id && r.value.name == name
    {
      var affected := AffectedRows(rows, id);
      rows := ApplyUpdate(rows, id, name, userId, now);
      if affected == 0 {
        return None;
      }
      r := GetById(id);
    }

    /** The soft delete: true exactly when a live row with the id was there to delete. */
    method Delete(id: Id, userId: Option<Id>, now: Timestamp) returns (deleted: bool)
      requires Valid()
      modifies this
      ensures Valid()
      ensures rows == ApplyDelete(old(rows), id, userId, now)
      ensures deleted <==> Live(old(rows), id)
    {
      var affected := AffectedRows(rows, id);
      rows := ApplyDelete(rows, id, userId, now);
      deleted := affected > 0;
    }
  }
}
