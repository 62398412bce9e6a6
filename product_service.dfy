/**
 * The product service: the paginated listing of products joined with their
 * categories, and the audit-stamped create / read / update / soft-delete of
 * a single product.
 *
 * The `products` table is a map from id to row; every read joins it with
 * the `categories` table of CategoryService and filters out a product whose
 * category is soft-deleted. The writes filter on the product's own
 * `deleted_at` only, so a write can succeed on a product that the follow-up
 * read no longer returns.
 */
module ProductService {
  import opened Wrappers
  import opened Audit
  import opened Pagination
  import CategoryService

  const AllowedSortFields: set<string> := {"name", "price", "stock", "created_at", "modified_at"}

  const ProductLiveClause: string := "p.deleted_at IS NULL"
  const CategoryLiveClause: string := "c.deleted_at IS NULL"
  const SearchClause: string := "(p.name LIKE :search OR c.name LIKE :search)"

  /** The stock of a product created without one. */
  const DefaultStock: int := 0

  /** A `products` row. The price is a JavaScript number that the model only stores and returns. */
  datatype ProductRow = ProductRow(
    id: Id,
    name: string,
    price: real,
    stock: int,
    categoryId: Id,
    audit: AuditFields)

  /** A product as the reads return it: its row joined with its category's name. */
  datatype ProductView = ProductView(product: ProductRow, categoryName: string)

  /** The columns an update overwrites. */
  datatype ProductFields = ProductFields(name: string, price: real, stock: int, categoryId: Id)

  type Table = map<Id, ProductRow>

  type Categories = CategoryService.Table

  /** Every row is stored under its own id. */
  predicate Keyed(t: Table) {
    forall k :: k in t ==> t[k].id == k
  }

  /** The table holds a product with this id that is not soft-deleted (the filter of the writes). */
  predicate Live(t: Table, id: Id) {
    id in t && IsLive(t[id].audit)
  }

  /** The product is live and joined to a live category (the filter of the reads). */
  predicate Visible(t: Table, cats: Categories, id: Id) {
    Live(t, id) && CategoryService.Live(cats, t[id].categoryId)
  }

  // ---------------------------------------------------------------------------
  // Reads
  // ---------------------------------------------------------------------------

  /**
   * The product a lookup by id returns, with its category's name. A missing
   * or soft-deleted product is absent, and so is one whose category is
   * missing or soft-deleted.
   */
  function Find(t: Table, cats: Categories, id: Id): (r: Option<ProductView>)
    ensures r.Some? <==> id in t && IsLive(t[id].audit) && t[id].categoryId in cats && IsLive(cats[t[id].categoryId].audit)
    ensures r.Some? ==> r.value.product == t[id] && r.value.categoryName == cats[t[id].categoryId].name
  {
    if Visible(t, cats, id) then Some(ProductView(t[id], cats[t[id].categoryId].name)) else None
  }

  /**
   * The ids the listing's WHERE clause selects: visible products and, when a
   * search text is given, only those whose own name or whose category's name
   * matches it (`like` stands for the store's LIKE '%search%').
   */
  function Matching(t: Table, cats: Categories, search: string, like: (string, string) -> bool): (ids: set<Id>)
    ensures forall id :: id in ids ==>
      Visible(t, cats, id) && (search == "" || like(t[id].name, search) || like(cats[t[id].categoryId].name, search))
    ensures forall id ::
      (Visible(t, cats, id) && (search == "" || like(t[id].name, search) || like(cats[t[id].categoryId].name, search)))
      ==> id in ids
    ensures ids <= t.Keys
  {
    set id | id in t && Visible(t, cats, id)
                     && (search == "" || like(t[id].name, search) || like(cats[t[id].categoryId].name, search))
  }

  /**
   * The listing and the lookup agree: every counted product is returned by
   * a lookup of its id, and without a search every product a lookup returns
   * is counted.
   */
  lemma MatchingOnlyVisible(t: Table, cats: Categories, search: string, like: (string, string) -> bool)
    ensures forall id :: id in Matching(t, cats, search, like) ==> Find(t, cats, id).Some?
    ensures search == "" ==> forall id :: Find(t, cats, id).Some? ==> id in Matching(t, cats, search, like)
  {
  }

  // ---------------------------------------------------------------------------
  // Listing
  // ---------------------------------------------------------------------------

  /** The ORDER BY column: one of the five product columns, the requested one when allowed. */
  function SortField(sortBy: Option<string>): (r: string)
    ensures r == "name" || r == "price" || r == "stock" || r == "created_at" || r == "modified_at"
    ensures sortBy.Some? && sortBy.value in AllowedSortFields ==> r == sortBy.value
    ensures sortBy.None? || sortBy.value !in AllowedSortFields ==> r == "created_at"
  {
    ResolveSortField(sortBy, AllowedSortFields)
  }

  /**
   * The WHERE clauses of the listing, built by appending to a list that
   * starts with the two soft-delete filters, and the parameters they bind.
   */
  method BuildWhere(search: string) returns (clauses: seq<string>, replacements: map<string, string>)
    ensures |clauses| >= 2 && clauses[0] == ProductLiveClause && clauses[1] == CategoryLiveClause
    ensures |clauses| == if search == "" then 2 else 3
    ensures SearchClause in clauses <==> search != ""
    ensures "search" in replacements <==> search != ""
    ensures replacements.Keys <= {"search"}
    ensures search != "" ==> replacements["search"] == SearchPattern(search)
    ensures WhereSql(clauses) == if search == "" then "WHERE " + ProductLiveClause + " AND " + CategoryLiveClause
                                 else "WHERE " + ProductLiveClause + " AND " + CategoryLiveClause + " AND " + SearchClause
  {
    WhereSqlSingle(ProductLiveClause);
    WhereSqlPush([ProductLiveClause], CategoryLiveClause);
    assert [ProductLiveClause] + [CategoryLiveClause] == [ProductLiveClause, CategoryLiveClause];
    clauses := [ProductLiveClause, CategoryLiveClause];
    replacements := map[];
    if search != "" {
      WhereSqlPush(clauses, SearchClause);
      clauses := clauses + [SearchClause];
      replacements := replacements["search" := SearchPattern(search)];
    }
  }

  // ---------------------------------------------------------------------------
  // Writes, as functions on the table
  // ---------------------------------------------------------------------------

  /** The row the INSERT of a new product writes; an absent stock is DefaultStock. */
  function NewProduct(id: Id, name: string, price: real, stock: Option<int>, categoryId: Id,
                      userId: Option<Id>, now: Timestamp): (row: ProductRow)
    ensures row.id == id && row.name == name && row.price == price && row.categoryId == categoryId
    ensures stock.Some? ==> row.stock == stock.value
    ensures stock.None? ==> row.stock == DefaultStock
    ensures IsLive(row.audit) && row.audit.deletedBy.None?
    ensures row.audit.createdBy == userId && row.audit.modifiedBy == userId
    ensures row.audit.createdAt == now && row.audit.modifiedAt == now
  {
    ProductRow(id, name, price, if stock.Some? then stock.value else DefaultStock, categoryId, Stamp(userId, now))
  }

  /**
   * The INSERT: refused when the id is taken or when the category id is not
   * a key of the categories table (a soft-deleted category is still a key);
   * otherwise the table gains exactly that row.
   */
  function Insert(t: Table, cats: Categories, row: ProductRow): (r: Result<Table, StoreError>)
    ensures r.Failure? <==> row.id in t || row.categoryId !in cats
    ensures row.id in t ==> r == Failure(DuplicateKey)
    ensures row.id !in t && row.categoryId !in cats ==> r == Failure(ForeignKeyViolation)
    ensures r.Success? ==> r.value.Keys == t.Keys + {row.id} && r.value[row.id] == row
    ensures r.Success? ==> forall k :: k in t ==> r.value[k] == t[k]
  {
    if row.id in t then Failure(DuplicateKey)
    else if row.categoryId !in cats then Failure(ForeignKeyViolation)
    else Success(t[row.id := row])
  }

  /** The number of rows an UPDATE filtered on the id and the product's `deleted_at IS NULL` affects. */
  function AffectedRows(t: Table, id: Id): (n: nat)
    ensures n <= 1
    ensures n == 1 <==> Live(t, id)
  {
    if Live(t, id) then 1 else 0
  }

  /**
   * The UPDATE: it touches only a live product with this id, whatever the
   * state of its category, and overwrites its four columns and the
   * modification stamp. A new category id that is not a key of the
   * categories table is refused, and then nothing changes.
   */
  function ApplyUpdate(t: Table, cats: Categories, id: Id, f: ProductFields, userId: Option<Id>, now: Timestamp): (r: Result<Table, StoreError>)
    ensures r.Failure? <==> Live(t, id) && f.categoryId !in cats
    ensures r.Failure? ==> r.error == ForeignKeyViolation
    ensures !Live(t, id) ==> r == Success(t)
    ensures r.Success? ==> r.value.Keys == t.Keys && forall k :: k in t && k != id ==> r.value[k] == t[k]
    ensures r.Success? && Live(t, id) ==>
      var row := r.value[id];
      && Live(r.value, id) && row.id == t[id].id
      && row.name == f.name && row.price == f.price && row.stock == f.stock && row.categoryId == f.categoryId
      && row.audit.modifiedBy == userId && row.audit.modifiedAt == now
      && row.audit.createdBy == t[id].audit.createdBy && row.audit.createdAt == t[id].audit.createdAt
      && row.audit.deletedBy == t[id].audit.deletedBy
  {
    if !Live(t, id) then Success(t)
    else if f.categoryId !in cats then Failure(ForeignKeyViolation)
    else
      var old_row := t[id];
      Success(t[id := old_row.(name := f.name, price := f.price, stock := f.stock, categoryId := f.categoryId,
                               audit := Touch(old_row.audit, userId, now))])
  }

  /**
   * The soft delete: it stamps `deleted_at`/`deleted_by` on a live product
   * with this id and changes nothing else; afterwards no live product has
   * this id.
   */
  function ApplyDelete(t: Table, id: Id, userId: Option<Id>, now: Timestamp): (t': Table)
    ensures t'.Keys == t.Keys
    ensures forall k :: k in t && k != id ==> t'[k] == t[k]
    ensures !Live(t', id)
    ensures !Live(t, id) ==> t' == t
    ensures Live(t, id) ==> && t'[id] == t[id].(audit := t'[id].audit)
                            && t'[id].audit.deletedAt == Some(now) && t'[id].audit.deletedBy == userId
                            && t'[id].audit.createdAt == t[id].audit.createdAt
                            && t'[id].audit.createdBy == t[id].audit.createdBy
                            && t'[id].audit.modifiedAt == t[id].audit.modifiedAt
                            && t'[id].audit.modifiedBy == t[id].audit.modifiedBy
  {
    if Live(t, id) then t[id := t[id].(audit := SoftDelete(t[id].audit, userId, now))] else t
  }

  // ---------------------------------------------------------------------------
  // Properties of the write path
  // ---------------------------------------------------------------------------

  /**
   * A created product is stored as given, with the default stock when none
   * is given; the read that follows returns it exactly when its category is
   * live.
   */
  lemma CreateThenFind(t: Table, cats: Categories, id: Id, name: string, price: real, stock: Option<int>,
                       categoryId: Id, userId: Option<Id>, now: Timestamp)
    requires id !in t && categoryId in cats
    ensures var ins := Insert(t, cats, NewProduct(id, name, price, stock, categoryId, userId, now));
      && ins.Success?
      && (Find(ins.value, cats, id).Some? <==> CategoryService.Live(cats, categoryId))
      && (Find(ins.value, cats, id).Some? ==>
            var v := Find(ins.value, cats, id).value;
            && v.product.name == name && v.product.categoryId == categoryId
            && v.product.stock == (if stock.Some? then stock.value else DefaultStock)
            && v.product.audit.deletedAt.None?
            && v.categoryName == cats[categoryId].name)
  {
  }

  /**
   * An update of a live product that moves it to a soft-deleted category
   * (or leaves it in one) changes the row, yet the read that follows finds
   * nothing: the update reports "not found" although it wrote.
   */
  lemma UpdateUnderDeletedCategory(t: Table, cats: Categories, id: Id, f: ProductFields, userId: Option<Id>, now: Timestamp)
    requires Live(t, id)
    requires f.categoryId in cats && !IsLive(cats[f.categoryId].audit)
    ensures var r := ApplyUpdate(t, cats, id, f, userId, now);
      && r.Success?
      && AffectedRows(t, id) == 1
      && r.value[id].name == f.name && r.value[id].audit.modifiedAt == now
      && Find(r.value, cats, id).None?
  {
  }

  /** Deleting twice: the second delete matches no row and leaves the table as the first left it. */
  lemma DeleteIdempotent(t: Table, id: Id, u1: Option<Id>, n1: Timestamp, u2: Option<Id>, n2: Timestamp)
    ensures var t1 := ApplyDelete(t, id, u1, n1);
      && AffectedRows(t1, id) == 0
      && ApplyDelete(t1, id, u2, n2) == t1
  {
  }

  /**
   * Soft-deleting a category hides every product in it from the reads,
   * although the products themselves stay live.
   */
  lemma DeletedCategoryHidesProducts(t: Table, cats: Categories, categoryId: Id, userId: Option<Id>, now: Timestamp)
    ensures var cats' := CategoryService.ApplyDelete(cats, categoryId, userId, now);
      forall id :: id in t && t[id].categoryId == categoryId ==> Find(t, cats', id).None?
  {
  }

  // ---------------------------------------------------------------------------
  // The table
  // ---------------------------------------------------------------------------

  class ProductTable {
    var rows: Table
    /** The categories table the reads join with and the foreign key refers to. */
    const categories: CategoryService.CategoryTable

    /**
     * Both tables are stored under their own ids, so the join on a map key
     * is the join on the `c.id` column.
     */
    ghost predicate Valid()
      reads this, categories
    {
      Keyed(rows) && categories.Valid()
    }

    constructor (categories: CategoryService.CategoryTable)
      requires categories.Valid()
      ensures Valid() && rows == map[] && this.categories == categories
    {
      rows := map[];
      this.categories := categories;
    }

    /** The lookup by id: the visible product with that id, joined with its category's name, or None. */
    method GetById(id: Id) returns (r: Option<ProductView>)
      requires Valid()
      ensures r == Find(rows, categories.rows, id)
      ensures r.Some? ==> r.value.product.id == id && IsLive(r.value.product.audit)
                          && CategoryService.Live(categories.rows, r.value.product.categoryId)
    {
      r := Find(rows, categories.rows, id);
    }

    /** The listing: the page query for the request, and the metadata for the number of matching products. */
    method GetProducts(req: ListRequest, like: (string, string) -> bool) returns (result: Listing)
      ensures var w := Sanitize(req.page, req.perPage);
        && result.meta == BuildMeta(|Matching(rows, categories.rows, req.search, like)|, w.page, w.perPage, req.path)
        && result.query.limit == w.perPage && result.query.offset == w.offset
      ensures result.meta.total == |Matching(rows, categories.rows, req.search, like)|
      ensures 1 <= result.query.limit <= MaxPerPage && result.query.offset >= 0
      ensures result.query.orderBy == SortField(req.sortBy) && result.query.orderBy in AllowedSortFields
      ensures result.query.direction == ResolveDirection(req.sortDir)
      ensures |result.query.clauses| >= 2
      ensures result.query.clauses[0] == ProductLiveClause && result.query.clauses[1] == CategoryLiveClause
      ensures |result.query.clauses| == if req.search == "" then 2 else 3
      ensures SearchClause in result.query.clauses <==> req.search != ""
      ensures result.query.whereSql == WhereSql(result.query.clauses)
      ensures result.query.whereSql == if req.search == "" then "WHERE " + ProductLiveClause + " AND " + CategoryLiveClause
                                       else "WHERE " + ProductLiveClause + " AND " + CategoryLiveClause + " AND " + SearchClause
      ensures "search" in result.query.replacements <==> req.search != ""
      ensures result.query.replacements.Keys <= {"search"}
      ensures req.search != "" ==> result.query.replacements["search"] == SearchPattern(req.search)
    {
      var w := Sanitize(req.page, req.perPage);
      var orderBy := SortField(req.sortBy);
      var direction := ResolveDirection(req.sortDir);
      var clauses, replacements := BuildWhere(req.search);
      var whereSql := WhereSql(clauses);
      var count := |Matching(rows, categories.rows, req.search, like)|;
      var query := SelectQuery(clauses, whereSql, replacements, orderBy, direction, w.perPage, w.offset);
      result := Listing(query, BuildMeta(count, w.page, w.perPage, req.path));
    }

    /** The create: inserts a fresh, live product stamped with the caller, then reads it back through the join. */
    method Create(id: Id, name: string, price: real, stock: Option<int>, categoryId: Id,
                  userId: Option<Id>, now: Timestamp) returns (r: Result<Option<ProductView>, StoreError>)
      requires Valid()
      modifies this
      ensures Valid() && categories.rows == old(categories.rows)
      ensures var ins := Insert(old(rows), categories.rows, NewProduct(id, name, price, stock, categoryId, userId, now));
        && (ins.Failure? ==> rows == old(rows) && r == Failure(ins.error))
        && (ins.Success? ==> rows == ins.value && r == Success(Find(rows, categories.rows, id)))
      ensures r.Success? ==> (r.value.Some? <==> CategoryService.Live(categories.rows, categoryId))
    {
      var row := NewProduct(id, name, price, stock, categoryId, userId, now);
      var ins := Insert(rows, categories.rows, row);
      if ins.Failure? {
        return Failure(ins.error);
      }
      rows := ins.value;
      var found := GetById(id);
      r := Success(found);
    }

    /**
     * The update: None when no live product has the id; otherwise the row is
     * written and read back, which gives None again when its category is
     * soft-deleted.
     */
    method Update(id: Id, f: ProductFields, userId: Option<Id>, now: Timestamp) returns (r: Result<Option<ProductView>, StoreError>)
      requires Valid()
      modifies this
      ensures Valid() && categories.rows == old(categories.rows)
      ensures var upd := ApplyUpdate(old(rows), categories.rows, id, f, userId, now);
        && (upd.Failure? ==> rows == old(rows) && r == Failure(upd.error))
        && (upd.Success? ==> rows == upd.value)
      ensures r.Failure? <==> ApplyUpdate(old(rows), categories.rows, id, f, userId, now).Failure?
      ensures r.Success? && !Live(old(rows), id) ==> r.value.None?
      ensures r.Success? && Live(old(rows), id) ==> r.value == Find(rows, categories.rows, id)
    {
      var affected := AffectedRows(rows, id);
      var upd := ApplyUpdate(rows, categories.rows, id, f, userId, now);
      if upd.Failure? {
        return Failure(upd.error);
      }
      rows := upd.value;
      if affected == 0 {
        return Success(None);
      }
      var found := GetById(id);
      r := Success(found);
    }

    /** The soft delete: true exactly when a live product with the id was there to delete. */
    method Delete(id: Id, userId: Option<Id>, now: Timestamp) returns (deleted: bool)
      requires Valid()
      modifies this
      ensures Valid() && categories.rows == old(categories.rows)
      ensures rows == ApplyDelete(old(rows), id, userId, now)
      ensures deleted <==> Live(old(rows), id)
    {
      var affected := AffectedRows(rows, id);
      rows := ApplyDelete(rows, id, userId, now);
      deleted := affected > 0;
    }
  }
}
