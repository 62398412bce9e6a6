/**
 * The audit and soft-delete columns that every table of the catalog carries
 * (`created_at/by`, `modified_at/by`, `deleted_at/by`), and the three ways a
 * write statement stamps them. A row is soft-deleted exactly when its
 * `deleted_at` is set; rows are never physically removed.
 */
module Audit {
  import opened Wrappers

  /** A UUID, as the source keeps it: a string. */
  type Id = string

  /** The value of `new Date()` at the time of a statement; the clock is a parameter of the model. */
  type Timestamp = int

  datatype AuditFields = AuditFields(
    createdAt: Timestamp,
    createdBy: Option<Id>,
    modifiedAt: Timestamp,
    modifiedBy: Option<Id>,
    deletedAt: Option<Timestamp>,
    deletedBy: Option<Id>)

  /** A constraint violation the store raises for a write; it reaches the caller unchanged. */
  datatype StoreError =
    | DuplicateKey          // the generated id is already a primary key of the table
    | ForeignKeyViolation   // a product names a category id that the categories table does not hold

  /** The `deleted_at IS NULL` predicate that every read and every write filters on. */
  predicate IsLive(a: AuditFields) {
    a.deletedAt.None?
  }

  /** The columns an INSERT writes: created and modified by the caller at `now`, not deleted. */
  function Stamp(userId: Option<Id>, now: Timestamp): (a: AuditFields)
    ensures IsLive(a) && a.deletedBy.None?
    ensures a.createdBy == userId && a.modifiedBy == userId
    ensures a.createdAt == now && a.modifiedAt == now
  {
    AuditFields(now, userId, now, userId, None, None)
  }

  /** The columns an UPDATE writes: only `modified_at`/`modified_by` change. */
  function Touch(a: AuditFields, userId: Option<Id>, now: Timestamp): (b: AuditFields)
    ensures b.modifiedAt == now && b.modifiedBy == userId
    ensures b.createdAt == a.createdAt && b.createdBy == a.createdBy
    ensures b.deletedAt == a.deletedAt && b.deletedBy == a.deletedBy
  {
    a.(modifiedAt := now, modifiedBy := userId)
  }

  /** The columns a soft delete writes: only `deleted_at`/`deleted_by` change, and the row is no longer live. */
  function SoftDelete(a: AuditFields, userId: Option<Id>, now: Timestamp): (b: AuditFields)
    ensures !IsLive(b) && b.deletedAt == Some(now) && b.deletedBy == userId
    ensures b.createdAt == a.createdAt && b.createdBy == a.createdBy
    ensures b.modifiedAt == a.modifiedAt && b.modifiedBy == a.modifiedBy
  {
    a.(deletedAt := Some(now), deletedBy := userId)
  }
}
