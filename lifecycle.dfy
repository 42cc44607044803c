/**
 * The row's own part of `dbSave`: the choice between insert, delete and update, the
 * statement that choice sends, and the reports it makes along the way. The cascade to
 * the dependent objects and the database round trip are in the class `DBRow`.
 */
module Lifecycle {
  import opened Wrappers
  import opened PhpValues
  import PhpArrays
  import opened PropertyScheme
  import opened Accessors
  import opened Statements
  import opened Materializer

  /** `$this->_dbId`. */
  function DbId(core: RowCore): Value
  {
    Slot(core.slots, "dbId")
  }

  /**
   * `isNew()`: `$this->_dbId == 0`, a loose comparison. An id that `dbInsert` reports as
   * `empty()` leaves the row new.
   */
  predicate IsNew(core: RowCore)
    ensures IsEmpty(DbId(core)) ==> IsNew(core)
  {
    EmptyIsLooseZero(DbId(core));
    IsLooseZero(DbId(core))
  }

  datatype Branch = InsertBranch | DeleteBranch | UpdateBranch

  /** The branch `dbSave` takes, from `isNew()` and `isEmpty()`. */
  function SaveBranch(isNew: bool, isEmpty: bool): (b: Branch)
    ensures b == InsertBranch <==> isNew
    ensures b == DeleteBranch <==> !isNew && isEmpty
    ensures b == UpdateBranch <==> !isNew && !isEmpty
  {
    if isNew then InsertBranch else if isEmpty then DeleteBranch else UpdateBranch
  }

  /** The INSERT `db_field_set_create` sends for a field set. */
  function InsertOf(fs: FieldSet): Stmt
  {
    Insert(PhpArrays.Keys(fs), PhpArrays.Values(fs))
  }

  /** What `db_field_update` sends for a field set: nothing when the SET list is empty. */
  function UpdateOf(scheme: Scheme, core: RowCore, fs: FieldSet): Option<Stmt>
  {
    var items := SetClause(scheme, core, fs);
    if items == [] then None else Some(Update(items, DbId(core)))
  }

  /**
   * The statement the row's own save sends (None: an update with nothing to set), or the
   * exception `dbMakeFieldSet` throws first.
   */
  function OwnStatement(scheme: Scheme, core: RowCore, isEmpty: bool): Result<Option<Stmt>, Error>
  {
    match SaveBranch(IsNew(core), isEmpty)
    case InsertBranch =>
      (match MakeFieldSet(scheme, core, false)
       case Failure(e) => Failure(e)
       case Success(fs) => Success(Some(InsertOf(fs))))
    case DeleteBranch => Success(Some(Delete(DbId(core))))
    case UpdateBranch =>
      (match MakeFieldSet(scheme, core, true)
       case Failure(e) => Failure(e)
       case Success(fs) => Success(UpdateOf(scheme, core, fs)))
  }

  /**
   * The reports made before the statement: an empty new object is inserted anyway, an
   * update outside a transaction is reported. The checks of `dbInsert`, `dbUpdate` and
   * `dbDelete` on `isNew()` agree with the branch and report nothing.
   */
  function OwnReports(core: RowCore, isEmpty: bool, transaction: bool): seq<Diag>
  {
    match SaveBranch(IsNew(core), isEmpty)
    case InsertBranch => if isEmpty then [EmptyOnInsert] else []
    case DeleteBranch => []
    case UpdateBranch => if transaction then [] else [NoTransaction]
  }

  /**
   * The slots after the row's own save: `_dbId` becomes the id the INSERT returned, or 0
   * after a DELETE; an UPDATE changes no slot.
   */
  function SlotsAfterSave(core: RowCore, isEmpty: bool, insertedId: int): Slots
  {
    match SaveBranch(IsNew(core), isEmpty)
    case InsertBranch => core.slots["dbId" := Int(insertedId)]
    case DeleteBranch => core.slots["dbId" := Int(0)]
    case UpdateBranch => core.slots
  }

  /** The statements of an optional statement. */
  function Sent(s: Option<Stmt>): seq<Stmt>
  {
    if s.Some? then [s.value] else []
  }

  /**
   * A save sends at most one statement for the row itself, and its kind is the branch:
   * an INSERT exactly for a new row, a DELETE exactly for a stored empty one, an UPDATE
   * (or nothing) otherwise. A DELETE and an UPDATE address the row's current id.
   */
  lemma AtMostOneStatement(scheme: Scheme, core: RowCore, isEmpty: bool)
    requires OwnStatement(scheme, core, isEmpty).Success?
    ensures var s := OwnStatement(scheme, core, isEmpty).value;
      && |Sent(s)| <= 1
      && (s.Some? && s.value.Insert? <==> IsNew(core))
      && (s.Some? && s.value.Delete? <==> !IsNew(core) && isEmpty)
      && (s.None? || s.value.Update? <==> !IsNew(core) && !isEmpty)
      && (s.Some? && (s.value.Delete? || s.value.Update?) ==> s.value.id == DbId(core))
  {
  }

  /** An exception can only come from building the field set, so a delete never throws. */
  lemma DeleteNeverThrows(scheme: Scheme, core: RowCore)
    requires !IsNew(core)
    ensures OwnStatement(scheme, core, true) == Success(Some(Delete(DbId(core))))
  {
  }

  /**
   * Saving twice is harmless for a stored row: once `dbSave` has cleared
   * propertiesChanged and propertiesAdjusted, a second save sends no UPDATE.
   */
  lemma SecondSaveSendsNothing(scheme: Scheme, core: RowCore)
    requires !IsNew(core) && core.changed == [] && core.adjusted == map[]
    requires MakeFieldSet(scheme, core, true).Success?
    ensures OwnStatement(scheme, core, false) == Success(None)
  {
    NothingChangedNoSet(scheme, core, MakeFieldSet(scheme, core, true).value);
  }

  /**
   * The INSERT of a scheme without injectors lists every declared field once, in scheme
   * order, with as many values as fields.
   */
  lemma InsertColumns(scheme: Scheme, core: RowCore, isEmpty: bool)
    requires IsNew(core) && NoInjector(scheme)
    requires OwnStatement(scheme, core, isEmpty).Success?
    ensures var s := OwnStatement(scheme, core, isEmpty).value;
      && s.Some? && s.value.Insert?
      && s.value.fields == FieldOrder(scheme, |scheme|)
      && |s.value.values| == |s.value.fields|
  {
    FieldSetShape(scheme, core, false, |scheme|);
  }
}
