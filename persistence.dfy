/**
 * The class `DBRow` itself: an object whose `_<name>` properties, lock flag and change
 * tracking are updated in place by its accessors, by reconstruction from a row, and by
 * the CRUD operations, which talk to a `Database`.
 */
module Persistence {
  import opened Wrappers
  import opened PhpValues
  import PhpArrays
  import opened PropertyScheme
  import opened Accessors
  import opened Statements
  import opened Materializer
  import opened Reconstruction
  import opened Lifecycle

  /**
   * The database connection and the debug sink as DBRow sees them: every statement sent
   * is appended to `log`, every report to `reports`. Whether a query succeeds, the id an
   * INSERT produces and the row a SELECT returns are functions of the statements sent so
   * far, fixed when the connection is made; `transaction` is `sn_db_transaction_check(false)`.
   */
  class Database {
    var log: seq<Stmt>
    var reports: seq<Diag>
    /** The objects in the order their `dbSave` was entered. */
    ghost var saved: seq<DBRow>
    const transaction: bool
    const accepts: seq<Stmt> -> bool
    const insertId: seq<Stmt> -> int
    const fetch: seq<Stmt> -> DbRowData

    constructor(transaction: bool, accepts: seq<Stmt> -> bool, insertId: seq<Stmt> -> int, fetch: seq<Stmt> -> DbRowData)
      ensures log == [] && reports == [] && saved == []
      ensures this.transaction == transaction && this.accepts == accepts
      ensures this.insertId == insertId && this.fetch == fetch
    {
      log := [];
      reports := [];
      saved := [];
      this.transaction := transaction;
      this.accepts := accepts;
      this.insertId := insertId;
      this.fetch := fetch;
    }

    /** `classSupernova::db_query` / `doquery`: sends a statement, says whether it succeeded. */
    method Query(s: Stmt) returns (ok: bool)
      modifies this
      ensures log == old(log) + [s] && ok == accepts(log)
      ensures reports == old(reports) && saved == old(saved)
    {
      log := log + [s];
      ok := accepts(log);
    }

    /** `doquery(..., true)`: sends a SELECT and returns the row it finds (empty: none). */
    method Fetch(s: Stmt) returns (row: DbRowData)
      modifies this
      ensures log == old(log) + [s] && row == fetch(log)
      ensures reports == old(reports) && saved == old(saved)
    {
      log := log + [s];
      row := fetch(log);
    }

    /** `db_insert_id()` after the last statement. */
    method LastInsertId() returns (id: int)
      ensures id == insertId(log)
    {
      id := insertId(log);
    }

    /** `classSupernova::$debug->error(...)`. */
    method Report(d: Diag)
      modifies this
      ensures reports == old(reports) + [d]
      ensures log == old(log) && saved == old(saved)
    {
      reports := reports + [d];
    }
  }

  /** The slot map `s` with `_dbId` set to `id`. */
  function WithId(s: Slots, id: int): Slots
  {
    s["dbId" := Int(id)]
  }

  /**
   * One persistent object. `scheme` is `static::$_properties`, `emptiness` the class's
   * `isEmpty()`, `dependents` the objects of `triggerDbOperationOn`; together with the
   * objects reachable through them they form the footprint `Repr`, a tree.
   */
  class DBRow {
    const scheme: Scheme
    const emptiness: Slots -> bool
    const dependents: seq<DBRow>
    ghost const Repr: set<DBRow>
    var slots: Slots
    var lockSkip: bool
    var changed: seq<string>
    var adjusted: map<string, int>

    ghost predicate Valid()
      decreases Repr
    {
      && this in Repr && WellFormed(scheme)
      && (forall i :: 0 <= i < |dependents| ==>
            && dependents[i] in Repr && dependents[i].Repr <= Repr && this !in dependents[i].Repr
            && dependents[i].Valid())
      && (forall i, j :: 0 <= i < j < |dependents| ==> dependents[i].Repr !! dependents[j].Repr)
    }

    /** The change-tracking state of the object as a value. */
    function Core(): RowCore
      reads this
    {
      RowCore(slots, lockSkip, changed, adjusted)
    }

    /** `isNew()`; an `empty()` id makes the object new. */
    predicate IsNew()
      reads this
      ensures IsEmpty(Lifecycle.DbId(Core())) ==> IsNew()
    {
      Lifecycle.IsNew(Core())
    }

    /** A new object with `_dbId` 0, the class's other defaults, and nothing changed. */
    constructor(scheme: Scheme, emptiness: Slots -> bool, defaults: Slots, dependents: seq<DBRow>)
      requires WellFormed(scheme)
      requires forall i :: 0 <= i < |dependents| ==> dependents[i].Valid()
      requires forall i, j :: 0 <= i < j < |dependents| ==> dependents[i].Repr !! dependents[j].Repr
      ensures Valid() && IsNew()
      ensures this.scheme == scheme && this.emptiness == emptiness && this.dependents == dependents
      ensures slots == WithId(defaults, 0) && !lockSkip && changed == [] && adjusted == map[]
    {
      this.scheme := scheme;
      this.emptiness := emptiness;
      this.dependents := dependents;
      forall i | 0 <= i < |dependents|
        ensures dependents[i].Repr <= ReprOf(dependents)
      {
        ReprOfCovers(dependents, i);
      }
      Repr := {this} + ReprOf(dependents);
      slots := WithId(defaults, 0);
      lockSkip := false;
      changed := [];
      adjusted := map[];
    }

    /** The get branch of `__call` for property `prop`; it changes nothing. */
    method CallGetter(prop: string, args: seq<Value>) returns (r: Result<Value, Error>)
      ensures r == CallGet(scheme, Core(), prop, args)
    {
      if !Declared(scheme, prop) {
        return Failure(PropertyNotExists(prop));
      }
      var d := Lookup(scheme, prop).value;
      if d.getter.Some? {
        return Success(d.getter.value(slots, args));
      }
      return Success(Slot(slots, prop));
    }

    /** The set branch of `__call` for property `prop`. */
    method CallSetter(prop: string, args: seq<Value>) returns (r: Result<Value, Error>)
      modifies this
      ensures (r, Core()) == CallSet(scheme, old(Core()), prop, args)
    {
      if !Declared(scheme, prop) {
        return Failure(PropertyNotExists(prop));
      }
      if Locked(adjusted, prop) {
        return Failure(PropertyAccess(prop));
      }
      changed := AddKey(changed, prop);
      var d := Lookup(scheme, prop).value;
      if d.setter.Some? {
        var (slots', v) := d.setter.value(slots, args);
        slots := slots';
        return Success(v);
      }
      slots := slots[prop := FirstArgument(args)];
      return Success(Null);
    }

    /** `__call($name, $arguments)`. */
    method Call(name: string, args: seq<Value>) returns (r: Result<Value, Error>)
      modifies this
      ensures (r, Core()) == Accessors.Call(scheme, old(Core()), name, args)
    {
      var left3 := CallPrefix(name);
      var prop := CallProperty(name);
      if left3 == "get" {
        r := CallGetter(prop, args);
      } else if left3 == "set" {
        r := CallSetter(prop, args);
      } else {
        r := Failure(PropertyNotExists(prop));
      }
    }

    /** `__get($p)`, as `$this->{$p}` inside the class; it changes nothing. */
    method Get(p: string) returns (r: Result<Value, Error>)
      ensures r == GetProperty(scheme, Core(), p)
      ensures r == Accessors.Call(scheme, Core(), GetterName(p), []).0
    {
      var name := GetterName(p);
      ForwardedProperty(p);
      r := CallGetter(CallProperty(name), []);
      PropertyAccessIsCall(scheme, Core(), p, Null);
    }

    /** `__set($p, $v)`, as `$this->{$p} = $v` inside the class. */
    method Set(p: string, v: Value) returns (r: Outcome<Error>)
      modifies this
      ensures Core() == SetProperty(scheme, old(Core()), p, v).1
      ensures r.Fail? <==> SetProperty(scheme, old(Core()), p, v).0.Failure?
      ensures r.Fail? ==> r.error == SetProperty(scheme, old(Core()), p, v).0.error
    {
      var name := SetterName(p);
      ForwardedProperty(p);
      var c := CallSetter(CallProperty(name), [v]);
      r := if c.Failure? then Fail(c.error) else Pass;
    }

    /** `dbMakeFieldSet($isUpdate)`; it changes nothing. */
    method MakeFieldSet(isUpdate: bool) returns (r: Result<FieldSet, Error>)
      ensures r == Materializer.MakeFieldSet(scheme, Core(), isUpdate)
    {
      var acc: FieldSet := [];
      var i := 0;
      while i < |scheme|
        invariant 0 <= i <= |scheme|
        invariant FieldSetUpTo(scheme, Core(), isUpdate, i) == Success(acc)
      {
        var name := scheme[i].0;
        var d := scheme[i].1;
        if d.inject.Some? {
          acc := d.inject.value(slots, acc);
        } else if d.field.Some? {
          var value: Value;
          if isUpdate && name in adjusted {
            value := Int(adjusted[name]);
          } else {
            var g := Get(name);
            if g.Failure? {
              FieldSetFailureSticks(scheme, Core(), isUpdate, i + 1, |scheme|);
              return Failure(g.error);
            }
            value := g.value;
          }
          if d.output.Some? {
            value := d.output.value(value);
          }
          if d.outputMethod.Some? {
            value := d.outputMethod.value(slots, value);
          }
          acc := PhpArrays.Put(acc, d.field.value, value);
        }
        i := i + 1;
      }
      return Success(acc);
    }

    /** `isFieldChanged($f)`: the changed property that owns field `f`, if any. */
    method IsFieldChanged(f: string) returns (r: Option<string>)
      ensures r == ChangedOwner(scheme, changed, f)
    {
      var k := 0;
      while k < |changed|
        invariant 0 <= k <= |changed|
        invariant forall j :: 0 <= j < k ==> !MapsTo(scheme, changed[j], f)
      {
        var p := changed[k];
        var ps := Lookup(scheme, p);
        if ps.Some? {
          var linked := ps.value.linked;
          var l := 0;
          while l < |linked|
            invariant 0 <= l <= |linked|
            invariant forall j :: 0 <= j < l ==> linked[j] != f
          {
            if linked[l] == f {
              ChangedOwnerFirst(scheme, changed, f, k);
              return Some(p);
            }
            l := l + 1;
          }
          if ps.value.field == Some(f) {
            ChangedOwnerFirst(scheme, changed, f, k);
            return Some(p);
          }
        }
        k := k + 1;
      }
      ChangedOwnerSpec(scheme, changed, f);
      return None;
    }

    /** `db_field_set_create($field_set)`: the INSERT, and the new id or 0 when it failed. */
    method FieldSetCreate(fs: FieldSet, db: Database) returns (id: int)
      modifies db
      ensures db.log == old(db.log) + [InsertOf(fs)]
      ensures id == if db.accepts(db.log) then db.insertId(db.log) else 0
      ensures db.reports == old(db.reports) && db.saved == old(db.saved)
    {
      id := 0;
      var ok := db.Query(InsertOf(fs));
      if ok {
        id := db.LastInsertId();
      }
    }

    /**
     * `db_field_update($field_set)`: the SET list of the changed fields, sent as an UPDATE
     * of this row unless it is empty (`implode` of rendered entries is empty only then).
     */
    method FieldUpdate(fs: FieldSet, db: Database) returns (ok: bool)
      modifies db
      ensures db.log == old(db.log) + Sent(UpdateOf(scheme, Core(), fs))
      ensures ok == (UpdateOf(scheme, Core(), fs).None? || db.accepts(db.log))
      ensures db.reports == old(db.reports) && db.saved == old(db.saved)
    {
      var items: seq<SetItem> := [];
      var i := 0;
      while i < |fs|
        invariant 0 <= i <= |fs|
        invariant items == SetClauseUpTo(scheme, Core(), fs, i)
        invariant db.log == old(db.log) && db.reports == old(db.reports) && db.saved == old(db.saved)
      {
        var item := SetItemOf(fs[i].0, fs[i].1);
        SetClauseUpToStep(scheme, Core(), fs, i, i + 1);
        if item.Some? {
          items := items + [item.value];
        }
        i := i + 1;
      }
      assert items == SetClause(scheme, Core(), fs);
      if items == [] {
        return true;
      }
      ok := db.Query(Statements.Update(items, Slot(slots, "dbId")));
    }

    /** The SET entry `db_field_update` makes for the field-set entry `f => v`, if any. */
    method SetItemOf(f: string, v: Value) returns (item: Option<SetItem>)
      ensures item == SetItemFor(scheme, Core(), f, v)
    {
      var owner := IsFieldChanged(f);
      if owner.None? || !IsTruthyName(owner.value) {
        return None;
      }
      if owner.value in adjusted {
        return Some(Increment(f, v));
      }
      return Some(Assign(f, v));
    }

    /** `dbInsert()`: inserts the field set and stores the id the database returned. */
    method Insert(db: Database) returns (r: Result<Value, Error>)
      modifies this, db
      ensures var fs := Materializer.MakeFieldSet(scheme, old(Core()), false);
        var pre := old(db.reports) + (if old(IsNew()) then [] else [InsertNotNew]);
        && (fs.Failure? ==> r == Failure(fs.error) && Core() == old(Core()) &&
                            db.log == old(db.log) && db.reports == pre)
        && (fs.Success? ==>
              var id := if db.accepts(db.log) then db.insertId(db.log) else 0;
              && db.log == old(db.log) + [InsertOf(fs.value)]
              && r == Success(Int(id))
              && Core() == old(Core()).(slots := WithId(old(slots), id))
              && db.reports == pre + (if id == 0 then [InsertFailed] else []))
      ensures db.saved == old(db.saved)
    {
      if !IsNew() {
        db.Report(InsertNotNew);
      }
      var fs := MakeFieldSet(false);
      if fs.Failure? {
        return Failure(fs.error);
      }
      var id := FieldSetCreate(fs.value, db);
      slots := WithId(slots, id);
      if IsEmpty(Int(id)) {
        db.Report(InsertFailed);
      }
      return Success(Int(id));
    }

    /** `dbUpdate()`: sends the changed fields of the field set built for an update. */
    method Update(db: Database) returns (r: Outcome<Error>)
      modifies db
      ensures var fs := Materializer.MakeFieldSet(scheme, Core(), true);
        var pre := old(db.reports) + (if IsNew() then [UpdateOnNew] else []);
        && db.reports == pre
        && (fs.Failure? ==> r == Fail(fs.error) && db.log == old(db.log))
        && (fs.Success? ==> r == Pass && db.log == old(db.log) + Sent(UpdateOf(scheme, Core(), fs.value)))
      ensures db.saved == old(db.saved)
    {
      if IsNew() {
        db.Report(UpdateOnNew);
      }
      var fs := MakeFieldSet(true);
      if fs.Failure? {
        return Fail(fs.error);
      }
      var _ := FieldUpdate(fs.value, db);
      return Pass;
    }

    /** `dbDelete()`: deletes the row and makes the object new again. */
    method Delete(db: Database)
      modifies this, db
      ensures db.log == old(db.log) + [Statements.Delete(old(Slot(slots, "dbId")))]
      ensures db.reports == old(db.reports) + (if old(IsNew()) then [DeleteOnNew] else [])
      ensures Core() == old(Core()).(slots := WithId(old(slots), 0)) && IsNew()
      ensures db.saved == old(db.saved)
    {
      if IsNew() {
        db.Report(DeleteOnNew);
      }
      var _ := db.Query(Statements.Delete(Slot(slots, "dbId")));
      slots := WithId(slots, 0);
    }

    /**
     * `dbRowParse($db_row)`. When it throws, the object keeps what the entries before the
     * throwing one did.
     */
    method RowParse(row: DbRowData) returns (r: Outcome<Error>)
      modifies this
      ensures var spec := Reconstruction.RowParse(scheme, old(Core()), row);
        && (spec.Success? ==> r == Pass && Core() == spec.value)
        && (spec.Failure? ==> r == Fail(spec.error))
      ensures r.Fail? ==>
                exists i :: (0 <= i < |scheme| &&
                  ParseUpTo(scheme, (old(Core()), row), i).Success? &&
                  ParseUpTo(scheme, (old(Core()), row), i).value.0 == Core() &&
                  ParseUpTo(scheme, (old(Core()), row), i + 1) == Failure(r.error))
      ensures lockSkip == old(lockSkip) && adjusted == old(adjusted)
    {
      var dbRow := row;
      var i := 0;
      while i < |scheme|
        invariant 0 <= i <= |scheme|
        invariant ParseUpTo(scheme, (old(Core()), row), i) == Success((Core(), dbRow))
      {
        r, dbRow := ParseEntry(scheme[i].0, scheme[i].1, dbRow);
        if r.Fail? {
          assert ParseUpTo(scheme, (old(Core()), row), i + 1) == Failure(r.error);
          assert ParseUpTo(scheme, (old(Core()), row), i).value.0 == Core();
          ParseFailureSticks(scheme, (old(Core()), row), i + 1, |scheme|);
          ParseKeepsDeltas(scheme, old(Core()), row, i);
          return;
        }
        i := i + 1;
      }
      ParseKeepsDeltas(scheme, old(Core()), row, |scheme|);
      return Pass;
    }

    /**
     * One iteration of the loop of `dbRowParse`: the entry `name => d` applied to the object
     * and the row, which an extract method may rewrite.
     */
    method ParseEntry(name: string, d: Descriptor, dbRow: DbRowData) returns (r: Outcome<Error>, dbRow': DbRowData)
      modifies this
      ensures var step := ParseStep(scheme, (old(Core()), dbRow), name, d);
        && (step.Success? ==> r == Pass && step.value == (Core(), dbRow'))
        && (step.Failure? ==> r == Fail(step.error) && Core() == old(Core()))
    {
      dbRow' := dbRow;
      r := Pass;
      if d.extract.Some? {
        var (slots', row') := d.extract.value(slots, dbRow);
        slots := slots';
        dbRow' := row';
      } else if !d.readOnly {
        var value := if d.field.Some? && d.field.value in dbRow && dbRow[d.field.value] != Null
                     then dbRow[d.field.value] else Null;
        if d.input.Some? {
          value := d.input.value(value);
        }
        if d.setMethod.Some? {
          slots := d.setMethod.value(slots, value);
        } else {
          r := Set(name, value);
        }
      }
    }

    /**
     * `dbLoad($dbId, $lockSkip)`: a non-positive id is reported and ignored; otherwise the
     * id and the lock flag are stored, the row is selected, and a row that was found is
     * parsed into the object, after which the lock flag is cleared again. An exception
     * from the parse leaves the lock flag set.
     */
    method Load(id: int, skip: bool, db: Database) returns (r: Outcome<Error>)
      modifies this, db
      ensures db.saved == old(db.saved)
      ensures id <= 0 ==>
        && r == Pass && Core() == old(Core()) && db.log == old(db.log)
        && db.reports == old(db.reports) + [LoadIdNotPositive(id)]
      ensures id > 0 ==>
        var start := old(Core()).(slots := WithId(old(slots), id), lockSkip := skip);
        var row := db.fetch(db.log);
        var parsed := Reconstruction.RowParse(scheme, start, row);
        && db.log == old(db.log) + [Select(Int(id))] && db.reports == old(db.reports)
        && (row == map[] ==> r == Pass && Core() == start)
        && (row != map[] && parsed.Success? ==> r == Pass && Core() == parsed.value.(lockSkip := false))
        && (row != map[] && parsed.Failure? ==> r == Fail(parsed.error) && lockSkip == skip)
    {
      if id <= 0 {
        db.Report(LoadIdNotPositive(id));
        return Pass;
      }
      slots := WithId(slots, id);
      lockSkip := skip;
      var row := db.Fetch(Select(Int(id)));
      if row == map[] {
        return Pass;
      }
      r := RowParse(row);
      if r.Fail? {
        return;
      }
      lockSkip := false;
    }

    /**
     * The objects `dbSave` visits, in order: this one, then the cascade of each dependent
     * of `triggerDbOperationOn` in turn.
     */
    ghost function Preorder(): seq<DBRow>
      requires Valid()
      decreases Repr, 1, 0
    {
      [this] + DepsPreorder(|dependents|)
    }

    /** The cascades of the first `k` dependents. */
    ghost function DepsPreorder(k: nat): seq<DBRow>
      requires Valid() && k <= |dependents|
      decreases Repr, 0, k
    {
      if k == 0 then [] else DepsPreorder(k - 1) + dependents[k - 1].Preorder()
    }

    /**
     * The row's own part of `dbSave()`: the reports, then `dbInsert`, `dbDelete` or
     * `dbUpdate` as `isNew()` and `isEmpty()` select.
     */
    method SaveOwn(db: Database) returns (r: Outcome<Error>)
      modifies this, db
      ensures db.saved == old(db.saved)
      ensures var own := OwnStatement(scheme, old(Core()), emptiness(old(slots)));
        var before := old(db.reports) + OwnReports(old(Core()), emptiness(old(slots)), db.transaction);
        && (own.Failure? ==>
              && r == Fail(own.error) && Core() == old(Core())
              && db.log == old(db.log) && db.reports == before)
        && (own.Success? ==>
              && r == Pass && db.log == old(db.log) + Sent(own.value) && before <= db.reports
              && Core() == old(Core()).(slots := SlotsAfterSave(old(Core()), emptiness(old(slots)),
                                                               InsertedId(db, db.log))))
    {
      var empty := emptiness(slots);
      if IsNew() {
        if empty {
          db.Report(EmptyOnInsert);
        }
        var o := Insert(db);
        if o.Failure? {
          return Fail(o.error);
        }
      } else if empty {
        Delete(db);
      } else {
        if !db.transaction {
          db.Report(NoTransaction);
        }
        r := Update(db);
        if r.Fail? {
          return;
        }
      }
      return Pass;
    }

    /**
     * `dbSave()`: the row's own insert, delete or update, then `dbSave` of every
     * dependent in order, then propertiesChanged and propertiesAdjusted are cleared. An
     * exception stops the whole save where it is thrown: nothing is cleared and the
     * remaining dependents are not saved.
     */
    method Save(db: Database) returns (r: Outcome<Error>)
      requires Valid()
      modifies Repr, db
      decreases Repr, 2
      ensures old(db.log) <= db.log && old(db.reports) <= db.reports && old(db.saved) + [this] <= db.saved
      ensures var own := OwnStatement(scheme, old(Core()), emptiness(old(slots)));
        var before := old(db.reports) + OwnReports(old(Core()), emptiness(old(slots)), db.transaction);
        && (own.Failure? ==>
              && r == Fail(own.error) && Core() == old(Core())
              && db.log == old(db.log) && db.reports == before && db.saved == old(db.saved) + [this])
        && (own.Success? ==>
              && old(db.log) + Sent(own.value) <= db.log && before <= db.reports
              && slots == SlotsAfterSave(old(Core()), emptiness(old(slots)),
                                         InsertedId(db, old(db.log) + Sent(own.value))))
      ensures lockSkip == old(lockSkip)
      ensures r.Pass? ==> changed == [] && adjusted == map[] && db.saved == old(db.saved) + Preorder()
      ensures r.Fail? ==> changed == old(changed) && adjusted == old(adjusted)
    {
      db.saved := db.saved + [this];
      r := SaveOwn(db);
      if r.Fail? {
        return;
      }
      r := Cascade(db);
      if r.Pass? {
        ConcatAssoc(old(db.saved), [this], DepsPreorder(|dependents|));
      }
    }

    /**
     * The rest of `dbSave()` once the row itself is saved: the dependents, then the
     * clearing of propertiesChanged and propertiesAdjusted.
     */
    method Cascade(db: Database) returns (r: Outcome<Error>)
      requires Valid()
      modifies Repr, db
      decreases Repr, 1
      ensures old(db.log) <= db.log && old(db.reports) <= db.reports
      ensures slots == old(slots) && lockSkip == old(lockSkip)
      ensures r.Pass? ==> changed == [] && adjusted == map[] && db.saved == old(db.saved) + DepsPreorder(|dependents|)
      ensures r.Fail? ==> changed == old(changed) && adjusted == old(adjusted) && old(db.saved) <= db.saved
    {
      ReprOfExcludes(dependents, this);
      ReprOfWithin(dependents, Repr);
      r := SaveDependents(db);
      if r.Fail? {
        return;
      }
      changed := [];
      adjusted := map[];
    }

    /** `$item->dbSave()` for one dependent, seen from the cascade: what it does to the tree. */
    method SaveAsDependent(db: Database) returns (r: Outcome<Error>)
      requires Valid()
      modifies Repr, db
      decreases Repr, 3
      ensures old(db.log) <= db.log && old(db.reports) <= db.reports && old(db.saved) <= db.saved
      ensures r.Pass? ==> changed == [] && adjusted == map[] && db.saved == old(db.saved) + Preorder()
    {
      r := Save(db);
    }

    /** The `foreach` over `triggerDbOperationOn` in `dbSave()`, stopped by an exception. */
    method SaveDependents(db: Database) returns (r: Outcome<Error>)
      requires Valid()
      modifies ReprOf(dependents), db
      decreases Repr, 0
      ensures old(db.log) <= db.log && old(db.reports) <= db.reports && old(db.saved) <= db.saved
      ensures r.Pass? ==> db.saved == old(db.saved) + DepsPreorder(|dependents|)
    {
      var k := 0;
      while k < |dependents|
        invariant 0 <= k <= |dependents|
        invariant old(db.log) <= db.log && old(db.reports) <= db.reports
        invariant db.saved == old(db.saved) + DepsPreorder(k)
      {
        ghost var before := db.saved;
        ReprOfCovers(dependents, k);
        var o := dependents[k].SaveAsDependent(db);
        if o.Fail? {
          assert old(db.saved) <= before <= db.saved;
          return o;
        }
        assert db.saved == before + dependents[k].Preorder();
        assert DepsPreorder(k + 1) == DepsPreorder(k) + dependents[k].Preorder();
        ConcatAssoc(old(db.saved), DepsPreorder(k), dependents[k].Preorder());
        k := k + 1;
      }
      return Pass;
    }
  }

  /** The id `db_field_set_create` returns once `sent` has been sent: 0 when it failed. */
  function InsertedId(db: Database, sent: seq<Stmt>): int
  {
    if db.accepts(sent) then db.insertId(sent) else 0
  }

  /** The union of the footprints of a list of objects. */
  ghost function ReprOf(rows: seq<DBRow>): set<DBRow>
  {
    if rows == [] then {} else rows[0].Repr + ReprOf(rows[1..])
  }

  /** Each footprint of the list lies in the union. */
  lemma {:induction false} ReprOfCovers(rows: seq<DBRow>, k: nat)
    requires k < |rows|
    ensures rows[k].Repr <= ReprOf(rows)
  {
    if k > 0 {
      assert rows[1..][k - 1] == rows[k];
      ReprOfCovers(rows[1..], k - 1);
    }
  }

  lemma ConcatAssoc<T>(a: seq<T>, b: seq<T>, c: seq<T>)
    ensures (a + b) + c == a + (b + c)
  {
  }

  /** The union of footprints that all lie in `s` lies in `s`. */
  lemma {:induction false} ReprOfWithin(rows: seq<DBRow>, s: set<DBRow>)
    requires forall i :: 0 <= i < |rows| ==> rows[i].Repr <= s
    ensures ReprOf(rows) <= s
  {
    if rows != [] {
      assert forall i :: 0 <= i < |rows[1..]| ==> rows[1..][i] == rows[i + 1];
      ReprOfWithin(rows[1..], s);
    }
  }

  /** An object outside every footprint of a list is outside their union. */
  lemma {:induction false} ReprOfExcludes(rows: seq<DBRow>, x: DBRow)
    requires forall i :: 0 <= i < |rows| ==> x !in rows[i].Repr
    ensures x !in ReprOf(rows)
  {
    if rows != [] {
      assert forall i :: 0 <= i < |rows[1..]| ==> rows[1..][i] == rows[i + 1];
      ReprOfExcludes(rows[1..], x);
    }
  }
}
