/**
 * The SQL materialiser of DBRow: `dbMakeFieldSet` (the `field => value` array built in
 * scheme order), `isFieldChanged` (which changed property owns a field) and the SET list
 * of `db_field_update`.
 */
module Materializer {
  import opened Wrappers
  import opened PhpValues
  import PhpArrays
  import opened PropertyScheme
  import opened Accessors
  import opened Statements

  /** The output function (P_FUNC_OUTPUT), then the output method (P_METHOD_OUTPUT). */
  function ApplyOutputs(d: Descriptor, slots: Slots, v: Value): Value
  {
    var v1 := if d.output.Some? then d.output.value(v) else v;
    if d.outputMethod.Some? then d.outputMethod.value(slots, v1) else v1
  }

  /** On update a property with an entry in propertiesAdjusted contributes its delta (line 389). */
  predicate TakesDelta(core: RowCore, isUpdate: bool, name: string)
  {
    isUpdate && name in core.adjusted
  }

  /** The value a property with a field contributes, before it is stored under that field. */
  function FieldValue(scheme: Scheme, core: RowCore, isUpdate: bool, name: string, d: Descriptor): Result<Value, Error>
  {
    if TakesDelta(core, isUpdate, name) then Success(ApplyOutputs(d, core.slots, Int(core.adjusted[name])))
    else
      match GetProperty(scheme, core, name)
      case Failure(e) => Failure(e)
      case Success(v) => Success(ApplyOutputs(d, core.slots, v))
  }

  /** One iteration of the loop of `dbMakeFieldSet`. */
  function FieldSetStep(scheme: Scheme, core: RowCore, isUpdate: bool, acc: FieldSet, name: string, d: Descriptor): Result<FieldSet, Error>
  {
    if d.inject.Some? then Success(d.inject.value(core.slots, acc))
    else if d.field.None? then Success(acc)
    else
      match FieldValue(scheme, core, isUpdate, name, d)
      case Failure(e) => Failure(e)
      case Success(v) => Success(PhpArrays.Put(acc, d.field.value, v))
  }

  /** The field set after the first `n` scheme entries; a thrown exception ends the loop. */
  function FieldSetUpTo(scheme: Scheme, core: RowCore, isUpdate: bool, n: nat): Result<FieldSet, Error>
    requires n <= |scheme|
  {
    if n == 0 then Success([])
    else
      match FieldSetUpTo(scheme, core, isUpdate, n - 1)
      case Failure(e) => Failure(e)
      case Success(acc) => FieldSetStep(scheme, core, isUpdate, acc, scheme[n - 1].0, scheme[n - 1].1)
  }

  /**
   * `dbMakeFieldSet($isUpdate)`. Without injectors, a field set it returns names each
   * declared field once, in the order the fields first appear in the scheme.
   */
  function MakeFieldSet(scheme: Scheme, core: RowCore, isUpdate: bool): (r: Result<FieldSet, Error>)
    ensures r.Success? && NoInjector(scheme) ==>
              PhpArrays.Keys(r.value) == FieldOrder(scheme, |scheme|) && PhpArrays.UniqueKeys(r.value)
  {
    var r := FieldSetUpTo(scheme, core, isUpdate, |scheme|);
    if r.Success? && NoInjector(scheme) then FieldSetShape(scheme, core, isUpdate, |scheme|); r else r
  }

  /** An exception thrown by entry `i` is the exception of the whole loop. */
  lemma {:induction false} FieldSetFailureSticks(scheme: Scheme, core: RowCore, isUpdate: bool, i: nat, n: nat)
    requires i <= n <= |scheme| && FieldSetUpTo(scheme, core, isUpdate, i).Failure?
    ensures FieldSetUpTo(scheme, core, isUpdate, n) == FieldSetUpTo(scheme, core, isUpdate, i)
  {
    if n > i {
      FieldSetFailureSticks(scheme, core, isUpdate, i, n - 1);
    }
  }

  predicate NoInjector(scheme: Scheme)
  {
    forall i :: 0 <= i < |scheme| ==> scheme[i].1.inject.None?
  }

  /** The fields of the first `n` entries, each at the position of its first occurrence. */
  function FieldOrder(scheme: Scheme, n: nat): (r: seq<string>)
    requires n <= |scheme|
    ensures forall f :: f in r <==> exists i :: 0 <= i < n && scheme[i].1.field == Some(f)
  {
    if n == 0 then []
    else
      var prev := FieldOrder(scheme, n - 1);
      match scheme[n - 1].1.field
      case None => prev
      case Some(f) => AddKey(prev, f)
  }

  /** Entry `i` is the last of the first `n` entries that names its field. */
  predicate LastForField(scheme: Scheme, n: nat, i: nat)
    requires i < n <= |scheme|
  {
    forall j :: i < j < n ==> scheme[j].1.field != scheme[i].1.field
  }

  /**
   * Without injectors, the field set holds each declared field once, in the order the
   * fields first appear in the scheme (read-only properties included), and the value under
   * a field comes from the last property that names it: its delta on update when it is
   * adjusted, its getter value otherwise, through the output function and method.
   */
  lemma {:induction false} FieldSetShape(scheme: Scheme, core: RowCore, isUpdate: bool, n: nat)
    requires n <= |scheme| && NoInjector(scheme)
    requires FieldSetUpTo(scheme, core, isUpdate, n).Success?
    ensures Shaped(scheme, core, isUpdate, n, FieldSetUpTo(scheme, core, isUpdate, n).value)
  {
    if n > 0 {
      FieldSetPrefixSucceeds(scheme, core, isUpdate, n);
      FieldSetShape(scheme, core, isUpdate, n - 1);
      FieldSetShapeStep(scheme, core, isUpdate, n - 1, n,
        FieldSetUpTo(scheme, core, isUpdate, n - 1).value, FieldSetUpTo(scheme, core, isUpdate, n).value);
    }
  }

  /** The step of FieldSetShape: entry `m` keeps the shape. */
  lemma FieldSetShapeStep(scheme: Scheme, core: RowCore, isUpdate: bool, m: nat, n: nat, acc: FieldSet, fs: FieldSet)
    requires n == m + 1 && n <= |scheme| && scheme[m].1.inject.None?
    requires FieldSetUpTo(scheme, core, isUpdate, m) == Success(acc)
    requires FieldSetUpTo(scheme, core, isUpdate, n) == Success(fs)
    requires Shaped(scheme, core, isUpdate, m, acc)
    ensures Shaped(scheme, core, isUpdate, n, fs)
  {
    if scheme[m].1.field.Some? {
      var v := FieldSetGrows(scheme, core, isUpdate, m, n);
      ShapePut(scheme, core, isUpdate, m, n, acc, v, fs);
    } else {
      FieldSetSkips(scheme, core, isUpdate, m, n);
      ShapeSkip(scheme, core, isUpdate, m, n, acc, fs);
    }
  }

  /**
   * Entry `i` contributes no field, or the field set `fs` holds under its field the value
   * it computes.
   */
  predicate HoldsValueOf(scheme: Scheme, core: RowCore, isUpdate: bool, fs: FieldSet, i: nat)
    requires i < |scheme|
  {
    scheme[i].1.field.Some? ==>
      FieldValue(scheme, core, isUpdate, scheme[i].0, scheme[i].1).Success? &&
      PhpArrays.Get(fs, scheme[i].1.field.value) == Some(FieldValue(scheme, core, isUpdate, scheme[i].0, scheme[i].1).value)
  }

  /** A field set that was built means every shorter prefix was built too. */
  lemma FieldSetPrefixSucceeds(scheme: Scheme, core: RowCore, isUpdate: bool, n: nat)
    requires 0 < n <= |scheme|
    requires FieldSetUpTo(scheme, core, isUpdate, n).Success?
    ensures FieldSetUpTo(scheme, core, isUpdate, n - 1).Success?
  {
  }

  /** An entry with a field and no injector stores its computed value under that field. */
  lemma FieldSetGrows(scheme: Scheme, core: RowCore, isUpdate: bool, m: nat, n: nat) returns (v: Value)
    requires n == m + 1 && n <= |scheme| && scheme[m].1.inject.None? && scheme[m].1.field.Some?
    requires FieldSetUpTo(scheme, core, isUpdate, n).Success?
    ensures FieldSetUpTo(scheme, core, isUpdate, m).Success?
    ensures FieldValue(scheme, core, isUpdate, scheme[m].0, scheme[m].1) == Success(v)
    ensures FieldSetUpTo(scheme, core, isUpdate, n)
            == Success(PhpArrays.Put(FieldSetUpTo(scheme, core, isUpdate, m).value, scheme[m].1.field.value, v))
  {
    v := FieldValue(scheme, core, isUpdate, scheme[m].0, scheme[m].1).value;
  }

  /** The shape facts of FieldSetShape for the field set `acc` of the first `n` entries. */
  ghost predicate Shaped(scheme: Scheme, core: RowCore, isUpdate: bool, n: nat, acc: FieldSet)
    requires n <= |scheme|
  {
    && PhpArrays.Keys(acc) == FieldOrder(scheme, n)
    && PhpArrays.UniqueKeys(acc)
    && forall i :: 0 <= i < n && LastForField(scheme, n, i) ==> HoldsValueOf(scheme, core, isUpdate, acc, i)
  }

  /** Storing the value of entry `m` under its field keeps the shape. */
  lemma ShapePut(scheme: Scheme, core: RowCore, isUpdate: bool, m: nat, n: nat, acc: FieldSet, v: Value, fs: FieldSet)
    requires n == m + 1 && n <= |scheme| && scheme[m].1.field.Some?
    requires FieldValue(scheme, core, isUpdate, scheme[m].0, scheme[m].1) == Success(v)
    requires Shaped(scheme, core, isUpdate, m, acc)
    requires fs == PhpArrays.Put(acc, scheme[m].1.field.value, v)
    ensures Shaped(scheme, core, isUpdate, n, fs)
  {
    ShapePutKeys(scheme, m, n, acc, v, fs);
    ShapePutValues(scheme, core, isUpdate, m, n, acc, v, fs);
  }

  /** The keys after storing entry `m` are the field order of the first `n` entries. */
  lemma ShapePutKeys(scheme: Scheme, m: nat, n: nat, acc: FieldSet, v: Value, fs: FieldSet)
    requires n == m + 1 && n <= |scheme| && scheme[m].1.field.Some?
    requires PhpArrays.Keys(acc) == FieldOrder(scheme, m) && PhpArrays.UniqueKeys(acc)
    requires fs == PhpArrays.Put(acc, scheme[m].1.field.value, v)
    ensures PhpArrays.Keys(fs) == FieldOrder(scheme, n) && PhpArrays.UniqueKeys(fs)
  {
    var f := scheme[m].1.field.value;
    PhpArrays.PutKeys(acc, f, v);
    PhpArrays.PutUnique(acc, f, v);
  }

  /** Every last entry for its field still finds its value after storing entry `m`. */
  lemma ShapePutValues(scheme: Scheme, core: RowCore, isUpdate: bool, m: nat, n: nat, acc: FieldSet, v: Value, fs: FieldSet)
    requires n == m + 1 && n <= |scheme| && scheme[m].1.field.Some?
    requires FieldValue(scheme, core, isUpdate, scheme[m].0, scheme[m].1) == Success(v)
    requires forall i :: 0 <= i < m && LastForField(scheme, m, i) ==> HoldsValueOf(scheme, core, isUpdate, acc, i)
    requires fs == PhpArrays.Put(acc, scheme[m].1.field.value, v)
    ensures forall i :: 0 <= i < n && LastForField(scheme, n, i) ==> HoldsValueOf(scheme, core, isUpdate, fs, i)
  {
    var f := scheme[m].1.field.value;
    forall i | 0 <= i < n && LastForField(scheme, n, i)
      ensures HoldsValueOf(scheme, core, isUpdate, fs, i)
    {
      if scheme[i].1.field.Some? {
        var g := scheme[i].1.field.value;
        PhpArrays.GetPut(acc, f, v, g);
        if i < m {
          assert LastForField(scheme, m, i);
          assert HoldsValueOf(scheme, core, isUpdate, acc, i);
          assert g != f;
          assert PhpArrays.Get(fs, g) == PhpArrays.Get(acc, g);
        } else {
          assert i == m;
          assert PhpArrays.Get(fs, g) == Some(v);
        }
      }
    }
  }

  /** An entry without a field and without an injector leaves the field set as it is. */
  lemma FieldSetSkips(scheme: Scheme, core: RowCore, isUpdate: bool, m: nat, n: nat)
    requires n == m + 1 && n <= |scheme| && scheme[m].1.field.None? && scheme[m].1.inject.None?
    ensures FieldSetUpTo(scheme, core, isUpdate, n) == FieldSetUpTo(scheme, core, isUpdate, m)
  {
    var prev := FieldSetUpTo(scheme, core, isUpdate, m);
    if prev.Success? {
      assert FieldSetStep(scheme, core, isUpdate, prev.value, scheme[m].0, scheme[m].1) == prev;
    }
  }

  /** The shape facts carry over an entry without a field. */
  lemma ShapeSkip(scheme: Scheme, core: RowCore, isUpdate: bool, m: nat, n: nat, acc: FieldSet, fs: FieldSet)
    requires n == m + 1 && n <= |scheme| && scheme[m].1.field.None?
    requires Shaped(scheme, core, isUpdate, m, acc) && fs == acc
    ensures Shaped(scheme, core, isUpdate, n, fs)
  {
    forall i | 0 <= i < n && LastForField(scheme, n, i)
      ensures HoldsValueOf(scheme, core, isUpdate, acc, i)
    {
      if i < m {
        assert LastForField(scheme, m, i);
        assert HoldsValueOf(scheme, core, isUpdate, acc, i);
      } else {
        assert scheme[i].1.field.None?;
      }
    }
  }

  /**
   * `dbMakeFieldSet` throws only when a getter cannot be resolved: if no property with a
   * field begins with an upper-case letter, it always produces a field set.
   */
  lemma {:induction false} FieldSetSucceeds(scheme: Scheme, core: RowCore, isUpdate: bool, n: nat)
    requires n <= |scheme| && WellFormed(scheme)
    requires forall i :: 0 <= i < |scheme| && scheme[i].1.field.Some? ==> !StartsUpper(scheme[i].0)
    ensures FieldSetUpTo(scheme, core, isUpdate, n).Success?
  {
    if n > 0 {
      FieldSetSucceeds(scheme, core, isUpdate, n - 1);
      var name := scheme[n - 1].0;
      var d := scheme[n - 1].1;
      if d.inject.None? && d.field.Some? && !TakesDelta(core, isUpdate, name) {
        assert !StartsUpper(name);
        LcfirstUcfirst(name);
        DeclaredWithField(scheme, n - 1);
        GetterValueSucceeds(scheme, core, isUpdate, n - 1);
      }
    }
  }

  /** A property that carries a field is declared. */
  lemma DeclaredWithField(scheme: Scheme, i: nat)
    requires i < |scheme| && WellFormed(scheme) && scheme[i].1.field.Some?
    ensures Declared(scheme, scheme[i].0)
  {
    LookupAt(scheme, i);
  }

  /** A declared getter yields a value, and the field set grows by it. */
  lemma GetterValueSucceeds(scheme: Scheme, core: RowCore, isUpdate: bool, i: nat)
    requires i < |scheme|
    requires FieldSetUpTo(scheme, core, isUpdate, i).Success?
    requires scheme[i].1.inject.None? && scheme[i].1.field.Some? && !TakesDelta(core, isUpdate, scheme[i].0)
    requires Declared(scheme, Lcfirst(Ucfirst(scheme[i].0)))
    ensures FieldSetUpTo(scheme, core, isUpdate, i + 1).Success?
  {
    assert FieldValue(scheme, core, isUpdate, scheme[i].0, scheme[i].1).Success?;
  }

  /** For an insert the pending deltas make no difference to the field set. */
  lemma InsertIgnoresDeltas(scheme: Scheme, core: RowCore, adjusted: map<string, int>, n: nat)
    requires n <= |scheme|
    ensures FieldSetUpTo(scheme, core, false, n) == FieldSetUpTo(scheme, core.(adjusted := adjusted), false, n)
  {
    InsertPrefixIgnoresDeltas(scheme, core, core.(adjusted := adjusted), n);
  }

  /** Two states that differ at most in propertiesAdjusted. */
  predicate SameButDeltas(c1: RowCore, c2: RowCore)
  {
    c1.slots == c2.slots && c1.lockSkip == c2.lockSkip && c1.changed == c2.changed
  }

  /** The insert field set of two states that differ only in their deltas is the same. */
  lemma {:induction false} InsertPrefixIgnoresDeltas(scheme: Scheme, c1: RowCore, c2: RowCore, n: nat)
    requires n <= |scheme| && SameButDeltas(c1, c2)
    ensures FieldSetUpTo(scheme, c1, false, n) == FieldSetUpTo(scheme, c2, false, n)
  {
    if n > 0 {
      InsertPrefixIgnoresDeltas(scheme, c1, c2, n - 1);
      InsertStepIgnoresDeltas(scheme, c1, c2, n - 1, n);
    }
  }

  /** The step of InsertPrefixIgnoresDeltas: equal prefixes grow alike. */
  lemma InsertStepIgnoresDeltas(scheme: Scheme, c1: RowCore, c2: RowCore, m: nat, n: nat)
    requires n == m + 1 && n <= |scheme| && SameButDeltas(c1, c2)
    requires FieldSetUpTo(scheme, c1, false, m) == FieldSetUpTo(scheme, c2, false, m)
    ensures FieldSetUpTo(scheme, c1, false, n) == FieldSetUpTo(scheme, c2, false, n)
  {
    var prev := FieldSetUpTo(scheme, c1, false, m);
    FieldSetUpToNext(scheme, c1, false, m, n, prev);
    FieldSetUpToNext(scheme, c2, false, m, n, prev);
    if prev.Success? {
      StepIgnoresDeltas(scheme, c1, c2, prev.value, scheme[m].0, scheme[m].1);
    }
  }

  /** One more entry of the loop of `dbMakeFieldSet`, after the prefix result `prev`. */
  lemma FieldSetUpToNext(scheme: Scheme, core: RowCore, isUpdate: bool, m: nat, n: nat, prev: Result<FieldSet, Error>)
    requires n == m + 1 && n <= |scheme| && FieldSetUpTo(scheme, core, isUpdate, m) == prev
    ensures FieldSetUpTo(scheme, core, isUpdate, n)
            == if prev.Failure? then prev else FieldSetStep(scheme, core, isUpdate, prev.value, scheme[m].0, scheme[m].1)
  {
  }

  /** One step of an insert does not read the deltas. */
  lemma StepIgnoresDeltas(scheme: Scheme, c1: RowCore, c2: RowCore, acc: FieldSet, name: string, d: Descriptor)
    requires SameButDeltas(c1, c2)
    ensures FieldSetStep(scheme, c1, false, acc, name, d) == FieldSetStep(scheme, c2, false, acc, name, d)
  {
    assert GetProperty(scheme, c1, name) == GetProperty(scheme, c2, name);
  }

  /** Property `p` names field `f` directly or among its linked fields. */
  predicate MapsTo(scheme: Scheme, p: string, f: string)
  {
    Lookup(scheme, p).Some? &&
    (f in Lookup(scheme, p).value.linked || Lookup(scheme, p).value.field == Some(f))
  }

  /**
   * `isFieldChanged($f)`: the first property of propertiesChanged that names `f`, by its
   * linked fields or by P_DB_FIELD. propertiesAdjusted is not consulted.
   */
  function ChangedOwner(scheme: Scheme, changed: seq<string>, f: string): (r: Option<string>)
    ensures r.Some? ==> r.value in changed && MapsTo(scheme, r.value, f)
  {
    if changed == [] then None
    else if MapsTo(scheme, changed[0], f) then Some(changed[0])
    else ChangedOwner(scheme, changed[1..], f)
  }

  /**
   * The owner is the first changed property that names `f`, and there is none exactly
   * when no changed property names it.
   */
  lemma {:induction false} ChangedOwnerSpec(scheme: Scheme, changed: seq<string>, f: string)
    ensures var r := ChangedOwner(scheme, changed, f);
      && (r.None? <==> forall i :: 0 <= i < |changed| ==> !MapsTo(scheme, changed[i], f))
      && (r.Some? ==> exists i :: 0 <= i < |changed| && changed[i] == r.value &&
                        MapsTo(scheme, r.value, f) && (forall j :: 0 <= j < i ==> !MapsTo(scheme, changed[j], f)))
  {
    if changed != [] && !MapsTo(scheme, changed[0], f) {
      ChangedOwnerSpec(scheme, changed[1..], f);
      assert forall i :: 1 <= i < |changed| ==> changed[i] == changed[1..][i - 1];
      var r := ChangedOwner(scheme, changed, f);
      if r.Some? {
        var i :| 0 <= i < |changed[1..]| && changed[1..][i] == r.value &&
                 MapsTo(scheme, r.value, f) && (forall j :: 0 <= j < i ==> !MapsTo(scheme, changed[1..][j], f));
        assert changed[i + 1] == r.value;
      }
    }
  }

  /** The first changed property that names `f` is the owner `isFieldChanged` reports. */
  lemma {:induction false} ChangedOwnerFirst(scheme: Scheme, changed: seq<string>, f: string, k: nat)
    requires k < |changed| && MapsTo(scheme, changed[k], f)
    requires forall j :: 0 <= j < k ==> !MapsTo(scheme, changed[j], f)
    ensures ChangedOwner(scheme, changed, f) == Some(changed[k])
  {
    if k > 0 {
      assert !MapsTo(scheme, changed[0], f);
      assert changed[1..][k - 1] == changed[k];
      ChangedOwnerFirst(scheme, changed[1..], f, k - 1);
    }
  }

  /** A property name PHP treats as true (`if(!($p = ...)) continue;` skips "" and "0"). */
  predicate IsTruthyName(p: string)
  {
    p != "" && p != "0"
  }

  /** The SET entry `db_field_update` makes of the field-set entry `f => v`, if any. */
  function SetItemFor(scheme: Scheme, core: RowCore, f: string, v: Value): Option<SetItem>
  {
    var owner := ChangedOwner(scheme, core.changed, f);
    if owner.None? || !IsTruthyName(owner.value) then None
    else if owner.value in core.adjusted then Some(Increment(f, v))
    else Some(Assign(f, v))
  }

  /** The SET list built from the first `n` entries of the field set. */
  function SetClauseUpTo(scheme: Scheme, core: RowCore, fs: FieldSet, n: nat): (r: seq<SetItem>)
    requires n <= |fs|
    ensures |r| <= n
  {
    if n == 0 then []
    else
      var prev := SetClauseUpTo(scheme, core, fs, n - 1);
      match SetItemFor(scheme, core, fs[n - 1].0, fs[n - 1].1)
      case None => prev
      case Some(item) => prev + [item]
  }

  /** The SET list grows by the entry that field-set entry `m` produces, if any. */
  lemma SetClauseUpToStep(scheme: Scheme, core: RowCore, fs: FieldSet, m: nat, n: nat)
    requires n == m + 1 && n <= |fs|
    ensures var item := SetItemFor(scheme, core, fs[m].0, fs[m].1);
      SetClauseUpTo(scheme, core, fs, n)
      == SetClauseUpTo(scheme, core, fs, m) + (if item.Some? then [item.value] else [])
  {
  }

  /**
   * The SET list of the first `n` entries lists the items of the entries that produce one,
   * in field-set order: `idx` gives, for each item, the strictly increasing position of the
   * entry it comes from, and every producing entry has its position in `idx`.
   */
  lemma {:induction false} SetClauseUpToOrigins(scheme: Scheme, core: RowCore, fs: FieldSet, n: nat) returns (idx: seq<nat>)
    requires n <= |fs|
    ensures Origins(scheme, core, fs, n, SetClauseUpTo(scheme, core, fs, n), idx)
  {
    if n == 0 {
      idx := [];
    } else {
      var prev := SetClauseUpToOrigins(scheme, core, fs, n - 1);
      SetClauseUpToStep(scheme, core, fs, n - 1, n);
      idx := OriginsStep(scheme, core, fs, n - 1, n, SetClauseUpTo(scheme, core, fs, n - 1), SetClauseUpTo(scheme, core, fs, n), prev);
    }
  }

  /** `idx` gives the strictly increasing origins of the items `r` among the first `n` entries. */
  ghost predicate Origins(scheme: Scheme, core: RowCore, fs: FieldSet, n: nat, r: seq<SetItem>, idx: seq<nat>)
    requires n <= |fs|
  {
    && |idx| == |r|
    && (forall k :: 0 <= k < |idx| ==> idx[k] < n && SetItemFor(scheme, core, fs[idx[k]].0, fs[idx[k]].1) == Some(r[k]))
    && (forall k, k' :: 0 <= k < k' < |idx| ==> idx[k] < idx[k'])
    && (forall i :: 0 <= i < n && SetItemFor(scheme, core, fs[i].0, fs[i].1).Some? ==> i in idx)
  }

  /** The step of SetClauseUpToOrigins: entry `m` adds its position when it produces an item. */
  lemma OriginsStep(scheme: Scheme, core: RowCore, fs: FieldSet, m: nat, n: nat, rp: seq<SetItem>, r: seq<SetItem>, prev: seq<nat>)
    returns (idx: seq<nat>)
    requires n == m + 1 && n <= |fs|
    requires Origins(scheme, core, fs, m, rp, prev)
    requires var item := SetItemFor(scheme, core, fs[m].0, fs[m].1);
      r == rp + (if item.Some? then [item.value] else [])
    ensures Origins(scheme, core, fs, n, r, idx)
  {
    if SetItemFor(scheme, core, fs[m].0, fs[m].1).Some? {
      idx := prev + [m];
    } else {
      idx := prev;
    }
  }

  /** Two items of the SET list come from field-set entries in the same order. */
  lemma SetClauseOrdered(scheme: Scheme, core: RowCore, fs: FieldSet, k: nat, k': nat)
    requires k < k' < |SetClause(scheme, core, fs)|
    ensures exists i, i' :: 0 <= i < i' < |fs| &&
              SetItemFor(scheme, core, fs[i].0, fs[i].1) == Some(SetClause(scheme, core, fs)[k]) &&
              SetItemFor(scheme, core, fs[i'].0, fs[i'].1) == Some(SetClause(scheme, core, fs)[k'])
  {
    var idx := SetClauseUpToOrigins(scheme, core, fs, |fs|);
    assert idx[k] < idx[k'];
  }

  /**
   * The SET list of the first `n` entries holds exactly the entries their fields produce:
   * each of its items comes from one of them, and each of them that produces one is in it.
   */
  lemma {:induction false} SetClauseUpToEntries(scheme: Scheme, core: RowCore, fs: FieldSet, n: nat)
    requires n <= |fs|
    ensures var r := SetClauseUpTo(scheme, core, fs, n);
      forall k :: 0 <= k < |r| ==> exists i :: 0 <= i < n && SetItemFor(scheme, core, fs[i].0, fs[i].1) == Some(r[k])
    ensures var r := SetClauseUpTo(scheme, core, fs, n);
      forall i :: 0 <= i < n && SetItemFor(scheme, core, fs[i].0, fs[i].1).Some? ==>
        SetItemFor(scheme, core, fs[i].0, fs[i].1).value in r
  {
    if n > 0 {
      SetClauseUpToEntries(scheme, core, fs, n - 1);
    }
  }

  /** The SET list of `db_field_update($field_set)`. */
  function SetClause(scheme: Scheme, core: RowCore, fs: FieldSet): seq<SetItem>
  {
    SetClauseUpTo(scheme, core, fs, |fs|)
  }

  /** An entry of the field set whose owner is a changed, truthy property is in the SET list. */
  lemma SetClauseHasEntry(scheme: Scheme, core: RowCore, fs: FieldSet, i: nat)
    requires i < |fs| && SetItemFor(scheme, core, fs[i].0, fs[i].1).Some?
    ensures SetItemFor(scheme, core, fs[i].0, fs[i].1).value in SetClause(scheme, core, fs)
  {
    SetClauseUpToEntries(scheme, core, fs, |fs|);
  }

  /** Every entry of the SET list comes from an entry of the field set. */
  lemma SetClauseFromEntry(scheme: Scheme, core: RowCore, fs: FieldSet, item: SetItem) returns (i: nat)
    requires item in SetClause(scheme, core, fs)
    ensures i < |fs| && SetItemFor(scheme, core, fs[i].0, fs[i].1) == Some(item)
  {
    var r := SetClause(scheme, core, fs);
    SetClauseUpToEntries(scheme, core, fs, |fs|);
    var k :| 0 <= k < |r| && r[k] == item;
    i :| 0 <= i < |fs| && SetItemFor(scheme, core, fs[i].0, fs[i].1) == Some(r[k]);
  }

  /** An item of the SET list: its field-set entry and what its owner is. */
  lemma SetClauseItem(scheme: Scheme, core: RowCore, fs: FieldSet, item: SetItem)
    requires item in SetClause(scheme, core, fs)
    ensures (item.Field(), item.value) in fs
    ensures ChangedOwner(scheme, core.changed, item.Field()).Some?
    ensures IsTruthyName(ChangedOwner(scheme, core.changed, item.Field()).value)
    ensures item.Increment? <==> ChangedOwner(scheme, core.changed, item.Field()).value in core.adjusted
  {
    var i := SetClauseFromEntry(scheme, core, fs, item);
    SetItemForShape(scheme, core, fs[i].0, fs[i].1, item);
    assert fs[i] == (item.Field(), item.value);
  }

  /** What a SET entry made from `f => v` records. */
  lemma SetItemForShape(scheme: Scheme, core: RowCore, f: string, v: Value, item: SetItem)
    requires SetItemFor(scheme, core, f, v) == Some(item)
    ensures item.Field() == f && item.value == v
    ensures ChangedOwner(scheme, core.changed, f).Some? && IsTruthyName(ChangedOwner(scheme, core.changed, f).value)
    ensures item.Increment? <==> ChangedOwner(scheme, core.changed, f).value in core.adjusted
  {
  }

  /** A field-set entry owned by a changed property with a truthy name reaches the SET list. */
  lemma SetClauseCovers(scheme: Scheme, core: RowCore, fs: FieldSet, f: string, v: Value)
    requires (f, v) in fs
    requires ChangedOwner(scheme, core.changed, f).Some? && IsTruthyName(ChangedOwner(scheme, core.changed, f).value)
    ensures Assign(f, v) in SetClause(scheme, core, fs) || Increment(f, v) in SetClause(scheme, core, fs)
  {
    var i :| 0 <= i < |fs| && fs[i] == (f, v);
    SetClauseHasEntry(scheme, core, fs, i);
  }

  /**
   * A field gets a SET entry exactly when a changed property with a truthy name owns it;
   * the entry carries the field-set value, as an increment when that owner is adjusted.
   */
  lemma SetClauseEntries(scheme: Scheme, core: RowCore, fs: FieldSet, f: string, v: Value)
    ensures (Assign(f, v) in SetClause(scheme, core, fs) || Increment(f, v) in SetClause(scheme, core, fs))
            <==> (f, v) in fs && ChangedOwner(scheme, core.changed, f).Some? &&
                 IsTruthyName(ChangedOwner(scheme, core.changed, f).value)
    ensures Increment(f, v) in SetClause(scheme, core, fs) ==>
              ChangedOwner(scheme, core.changed, f).value in core.adjusted
    ensures Assign(f, v) in SetClause(scheme, core, fs) ==>
              ChangedOwner(scheme, core.changed, f).value !in core.adjusted
  {
    var r := SetClause(scheme, core, fs);
    if (f, v) in fs && ChangedOwner(scheme, core.changed, f).Some? && IsTruthyName(ChangedOwner(scheme, core.changed, f).value) {
      SetClauseCovers(scheme, core, fs, f, v);
    }
    if Assign(f, v) in r {
      SetClauseItem(scheme, core, fs, Assign(f, v));
    }
    if Increment(f, v) in r {
      SetClauseItem(scheme, core, fs, Increment(f, v));
    }
  }

  /** With nothing in propertiesChanged the SET list is empty, so no UPDATE is sent. */
  lemma NothingChangedNoSet(scheme: Scheme, core: RowCore, fs: FieldSet)
    requires core.changed == []
    ensures SetClause(scheme, core, fs) == []
  {
    forall i | 0 <= i < |fs|
      ensures SetItemFor(scheme, core, fs[i].0, fs[i].1).None?
    {
    }
    var r := SetClause(scheme, core, fs);
    SetClauseUpToEntries(scheme, core, fs, |fs|);
    if r != [] {
      assert exists i :: 0 <= i < |fs| && SetItemFor(scheme, core, fs[i].0, fs[i].1) == Some(r[0]);
    }
  }

  /**
   * A delta alone does not reach the SET list: a field that no changed property names is
   * left out even when the property that owns it has a pending delta.
   */
  lemma AdjustedButUnchangedIsDropped(scheme: Scheme, core: RowCore, fs: FieldSet, p: string, f: string, v: Value)
    requires p in core.adjusted && core.adjusted[p] != 0 && MapsTo(scheme, p, f)
    requires forall q :: q in core.changed ==> !MapsTo(scheme, q, f)
    ensures Assign(f, v) !in SetClause(scheme, core, fs) && Increment(f, v) !in SetClause(scheme, core, fs)
  {
    ChangedOwnerSpec(scheme, core.changed, f);
    SetClauseEntries(scheme, core, fs, f, v);
  }
}
