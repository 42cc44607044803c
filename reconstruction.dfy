/**
 * `dbRowParse($db_row)`: the reconstruction of an object from a database row, one scheme
 * entry at a time. A value is taken 1:1 from its field, converted by the input function
 * and stored through the property's set method or through `__set`, which records the
 * property in propertiesChanged and may throw.
 */
module Reconstruction {
  import opened Wrappers
  import opened PhpValues
  import opened PropertyScheme
  import opened Accessors

  /** The row value of a 1:1 property: `isset($db_row[$field])` is false for a null column. */
  function RowValue(row: DbRowData, d: Descriptor): Value
  {
    if d.field.Some? && d.field.value in row && row[d.field.value] != Null then row[d.field.value] else Null
  }

  /** The row value after the input conversion (P_FUNC_INPUT). */
  function InputValue(row: DbRowData, d: Descriptor): Value
  {
    if d.input.Some? then d.input.value(RowValue(row, d)) else RowValue(row, d)
  }

  /** The loop state: the object and the row, which an extract method may rewrite. */
  type ParseState = (RowCore, DbRowData)

  /** One iteration of the loop of `dbRowParse`. */
  function ParseStep(scheme: Scheme, st: ParseState, name: string, d: Descriptor): Result<ParseState, Error>
  {
    var (core, row) := st;
    if d.extract.Some? then
      var (slots', row') := d.extract.value(core.slots, row);
      Success((core.(slots := slots'), row'))
    else if d.readOnly then Success(st)
    else if d.setMethod.Some? then
      Success((core.(slots := d.setMethod.value(core.slots, InputValue(row, d))), row))
    else
      match SetProperty(scheme, core, name, InputValue(row, d))
      case (Failure(e), _) => Failure(e)
      case (Success(_), core') => Success((core', row))
  }

  /** The state after the first `n` scheme entries; a thrown exception ends the loop. */
  function ParseUpTo(scheme: Scheme, st: ParseState, n: nat): Result<ParseState, Error>
    requires n <= |scheme|
  {
    if n == 0 then Success(st)
    else
      match ParseUpTo(scheme, st, n - 1)
      case Failure(e) => Failure(e)
      case Success(st') => ParseStep(scheme, st', scheme[n - 1].0, scheme[n - 1].1)
  }

  /** An exception thrown by entry `i` is the exception of the whole loop. */
  lemma {:induction false} ParseFailureSticks(scheme: Scheme, st: ParseState, i: nat, n: nat)
    requires i <= n <= |scheme| && ParseUpTo(scheme, st, i).Failure?
    ensures ParseUpTo(scheme, st, n) == ParseUpTo(scheme, st, i)
  {
    if n > i {
      ParseFailureSticks(scheme, st, i, n - 1);
    }
  }

  /** `dbRowParse($db_row)`: the new object state, or the exception it throws. */
  /**
   * `dbRowParse($db_row)`. A successful parse keeps the pending deltas and the lock flag and
   * removes no changed property.
   */
  function RowParse(scheme: Scheme, core: RowCore, row: DbRowData): (r: Result<RowCore, Error>)
    ensures r.Success? ==> r.value.adjusted == core.adjusted && r.value.lockSkip == core.lockSkip
    ensures r.Success? ==> core.changed <= r.value.changed
  {
    match ParseUpTo(scheme, (core, row), |scheme|)
    case Failure(e) => Failure(e)
    case Success(st) =>
      ParseKeepsDeltas(scheme, core, row, |scheme|);
      Success(st.0)
  }

  /** Every entry is a plain stored property. */
  predicate AllPlain(scheme: Scheme)
  {
    forall i :: 0 <= i < |scheme| ==> scheme[i].1.IsPlain()
  }

  /**
   * Every entry that `dbRowParse` writes through `__set` reaches its own slot: it is
   * declared, its name does not begin with an upper-case letter, and it has no pending delta.
   */
  predicate ParseReady(scheme: Scheme, adjusted: map<string, int>)
  {
    forall i :: 0 <= i < |scheme| && !scheme[i].1.readOnly ==> Writable(scheme[i], adjusted)
  }

  predicate Writable(entry: (string, Descriptor), adjusted: map<string, int>)
  {
    !entry.1.IsBlank() && !StartsUpper(entry.0) && !Locked(adjusted, entry.0)
  }

  /** Some of the first `n` entries is a writable (not read-only) property named `p`. */
  predicate WrittenBy(scheme: Scheme, n: nat, p: string)
    requires n <= |scheme|
  {
    exists i :: 0 <= i < n && scheme[i].0 == p && !scheme[i].1.readOnly
  }

  /** What the first `n` entries of a plain scheme do to the object. */
  ghost predicate ParsedPlain(scheme: Scheme, core: RowCore, row: DbRowData, n: nat, st: ParseState)
    requires n <= |scheme|
  {
    && st.1 == row
    && st.0.adjusted == core.adjusted && st.0.lockSkip == core.lockSkip
    && core.changed <= st.0.changed
    && (forall p :: p in st.0.changed <==> p in core.changed || WrittenBy(scheme, n, p))
    && (forall i :: 0 <= i < n && !scheme[i].1.readOnly ==>
          Slot(st.0.slots, scheme[i].0) == InputValue(row, scheme[i].1))
    && (forall p :: !WrittenBy(scheme, n, p) ==> Slot(st.0.slots, p) == Slot(core.slots, p))
  }

  /**
   * On a plain scheme `dbRowParse` stores the converted row value of every property that
   * is not read-only and records it as changed; read-only properties and slots no entry
   * writes keep their values; the deltas and the lock flag are untouched.
   */
  lemma {:induction false} ParsePlain(scheme: Scheme, core: RowCore, row: DbRowData, n: nat)
    requires n <= |scheme| && WellFormed(scheme) && AllPlain(scheme) && ParseReady(scheme, core.adjusted)
    ensures ParseUpTo(scheme, (core, row), n).Success?
    ensures ParsedPlain(scheme, core, row, n, ParseUpTo(scheme, (core, row), n).value)
  {
    if n > 0 {
      ParsePlain(scheme, core, row, n - 1);
      var st := ParseUpTo(scheme, (core, row), n - 1).value;
      if scheme[n - 1].1.readOnly {
        ParsePlainReadOnlyStep(scheme, core, row, n - 1, n, st);
      } else {
        ParsePlainWriteStep(scheme, core, row, n - 1, n, st);
      }
    }
  }

  /** The step of ParsePlain over a read-only entry. */
  lemma ParsePlainReadOnlyStep(scheme: Scheme, core: RowCore, row: DbRowData, m: nat, n: nat, st: ParseState)
    requires n == m + 1 && n <= |scheme| && AllPlain(scheme) && scheme[m].1.readOnly
    requires ParseUpTo(scheme, (core, row), m) == Success(st)
    requires ParsedPlain(scheme, core, row, m, st)
    ensures ParseUpTo(scheme, (core, row), n) == Success(st)
    ensures ParsedPlain(scheme, core, row, n, st)
  {
    assert scheme[m].1.IsPlain();
    forall p ensures WrittenBy(scheme, n, p) <==> WrittenBy(scheme, m, p) {
      if WrittenBy(scheme, n, p) {
        var i :| 0 <= i < n && scheme[i].0 == p && !scheme[i].1.readOnly;
        assert i < m;
      }
    }
  }

  /** The step of ParsePlain over a writable entry: `__set` stores its value. */
  lemma ParsePlainWriteStep(scheme: Scheme, core: RowCore, row: DbRowData, m: nat, n: nat, st: ParseState)
    requires n == m + 1 && n <= |scheme| && WellFormed(scheme) && AllPlain(scheme)
    requires ParseReady(scheme, core.adjusted) && !scheme[m].1.readOnly
    requires ParseUpTo(scheme, (core, row), m) == Success(st)
    requires ParsedPlain(scheme, core, row, m, st)
    ensures ParseUpTo(scheme, (core, row), n).Success?
    ensures ParsedPlain(scheme, core, row, n, ParseUpTo(scheme, (core, row), n).value)
  {
    var q := scheme[m].0;
    var v := InputValue(row, scheme[m].1);
    assert scheme[m].1.IsPlain() && Writable(scheme[m], core.adjusted);
    SetPlainProperty(scheme, st.0, m, v);
    var core' := st.0.(changed := AddKey(st.0.changed, q), slots := st.0.slots[q := v]);
    assert ParseStep(scheme, st, q, scheme[m].1) == Success((core', row));
    ParsedPlainExtend(scheme, core, row, m, n, st, core');
  }

  /** `__set` on a plain, declared, unlocked property writes its slot and marks it changed. */
  lemma SetPlainProperty(scheme: Scheme, c: RowCore, m: nat, v: Value)
    requires m < |scheme| && WellFormed(scheme) && scheme[m].1.IsPlain()
    requires !scheme[m].1.IsBlank() && !StartsUpper(scheme[m].0) && !Locked(c.adjusted, scheme[m].0)
    ensures SetProperty(scheme, c, scheme[m].0, v)
            == (Success(Null), c.(changed := AddKey(c.changed, scheme[m].0), slots := c.slots[scheme[m].0 := v]))
  {
    LcfirstUcfirst(scheme[m].0);
    LookupAt(scheme, m);
  }

  /** ParsedPlain carries over a write of entry `m`'s slot. */
  lemma ParsedPlainExtend(scheme: Scheme, core: RowCore, row: DbRowData, m: nat, n: nat, st: ParseState, core': RowCore)
    requires n == m + 1 && n <= |scheme| && WellFormed(scheme) && !scheme[m].1.readOnly
    requires ParsedPlain(scheme, core, row, m, st)
    requires core' == st.0.(changed := AddKey(st.0.changed, scheme[m].0),
                            slots := st.0.slots[scheme[m].0 := InputValue(row, scheme[m].1)])
    ensures ParsedPlain(scheme, core, row, n, (core', row))
  {
    var q := scheme[m].0;
    forall p ensures WrittenBy(scheme, n, p) <==> WrittenBy(scheme, m, p) || p == q {
      if WrittenBy(scheme, n, p) && p != q {
        var i :| 0 <= i < n && scheme[i].0 == p && !scheme[i].1.readOnly;
        assert i < m;
      }
    }
    forall i | 0 <= i < n && !scheme[i].1.readOnly
      ensures Slot(core'.slots, scheme[i].0) == InputValue(row, scheme[i].1)
    {
      if i < m {
        assert scheme[i].0 != q;
      }
    }
  }

  /**
   * A property that `dbRowParse` would write through `__set` while it has a pending delta
   * makes the whole reconstruction throw: the loop cannot get past it.
   */
  lemma {:induction false} ParseLockedThrows(scheme: Scheme, core: RowCore, row: DbRowData, i: nat, n: nat)
    requires i < n <= |scheme| && WellFormed(scheme)
    requires scheme[i].1.extract.None? && !scheme[i].1.readOnly && scheme[i].1.setMethod.None?
    requires !scheme[i].1.IsBlank() && !StartsUpper(scheme[i].0) && Locked(core.adjusted, scheme[i].0)
    ensures ParseUpTo(scheme, (core, row), n).Failure?
  {
    if n - 1 == i {
      var r := ParseUpTo(scheme, (core, row), i);
      if r.Success? {
        ParseKeepsDeltas(scheme, core, row, i);
        LcfirstUcfirst(scheme[i].0);
        LookupAt(scheme, i);
        assert SetProperty(scheme, r.value.0, scheme[i].0, InputValue(r.value.1, scheme[i].1)).0.Failure?;
      }
    } else {
      ParseLockedThrows(scheme, core, row, i, n - 1);
    }
  }

  /** No step of `dbRowParse` touches propertiesAdjusted. */
  lemma {:induction false} ParseKeepsDeltas(scheme: Scheme, core: RowCore, row: DbRowData, n: nat)
    requires n <= |scheme|
    requires ParseUpTo(scheme, (core, row), n).Success?
    ensures ParseUpTo(scheme, (core, row), n).value.0.adjusted == core.adjusted
    ensures ParseUpTo(scheme, (core, row), n).value.0.lockSkip == core.lockSkip
    ensures core.changed <= ParseUpTo(scheme, (core, row), n).value.0.changed
  {
    if n > 0 {
      ParseKeepsDeltas(scheme, core, row, n - 1);
    }
  }
}
