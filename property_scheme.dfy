/**
 * The static property scheme of a DBRow class (`static::$_properties`): one descriptor
 * per logical property, in declaration order. PHP's run-time introspection
 * (`method_exists`, `is_callable`, `call_user_func`) is replaced by optional total
 * functions; a custom method sees and may rewrite the object's `_<name>` slots.
 */
module PropertyScheme {
  import opened Wrappers
  import opened PhpValues
  import PhpArrays

  /** The object's `_<name>` properties, keyed by `<name>`; `_dbId` is the slot "dbId". */
  type Slots = map<string, Value>

  /** A row fetched from the database (`$db_row`), keyed by column name. */
  type DbRowData = map<string, Value>

  /** An insertion-ordered `field => value` array, as built by `dbMakeFieldSet`. */
  type FieldSet = PhpArrays.Pairs<Value>

  /**
   * One entry of the scheme. Each `Option` is None when the key is absent or empty, and
   * Some when it names a method the class declares: since DBRow defines `__call`,
   * `is_callable` holds for every name, and only names of existing methods are modelled.
   * `getter` and `setter` stand for methods `get<Name>` / `set<Name>` declared on the class.
   */
  datatype Descriptor = Descriptor(
    field: Option<string>,                                  // P_DB_FIELD
    linked: seq<string>,                                    // P_DB_FIELDS_LINKED
    readOnly: bool,                                         // P_READ_ONLY
    input: Option<Value -> Value>,                          // P_FUNC_INPUT
    output: Option<Value -> Value>,                         // P_FUNC_OUTPUT
    extract: Option<(Slots, DbRowData) -> (Slots, DbRowData)>,  // P_METHOD_EXTRACT, gets &$db_row
    setMethod: Option<(Slots, Value) -> Slots>,             // P_METHOD_SET
    inject: Option<(Slots, FieldSet) -> FieldSet>,          // P_METHOD_INJECT, gets &$array
    outputMethod: Option<(Slots, Value) -> Value>,          // P_METHOD_OUTPUT
    getter: Option<(Slots, seq<Value>) -> Value>,           // method get<Name>
    setter: Option<(Slots, seq<Value>) -> (Slots, Value)>   // method set<Name>
  )
  {
    /** The descriptor array is `empty()`: nothing at all is declared. */
    predicate IsBlank()
    {
      && field.None? && linked == [] && !readOnly
      && input.None? && output.None? && extract.None? && setMethod.None?
      && inject.None? && outputMethod.None? && getter.None? && setter.None?
    }

    /** The property is a plain stored one: no custom method of any kind. */
    predicate IsPlain()
    {
      extract.None? && setMethod.None? && inject.None? && outputMethod.None?
      && getter.None? && setter.None?
    }
  }

  /** `static::$_properties`: descriptors by property name, in declaration order. */
  type Scheme = PhpArrays.Pairs<Descriptor>

  /** A PHP array literal never has a key twice. */
  predicate WellFormed(scheme: Scheme)
  {
    PhpArrays.UniqueKeys(scheme)
  }

  function Lookup(scheme: Scheme, p: string): Option<Descriptor>
  {
    PhpArrays.Get(scheme, p)
  }

  /** `!empty(static::$_properties[$p])`. */
  predicate Declared(scheme: Scheme, p: string)
  {
    Lookup(scheme, p).Some? && !Lookup(scheme, p).value.IsBlank()
  }

  /** The descriptor at position `i` is the one a lookup of its own name finds. */
  lemma LookupAt(scheme: Scheme, i: int)
    requires WellFormed(scheme) && 0 <= i < |scheme|
    ensures Lookup(scheme, scheme[i].0) == Some(scheme[i].1)
  {
    PhpArrays.GetAt(scheme, i);
  }
}
