/**
 * The accessor dispatcher of DBRow: `__call`, and `__get` / `__set`, which forward to it
 * with the name `get`/`set` + `ucfirst($name)`. The change-tracking state of a row is
 * the value `RowCore`.
 */
module Accessors {
  import opened Wrappers
  import opened PhpValues
  import opened PropertyScheme

  /** The exceptions `__call` throws. */
  datatype Error =
    | PropertyNotExists(property: string)   // ExceptionPropertyNotExists
    | PropertyAccess(property: string)      // PropertyAccessException

  /** The per-object state: `_<name>` slots, `lockSkip`, `propertiesChanged`, `propertiesAdjusted`. */
  datatype RowCore = RowCore(
    slots: Slots,
    lockSkip: bool,
    changed: seq<string>,          // the keys of propertiesChanged, in insertion order
    adjusted: map<string, int>)    // propertiesAdjusted: property => delta

  /** `$this->{'_' . $p}`; an undefined property reads as null. */
  function Slot(slots: Slots, p: string): Value
  {
    if p in slots then slots[p] else Null
  }

  /** No key occurs twice, as in the keys of a PHP array. */
  predicate Distinct(keys: seq<string>)
  {
    forall i, j :: 0 <= i < j < |keys| ==> keys[i] != keys[j]
  }

  /**
   * `$a[$k] = 1` on the keys array `propertiesChanged`: a present key keeps its position
   * and the keys stay as they were; a new key is added once, at the end.
   */
  function AddKey(keys: seq<string>, k: string): (r: seq<string>)
    ensures k in r && forall x :: x in r <==> x in keys || x == k
    ensures keys <= r && |r| <= |keys| + 1
    ensures k in keys ==> r == keys
  {
    if k in keys then keys else keys + [k]
  }

  /** Recording a property keeps the keys of propertiesChanged distinct. */
  lemma AddKeyDistinct(keys: seq<string>, k: string)
    requires Distinct(keys)
    ensures Distinct(AddKey(keys, k))
  {
    if k !in keys {
      var r := AddKey(keys, k);
      forall i, j | 0 <= i < j < |r| ensures r[i] != r[j] {
        if j == |keys| {
          assert r[i] == keys[i];
        }
      }
    }
  }

  /** `substr($name, 0, 3)`. */
  function CallPrefix(name: string): string
  {
    if |name| < 3 then name else name[..3]
  }

  /** `lcfirst(substr($name, 3))`, where a too-short name yields the empty string. */
  function CallProperty(name: string): string
  {
    Lcfirst(if |name| >= 3 then name[3..] else "")
  }

  /** `!empty($this->propertiesAdjusted[$p])`: a non-zero delta is pending. */
  predicate Locked(adjusted: map<string, int>, p: string)
  {
    p in adjusted && adjusted[p] != 0
  }

  /** `$arguments[0]`, null when absent. */
  function FirstArgument(args: seq<Value>): Value
  {
    if |args| > 0 then args[0] else Null
  }

  /** The get branch of `__call` for property `prop`. */
  function CallGet(scheme: Scheme, core: RowCore, prop: string, args: seq<Value>): Result<Value, Error>
  {
    if !Declared(scheme, prop) then Failure(PropertyNotExists(prop))
    else
      match Lookup(scheme, prop).value.getter
      case Some(g) => Success(g(core.slots, args))
      case None => Success(Slot(core.slots, prop))
  }

  /** The set branch of `__call` for property `prop`. */
  function CallSet(scheme: Scheme, core: RowCore, prop: string, args: seq<Value>): (Result<Value, Error>, RowCore)
  {
    if !Declared(scheme, prop) then (Failure(PropertyNotExists(prop)), core)
    else if Locked(core.adjusted, prop) then (Failure(PropertyAccess(prop)), core)
    else
      var core' := core.(changed := AddKey(core.changed, prop));
      match Lookup(scheme, prop).value.setter
      case Some(s) =>
        var (slots', r) := s(core'.slots, args);
        (Success(r), core'.(slots := slots'))
      case None => (Success(Null), core'.(slots := core'.slots[prop := FirstArgument(args)]))
  }

  /**
   * `__call($name, $arguments)`: the returned value or exception, and the new state.
   * Read-only properties are not rejected (the source leaves that as a TODO).
   */
  function Call(scheme: Scheme, core: RowCore, name: string, args: seq<Value>): (out: (Result<Value, Error>, RowCore))
    ensures var p := CallPrefix(name);
      var prop := CallProperty(name);
      // unknown accessor or property: ExceptionPropertyNotExists, nothing changes
      && (out.0 == Failure(PropertyNotExists(prop)) <==> (p != "get" && p != "set") || !Declared(scheme, prop))
      // a set on a property with a pending delta: PropertyAccessException, nothing changes
      && (out.0 == Failure(PropertyAccess(prop)) <==>
            p == "set" && Declared(scheme, prop) && Locked(core.adjusted, prop))
      && (out.0.Failure? ==> out.1 == core)
      // a get changes nothing and yields the custom getter's value or the slot
      && (out.0.Success? && p == "get" ==>
            out.1 == core &&
            out.0.value == match Lookup(scheme, prop).value.getter
                           case Some(g) => g(core.slots, args)
                           case None => Slot(core.slots, prop))
      // a successful set records the property as changed, then writes the slot or calls the
      // setter, and returns the setter's result or null
      && (out.0.Success? && p == "set" ==>
            && out.0.value == (match Lookup(scheme, prop).value.setter
                               case Some(s) => s(core.slots, args).1
                               case None => Null)
            && out.1.changed == AddKey(core.changed, prop)
            && out.1.adjusted == core.adjusted && out.1.lockSkip == core.lockSkip
            && out.1.slots == match Lookup(scheme, prop).value.setter
                              case Some(s) => s(core.slots, args).0
                              case None => core.slots[prop := FirstArgument(args)])
  {
    var p := CallPrefix(name);
    var prop := CallProperty(name);
    if p == "get" then (CallGet(scheme, core, prop, args), core)
    else if p == "set" then CallSet(scheme, core, prop, args)
    else (Failure(PropertyNotExists(prop)), core)
  }

  /** The method name `__get($p)` forwards to. */
  function GetterName(p: string): string { "get" + Ucfirst(p) }

  /** The method name `__set($p, $v)` forwards to. */
  function SetterName(p: string): string { "set" + Ucfirst(p) }

  /**
   * `__get` / `__set` of `$p` address the property `lcfirst(ucfirst($p))`, which is `$p`
   * itself unless `$p` begins with an upper-case letter.
   */
  lemma ForwardedProperty(p: string)
    ensures CallPrefix(GetterName(p)) == "get" && CallPrefix(SetterName(p)) == "set"
    ensures CallProperty(GetterName(p)) == Lcfirst(Ucfirst(p)) == CallProperty(SetterName(p))
    ensures CallProperty(GetterName(p)) == p <==> !StartsUpper(p)
  {
    assert GetterName(p)[..3] == "get" && GetterName(p)[3..] == Ucfirst(p);
    assert SetterName(p)[..3] == "set" && SetterName(p)[3..] == Ucfirst(p);
    LcfirstUcfirst(p);
  }

  /** `$this->{$p}` read from inside the class, through `__get`. */
  function GetProperty(scheme: Scheme, core: RowCore, p: string): Result<Value, Error>
  {
    CallGet(scheme, core, Lcfirst(Ucfirst(p)), [])
  }

  /** `$this->{$p} = $v` from inside the class, through `__set`. */
  function SetProperty(scheme: Scheme, core: RowCore, p: string, v: Value): (Result<Value, Error>, RowCore)
  {
    CallSet(scheme, core, Lcfirst(Ucfirst(p)), [v])
  }

  /** The reads and writes of undeclared names inside the class are `__call` invocations. */
  lemma PropertyAccessIsCall(scheme: Scheme, core: RowCore, p: string, v: Value)
    ensures GetProperty(scheme, core, p) == Call(scheme, core, GetterName(p), []).0
    ensures SetProperty(scheme, core, p, v) == Call(scheme, core, SetterName(p), [v])
  {
    ForwardedProperty(p);
  }

  /**
   * A set that has been refused because of a pending delta succeeds once the deltas are
   * cleared, as `dbSave` does, and then records the property as changed.
   */
  lemma SetAllowedAfterSave(scheme: Scheme, core: RowCore, p: string, v: Value)
    requires Declared(scheme, p) && !StartsUpper(p)
    requires SetProperty(scheme, core, p, v).0 == Failure(PropertyAccess(p))
    ensures var cleared := core.(changed := [], adjusted := map[]);
      SetProperty(scheme, cleared, p, v).0.Success? && SetProperty(scheme, cleared, p, v).1.changed == [p]
  {
    ForwardedProperty(p);
  }

  /** Read-only is not enforced: a read-only declared property is written like any other. */
  lemma ReadOnlyIsWritable(scheme: Scheme, core: RowCore, p: string, v: Value)
    requires Declared(scheme, p) && Lookup(scheme, p).value.readOnly
    requires Lookup(scheme, p).value.setter.None? && !Locked(core.adjusted, p)
    requires !StartsUpper(p)
    ensures SetProperty(scheme, core, p, v).0.Success?
    ensures Slot(SetProperty(scheme, core, p, v).1.slots, p) == v
  {
    ForwardedProperty(p);
  }
}
