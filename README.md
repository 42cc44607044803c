# DBRow persistence core and economy decision helpers of SuperNWS, in Dafny

This project models two parts of the SuperNWS game server and proves properties of them.

**`DBRow`** is the abstract base class that maps one database row to one PHP object. It has:

- a static property scheme (`static::$_properties`): one descriptor per logical property, giving its column (`P_DB_FIELD`), linked columns, read-only flag, conversion functions and custom methods;
- magic accessors (`__get`, `__set`, `__call`) that resolve `get<Name>` / `set<Name>` against the scheme, record plain sets in `propertiesChanged`, and refuse a set while a delta for that property is pending in `propertiesAdjusted`;
- reconstruction from a fetched row (`dbRowParse`) and loading by id (`dbLoad`);
- `dbMakeFieldSet`, which builds the `field => value` array in scheme order;
- `isFieldChanged` and `db_field_update`, which build the SET list of an UPDATE from the changed properties, with deltas rendered as `` `f` + (v) ``;
- `dbSave`, which inserts a new row, deletes a stored empty row or updates a stored non-empty one, then cascades `dbSave` over `triggerDbOperationOn` in list order and clears both tracking maps.

**`eco_get_build_data.php`** holds the integer- and string-valued decisions used around build costs:

- the laboratory comparator `eco_lab_sort_effectivness`;
- the greedy summation of laboratory levels in `eco_get_lab_max_effective_level`, with its per-requirement cache;
- the requirement check `sn_eco_can_build_unit`;
- the rule at line 189 that turns `BUILD_ALLOWED` into `BUILD_NO_RESOURCES`;
- the queue scan `eco_is_builds_in_que`.

Files and modules:

- `wrappers.dfy`, `Wrappers`: `Option`, `Result`, `Outcome`. A thrown PHP exception is a `Failure`/`Fail` value that the caller propagates.
- `php_strings.dfy`, `PhpStrings`: `explode`/`implode` on one character, and the leading-integer reading PHP 5/7 applies when it compares a string with a number.
- `php_values.dfy`, `PhpValues`: scalar values, `empty()`, loose `== 0`, ASCII `ucfirst`/`lcfirst`.
- `php_arrays.dfy`, `PhpArrays`: insertion-ordered arrays as sequences of pairs. Assigning to a present key keeps its position.
- `property_scheme.dfy`, `PropertyScheme`: descriptors and the scheme. Reflection (`method_exists`, `is_callable`, `call_user_func`) becomes optional total functions over the object's `_<name>` slots.
- `accessors.dfy`, `Accessors`: `__call`, `__get`, `__set` as functions of the object state `RowCore`.
- `statements.dfy`, `Statements`: the statements sent to the database and the reports sent to the debug sink.
- `materializer.dfy`, `Materializer`: `dbMakeFieldSet`, `isFieldChanged`, the SET list.
- `reconstruction.dfy`, `Reconstruction`: `dbRowParse` as a fold over the scheme.
- `lifecycle.dfy`, `Lifecycle`: which statement `dbSave` sends for the row itself.
- `persistence.dfy`, `Persistence`:
  - the class `DBRow`, whose methods update `slots`, `lockSkip`, `changed` and `adjusted` in place, with loops for `dbMakeFieldSet`, `isFieldChanged`, `db_field_update`, `dbRowParse` and the cascade;
  - the class `Database`, which stands for the SQL layer and the debug sink.
- `eco_build_data.dfy`, `EcoBuildData`: the economy helpers. `LabCache` is a class whose `levels` map is updated in place, as `$user['research_effective_level']` is.

Each imperative method is proved against the functions of the value-level modules. The properties are proved about those functions.

The SQL layer and `db_insert_id` are functions of the statements sent so far, fixed when a `Database` is made. `isEmpty()` is a function of the slots, supplied per object. `mrc_get_level` is a function parameter. `eco_unit_busy` is a boolean parameter.

In these places the model follows the code rather than the class comments and the names the code suggests:

- Read-only properties are not refused on set; the check is a TODO at DBRow.php:145. See `Accessors.ReadOnlyIsWritable`.
- Reconstruction does not bypass change tracking: every property without a set method that it writes goes through `__set` and is marked changed. A property with `P_METHOD_SET` is written through `call_user_func` and is not recorded. See `Reconstruction.ParsePlain`.
- The SET list contains a field only when a property in `propertiesChanged` names it. A pending delta alone does not put it there, because `isFieldChanged` never consults `propertiesAdjusted`. See `Materializer.AdjustedButUnchangedIsDropped`.
- The field set, and therefore the INSERT, also holds read-only properties. See `Materializer.FieldSetShape`.
- The row lock in `dbLoad` is never taken: the branch starts with `false &&`.
- A pending delta of 0 does not block a set, because the test is `!empty(...)`.
- There is no `adjust` operation; `propertiesAdjusted` is only read.
- An exception from the parse in `dbLoad` leaves `lockSkip` as it was passed.

## Model

| member | source | states |
|---|---|---|
| PhpStrings.Split | includes/functions/eco_get_build_data.php:261 | `explode` yields at least one piece; no piece contains the separator; the pieces and separators cover the string |
| PhpStrings.JoinSplit | includes/functions/eco_get_build_data.php:261 | imploding the pieces of an explode gives the original string back |
| PhpStrings.SplitJoin | includes/functions/eco_get_build_data.php:261-266 | exploding an implode of separator-free pieces gives the pieces back |
| PhpStrings.SplitAtFirst | includes/functions/eco_get_build_data.php:266 | `explode` of `a,b`, where `a` has no separator, starts with `a` |
| PhpStrings.JoinIsEmpty | includes/classes/DBRow.php:481-485 | an implode of non-empty pieces is empty exactly when there are no pieces |
| PhpStrings.LeadingIntOfDecimal | includes/functions/eco_get_build_data.php:267 | reading the leading integer of a rendered integer gives it back |
| PhpStrings.LeadingIntOfDecimalPrefix | includes/functions/eco_get_build_data.php:267 | the same when a non-digit follows the rendered integer |
| PhpValues.EmptyIsLooseZero | includes/classes/DBRow.php:271 | every `empty()` value is loosely equal to 0 |
| PhpStrings.NoLeadingNumberIsZero | includes/classes/DBRow.php:308-310 | a string with no digit after its leading white space and optional sign reads as the integer 0 |
| PhpValues.LooseZeroNotEmpty | includes/classes/DBRow.php:308-310 | every non-empty string with no digit after its leading white space and optional sign is loosely 0 (so such an id makes `isNew()` true) without being `empty()` |
| PhpValues.LcfirstUcfirst | includes/classes/DBRow.php:111-137 | `lcfirst(ucfirst(p))` is `p` exactly when `p` does not begin with an upper-case letter |
| PhpArrays.GetNone | includes/classes/DBRow.php:389 | a key reads as absent exactly when it is not among the keys |
| PhpArrays.GetAt | includes/classes/DBRow.php:420 | in an array with distinct keys, the key at position i reads the value at i |
| PhpArrays.PutKeys | includes/classes/DBRow.php:404 | `$a[$k] = $v` keeps the key order when `k` is present and otherwise appends `k` |
| PhpArrays.GetPut | includes/classes/DBRow.php:404 | after `$a[$k] = $v`, `k` reads `v` and every other key reads as before |
| PhpArrays.PutUnique | includes/classes/DBRow.php:404 | assignment keeps the keys distinct |
| PropertyScheme.LookupAt | includes/classes/DBRow.php:141 | the descriptor at a scheme position is the one a lookup of its name finds |
| Accessors.AddKey | includes/classes/DBRow.php:151 | `propertiesChanged[$p] = 1` leaves the keys as they were when `p` is present; otherwise it adds `p` at the end and nothing else |
| Accessors.AddKeyDistinct | includes/classes/DBRow.php:151 | recording a property keeps the keys of propertiesChanged distinct |
| Accessors.Call | includes/classes/DBRow.php:135-171 | a non-get/set name or an undeclared property throws PropertyNotExists; a set with a pending delta throws PropertyAccess; a throw changes nothing; a get changes nothing and returns the custom getter's value or the slot; a successful set adds the property to propertiesChanged and then either runs the setter and returns its result, or writes the slot and returns null |
| Accessors.ForwardedProperty | includes/classes/DBRow.php:109-124 | `__get`/`__set` of `p` call `get`/`set` on the property `lcfirst(ucfirst(p))`, which is `p` unless `p` begins with an upper-case letter |
| Accessors.PropertyAccessIsCall | includes/classes/DBRow.php:109-124 | a read or write of a property inside the class is the corresponding `__call` |
| Accessors.SetAllowedAfterSave | includes/classes/DBRow.php:147-152 | a set refused for a pending delta succeeds once both tracking maps are cleared, and it records the property |
| Accessors.ReadOnlyIsWritable | includes/classes/DBRow.php:145-168 | a read-only property without a setter is written like any other |
| Statements.RenderItem | includes/classes/DBRow.php:476-479 | every rendered SET entry is non-empty |
| Statements.RenderItems | includes/classes/DBRow.php:479 | the i-th rendered entry is the rendering of the i-th item |
| Statements.SetStringEmpty | includes/classes/DBRow.php:481-487 | `empty($set_string)` holds exactly when the SET list is empty |
| Materializer.MakeFieldSet | includes/classes/DBRow.php:372-408 | without injectors, a field set that `dbMakeFieldSet` returns names each declared field exactly once, in order of first appearance |
| Materializer.FieldSetFailureSticks | includes/classes/DBRow.php:375-405 | an exception thrown while building the field set is the exception of the whole loop |
| Materializer.FieldOrder | includes/classes/DBRow.php:404 | the field order holds exactly the fields the entries name |
| Materializer.FieldSetShape | includes/classes/DBRow.php:372-408 | without injectors, the field set holds each declared field once, in order of first appearance, including read-only ones; the value under a field comes from the last property naming it: its delta on update when it is adjusted, else its getter value, then the output function, then the output method |
| Materializer.FieldSetSucceeds | includes/classes/DBRow.php:394-396 | `dbMakeFieldSet` throws only through a getter: when no property with a field begins with an upper-case letter, it returns a field set |
| Materializer.InsertIgnoresDeltas | includes/classes/DBRow.php:389 | for an insert, the pending deltas make no difference to the field set |
| Materializer.ChangedOwner | includes/classes/DBRow.php:417-436 | a property that `isFieldChanged` reports is in propertiesChanged and names the field directly or by a linked field |
| Materializer.ChangedOwnerSpec | includes/classes/DBRow.php:417-436 | `isFieldChanged(f)` is false exactly when no changed property names `f`; otherwise it is the first changed property, in insertion order, that names `f` directly or by a linked field |
| Materializer.ChangedOwnerFirst | includes/classes/DBRow.php:417-436 | the first changed property naming `f` is the one reported |
| Materializer.SetClauseUpTo | includes/classes/DBRow.php:468-480 | the SET list of n field-set entries has at most n items |
| Materializer.SetClauseUpToOrigins | includes/classes/DBRow.php:468-480 | the SET list of n field-set entries lists the items of the producing entries in field-set order: each item has the position of its entry, these positions strictly increase, and every producing entry's position occurs |
| Materializer.SetClauseOrdered | includes/classes/DBRow.php:468-480 | of two SET items, the earlier comes from an earlier field-set entry |
| Materializer.SetClauseUpToEntries | includes/classes/DBRow.php:468-480 | the SET list holds exactly the items the field-set entries produce |
| Materializer.SetClauseHasEntry | includes/classes/DBRow.php:468-480 | an entry owned by a changed, truthy property is in the SET list |
| Materializer.SetClauseFromEntry | includes/classes/DBRow.php:468-480 | each SET item comes from some field-set entry |
| Materializer.SetClauseItem | includes/classes/DBRow.php:468-480 | a SET item carries a field-set entry's field and value; its owner is changed and truthy; it is an increment exactly when the owner is in propertiesAdjusted |
| Materializer.SetClauseCovers | includes/classes/DBRow.php:468-480 | an owned entry reaches the SET list as an assignment or an increment |
| Materializer.SetClauseEntries | includes/classes/DBRow.php:468-480 | a field has a SET item exactly when it is in the field set and a changed, truthy property owns it; the item is an increment exactly when that owner is adjusted |
| Materializer.NothingChangedNoSet | includes/classes/DBRow.php:468-487 | with nothing in propertiesChanged the SET list is empty |
| Materializer.AdjustedButUnchangedIsDropped | includes/classes/DBRow.php:417-436 | a field owned only by an adjusted, unchanged property gets no SET item |
| Reconstruction.RowParse | includes/classes/DBRow.php:336-365 | a successful `dbRowParse` keeps propertiesAdjusted and lockSkip and removes no changed property |
| Reconstruction.ParseFailureSticks | includes/classes/DBRow.php:336-365 | an exception thrown during reconstruction is the exception of the whole loop |
| Reconstruction.ParsePlain | includes/classes/DBRow.php:336-365 | on a plain scheme, every non-read-only property gets the converted row value (null for an absent or null column) and is marked changed; read-only properties and unwritten slots keep their values; deltas and the lock flag are unchanged |
| Reconstruction.ParsePlainReadOnlyStep | includes/classes/DBRow.php:347-350 | a read-only entry leaves the object as it is |
| Reconstruction.ParsePlainWriteStep | includes/classes/DBRow.php:352-363 | a writable entry stores its converted row value through `__set` |
| Reconstruction.SetPlainProperty | includes/classes/DBRow.php:362 | `$this->{$p} = $v` on a plain, declared, unlocked property writes its slot and marks it changed |
| Reconstruction.ParseLockedThrows | includes/classes/DBRow.php:362 | a property written by `__set` that has a pending delta makes reconstruction throw |
| Reconstruction.ParseKeepsDeltas | includes/classes/DBRow.php:336-365 | a successful reconstruction keeps propertiesAdjusted and lockSkip, and never removes a changed property |
| Lifecycle.SaveBranch | includes/classes/DBRow.php:226-243 | insert exactly for a new row; delete exactly for a stored empty one; update exactly for a stored non-empty one |
| Lifecycle.AtMostOneStatement | includes/classes/DBRow.php:226-301 | a save sends at most one statement for the row itself, its kind matches the branch, and a DELETE or UPDATE addresses the current id |
| Lifecycle.DeleteNeverThrows | includes/classes/DBRow.php:294-301 | saving a stored empty row sends exactly a DELETE of its id and cannot throw |
| Lifecycle.SecondSaveSendsNothing | includes/classes/DBRow.php:251-252 | once the tracking maps are cleared, saving a stored non-empty row sends no UPDATE |
| Lifecycle.InsertColumns | includes/classes/DBRow.php:443-448 | the INSERT of a scheme without injectors lists every declared field once, in scheme order, with as many values as fields |
| Lifecycle.IsNew | includes/classes/DBRow.php:308-310 | `isNew()` is `_dbId == 0`, compared loosely; every id that is `empty()`, as `dbInsert` tests at line 271, makes the row new |
| Persistence.DBRow.IsNew | includes/classes/DBRow.php:308-310 | the object's `isNew()`: an `empty()` `_dbId` makes it true |
| Persistence.Database.Query | includes/classes/DBRow.php:298 | `doquery` appends the statement to the log and returns whether the database accepts it; the reports and the save trace are unchanged |
| Persistence.Database.Fetch | includes/classes/DBRow.php:198 | a fetching `doquery` appends the statement to the log and returns the row the database holds after it |
| Persistence.Database.LastInsertId | includes/classes/DBRow.php:452 | `db_insert_id()` is the id the database assigns after the statements so far |
| Persistence.Database.Report | includes/classes/DBRow.php:186 | `classSupernova::$debug->error` appends one report and changes nothing else |
| Persistence.DBRow.constructor | includes/classes/DBRow.php:58-100 | a new object has `_dbId` 0, no changes, no deltas, lockSkip false, and a valid tree of dependents |
| Persistence.DBRow.CallGetter | includes/classes/DBRow.php:141-165 | the get branch of `__call` |
| Persistence.DBRow.CallSetter | includes/classes/DBRow.php:141-170 | the set branch of `__call` and the state it leaves |
| Persistence.DBRow.Call | includes/classes/DBRow.php:135-171 | `__call` returns and leaves exactly what Accessors.Call states |
| Persistence.DBRow.Get | includes/classes/DBRow.php:109-112 | `__get` changes nothing and returns the `__call` of the getter name |
| Persistence.DBRow.Set | includes/classes/DBRow.php:121-124 | `__set` leaves the state of the `__call` of the setter name and throws when it throws |
| Persistence.DBRow.MakeFieldSet | includes/classes/DBRow.php:372-408 | the loop builds the field set Materializer.MakeFieldSet defines, or throws its exception, and changes nothing |
| Persistence.DBRow.IsFieldChanged | includes/classes/DBRow.php:417-436 | the nested loop with `break 2` returns the owner Materializer.ChangedOwner defines |
| Persistence.DBRow.FieldSetCreate | includes/classes/DBRow.php:443-456 | sends the INSERT of the field set's keys and values in order, and returns the new id, or 0 when the query failed |
| Persistence.DBRow.FieldUpdate | includes/classes/DBRow.php:464-488 | sends an UPDATE of the SET list by id, or nothing (returning true) when the list is empty |
| Persistence.DBRow.SetItemOf | includes/classes/DBRow.php:470-479 | the SET item of one field-set entry |
| Persistence.DBRow.Insert | includes/classes/DBRow.php:265-276 | reports a non-new object; on a field-set exception changes nothing; otherwise sends the INSERT, stores the returned id (0 on failure, reported) as `_dbId` |
| Persistence.DBRow.Update | includes/classes/DBRow.php:282-288 | reports a new object, then sends the UPDATE of the update field set |
| Persistence.DBRow.Delete | includes/classes/DBRow.php:294-301 | sends a DELETE of the current id and sets `_dbId` to 0, so `isNew()` holds afterwards |
| Persistence.DBRow.RowParse | includes/classes/DBRow.php:336-365 | ends in the state Reconstruction.RowParse defines, or throws its exception and keeps what the entries before the throwing one did; adjusted and lockSkip are unchanged |
| Persistence.DBRow.ParseEntry | includes/classes/DBRow.php:337-364 | one loop iteration of `dbRowParse` |
| Persistence.DBRow.Load | includes/classes/DBRow.php:183-205 | a non-positive id is reported and changes nothing; otherwise the id and lockSkip are stored and a SELECT is sent; no row leaves just that; a found row is parsed and lockSkip ends false; a parse exception leaves lockSkip as passed |
| Persistence.DBRow.SaveOwn | includes/classes/DBRow.php:227-243 | the row's own reports and statement are those of Lifecycle (OwnStatement, OwnReports), and `_dbId` becomes the inserted id, or 0 after a delete |
| Persistence.DBRow.Save | includes/classes/DBRow.php:226-253 | the own statement first; then dbSave of every dependent in list order (the objects are entered in preorder); then both tracking maps are cleared; an exception stops the save and clears nothing |
| Persistence.DBRow.Cascade | includes/classes/DBRow.php:245-252 | the dependents are saved in order, then propertiesChanged and propertiesAdjusted are cleared |
| Persistence.DBRow.SaveDependents | includes/classes/DBRow.php:245-249 | the `foreach` over triggerDbOperationOn saves each dependent's tree in turn |
| Persistence.DBRow.SaveAsDependent | includes/classes/DBRow.php:247 | `$item->dbSave()` seen from the cascade |
| EcoBuildData.LabCompare | includes/functions/eco_get_build_data.php:3-6 | the comparator returns -1, 0 or 1 |
| EcoBuildData.LabCompareAntisymmetric | includes/functions/eco_get_build_data.php:3-6 | swapping the arguments negates the result |
| EcoBuildData.LabCompareTransitive | includes/functions/eco_get_build_data.php:3-6 | the comparator's order is transitive |
| EcoBuildData.SortedIsDescending | includes/functions/eco_get_build_data.php:35 | a list sorted with the comparator has descending effective levels, and conversely |
| EcoBuildData.GreedyIsQualifyingPrefix | includes/functions/eco_get_build_data.php:46-60 | the loop sums the first min(TECH_RESEARCH + 1, number qualifying) laboratories with level >= lab_require, in list order |
| EcoBuildData.GreedyBound | includes/functions/eco_get_build_data.php:46-60 | with non-negative effective levels, the sum lies between 0 and the total of all qualifying laboratories |
| EcoBuildData.QualifyingMembers | includes/functions/eco_get_build_data.php:55 | every counted laboratory is in the list and meets the requirement |
| EcoBuildData.QualifyingSorted | includes/functions/eco_get_build_data.php:35-55 | keeping only qualifying laboratories keeps the sorted order |
| EcoBuildData.GreedyTakesMostEffective | includes/functions/eco_get_build_data.php:35-60 | on the sorted list, every laboratory the loop counts is at least as effective as every qualifying one it leaves out |
| EcoBuildData.GreedySum | includes/functions/eco_get_build_data.php:46-60 | the laboratory sum is 0 without budget or without a qualifying laboratory, and is the sum over all qualifying laboratories when the budget covers them all |
| EcoBuildData.SumLabs | includes/functions/eco_get_build_data.php:46-60 | the loop with its `break` computes the greedy sum with budget TECH_RESEARCH + 1 |
| EcoBuildData.StoredLevel | includes/functions/eco_get_build_data.php:96 | the stored level is never 0, and it is the sum whenever the sum is non-zero |
| EcoBuildData.LabCache.MaxEffectiveLevel | includes/functions/eco_get_build_data.php:38-100 | a cached requirement returns its level and changes nothing; otherwise it stores the greedy sum (1 when 0) and returns it; every cached level is non-zero, so the division at line 208 is safe |
| EcoBuildData.FirstUnmet | includes/functions/eco_get_build_data.php:243-250 | a reported requirement lies in the list and is not met |
| EcoBuildData.FirstUnmetSpec | includes/functions/eco_get_build_data.php:243-250 | the first failing requirement is found exactly when some requirement is unmet, and all before it are met |
| EcoBuildData.BuildStatus | includes/functions/eco_get_build_data.php:239-253 | the result is an earlier hook's result (BUILD_ALLOWED when there is none), BUILD_UNIT_BUSY, or BUILD_REQUIRE_NOT_MEET |
| EcoBuildData.BuildStatusCases | includes/functions/eco_get_build_data.php:239-253 | BUILD_ALLOWED exactly when no earlier result refused, the unit is not busy and every requirement is met; an earlier refusal is kept; a busy unit gives BUILD_UNIT_BUSY; an unmet requirement gives BUILD_REQUIRE_NOT_MEET |
| EcoBuildData.CanBuildUnit | includes/functions/eco_get_build_data.php:235-254 | the loop with `break` returns the status BuildStatus defines |
| EcoBuildData.CreateResult | includes/functions/eco_get_build_data.php:189 | an allowed result stays allowed exactly when CAN is non-zero and otherwise becomes BUILD_NO_RESOURCES; any other result is unchanged |
| EcoBuildData.CreateAllowed | includes/functions/eco_get_build_data.php:171-189 | a creation is allowed exactly when the unit is not busy, every requirement is met and at least one can be paid for |
| EcoBuildData.Units | includes/functions/eco_get_build_data.php:260 | a non-array unit list stands for the list holding just that unit |
| EcoBuildData.InQue | includes/functions/eco_get_build_data.php:256-276 | a unit is found only in a non-empty queue string and for a non-empty unit list |
| EcoBuildData.IsBuildsInQue | includes/functions/eco_get_build_data.php:256-276 | the loop with `break` is true exactly when some truthy `;`-item has a first `,`-component that loosely equals a listed unit |
| EcoBuildData.EmptyQueueIdle | includes/functions/eco_get_build_data.php:256-276 | an empty queue string holds nothing |
| EcoBuildData.DecimalHasNo | includes/functions/eco_get_build_data.php:261-266 | a rendered integer holds no separator |
| EcoBuildData.RenderItemReads | includes/functions/eco_get_build_data.php:264-267 | a rendered `id,amount` is truthy, holds no `;`, and its unit reads back as id |
| EcoBuildData.QueRoundTrip | includes/functions/eco_get_build_data.php:256-276 | a queue string written from entries holds a listed unit exactly when one of the entries has such an id |

## Left out

- SQL text, escaping and the safety flag (`sn_db_field_set_is_safe`, `make_safe`, `safe_flag_clear`): their code is not part of this model. Statements are kept as their parts; a value's SQL literal is a caller-supplied function.
- `doquery`, `classSupernova::db_query`, `db_insert_id` and `sn_db_transaction_check` are foreign calls. They are modelled as fixed functions of the statement log, and the transaction state is a constant of the connection.
- The debug sink is modelled as a list of reports; message texts are left out.
- `idval` is foreign: `dbLoad` receives the id already as an integer.
- `dbGetLockById` is abstract and its only call sits behind `false &&`, so it is never reached.
- `isEmpty()` is abstract in the class: it is a function of the object's slots, supplied per object.
- Method-name case-insensitivity of PHP is left out: descriptor methods are optional functions, not names looked up at run time.
- Custom methods see only the object's `_<name>` slots. Only extract methods, `P_METHOD_SET` methods and `set<Name>` setters can change them. Getters, inject methods and output methods return a value or a field set and leave the slots as they are, so a getter or output method with side effects (one that caches into `_<name>`, say) is not modelled. A custom method that touches propertiesChanged, propertiesAdjusted or other objects is not modelled either.
- PHP strings are byte strings, and under PHP 5/7 `ucfirst`/`lcfirst` follow the current locale. The model uses Dafny characters and ASCII case mapping.
- A queue unit id beyond the 64-bit integer range becomes a float in PHP. `LeadingInt` reads it as an unbounded integer.
- `triggerDbOperationOn` is fixed at construction and forms a tree of distinct objects, which makes the cascade terminate; a shared or cyclic dependent is not modelled.
- PHP's loose comparison of a string with a number is modelled by the leading-integer reading of PHP 5/7; floats and exponents in numeric strings are not modelled, and PHP 8's comparison rules are not modelled.
- The emptiness of a descriptor array is modelled as all options absent (`IsBlank`); a descriptor holding only empty values is not distinguished from an absent one.
- The cost and time arithmetic of `eco_get_build_data` (powers, divisions, `floor`, exchange rates, game speed) is floating point and left out; only line 189 is modelled, with `CAN[BUILD_CREATE]` as an integer input.
- The discovery of active laboratories (lines 18-36: the planet query, `mrc_get_level`, the `uasort` call) is left out; the sorted laboratory list is an input.
- The alliance branch of `eco_get_lab_max_effective_level` (lines 40-43) reads a value from the database and is left out; `LabCache.MaxEffectiveLevel` models the branch for a user who is not an alliance.
- `sn_eco_unit_busy`, `que_get_que` and the `sn_function_call` hook wrappers are configuration and queue plumbing over foreign calls; whether a unit is busy is an input, and a hook's earlier result is an optional input.
- The commented-out code of `eco_get_build_data.php` (lines 62-94 and 172-188) is not modelled.
- EcoBuildData.GreedyBound: requires non-negative effective levels; the source computes them as `level * 2^nano`, which is never negative for non-negative levels.
- Persistence.DBRow.Save: states that the object itself ends with propertiesChanged and propertiesAdjusted cleared, and the order in which every object of the tree was saved; it does not state that every dependent ends cleared.
- Accessors.Call: assumes that every property of the scheme has its protected `_<name>` field declared on the class, as the class comment asks (DBRow.php:17-19). An absent slot reads as null and a write always lands in the slot. In the source a read of an undeclared `_<name>` goes through `__get` to `__call('get_<name>')`, and a write through `__set` to `__call('set_<name>')`; both throw ExceptionPropertyNotExists for `_<name>`, and on the set path only after line 151 has already recorded the property in propertiesChanged. That throw, and the change it leaves behind, are not modelled.
- A `P_METHOD_*` entry naming a method the class does not declare is not modelled: a descriptor option is either absent or an existing method. Because the class defines `__call`, `is_callable` holds for such a name, and the call is routed to `__call` and throws ExceptionPropertyNotExists instead of being skipped.
- Persistence.DBRow.SaveOwn: states only that the reports begin with those of the row's own branch; the further report `dbInsert` makes when no id came back is stated by Persistence.DBRow.Insert.
