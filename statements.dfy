/**
 * What the row layer sends to the database and to the diagnostics sink. SQL text is
 * abstracted to the statement's parts; escaping of values is left to a `literal`
 * function supplied by the caller.
 */
module Statements {
  import opened PhpValues
  import PhpStrings

  /** One entry of an UPDATE's SET clause. */
  datatype SetItem =
    | Assign(field: string, value: Value)      // `f` = v
    | Increment(field: string, value: Value)   // `f` = `f` + (v)
  {
    function Field(): string { match this case Assign(f, _) => f case Increment(f, _) => f }
  }

  datatype Stmt =
    | Insert(fields: seq<string>, values: seq<Value>)   // INSERT INTO t (fields) VALUES (values)
    | Update(items: seq<SetItem>, id: Value)             // UPDATE t SET ... WHERE id = ...
    | Delete(id: Value)                                 // DELETE FROM t WHERE id = ...
    | Select(id: Value)                                 // SELECT * ... WHERE id = ... LIMIT 1 FOR UPDATE

  /** The non-fatal reports sent to `classSupernova::$debug->error`. */
  datatype Diag =
    | LoadIdNotPositive(id: int)   // dbLoad with $dbId <= 0
    | EmptyOnInsert                // dbSave of a new, empty object
    | NoTransaction                // dbSave update outside a transaction
    | InsertNotNew                 // dbInsert on an object that has an id
    | InsertFailed                 // dbInsert got no id back
    | UpdateOnNew                  // dbUpdate on an object without an id
    | DeleteOnNew                  // dbDelete on an object without an id

  /** The text of one SET entry, given how a value is written as an SQL literal. */
  function RenderItem(item: SetItem, literal: Value -> string): (s: string)
    ensures |s| > 0
  {
    match item
    case Assign(f, v) => "`" + f + "` = " + literal(v)
    case Increment(f, v) => "`" + f + "` = `" + f + "` + (" + literal(v) + ")"
  }

  function RenderItems(items: seq<SetItem>, literal: Value -> string): (r: seq<string>)
    ensures |r| == |items| && forall i :: 0 <= i < |items| ==> r[i] == RenderItem(items[i], literal)
  {
    if items == [] then [] else [RenderItem(items[0], literal)] + RenderItems(items[1..], literal)
  }

  /** `implode(',', $set)`. */
  function SetString(items: seq<SetItem>, literal: Value -> string): string
  {
    PhpStrings.Join(RenderItems(items, literal), ',')
  }

  /**
   * `db_field_update` tests `empty($set_string)`; since every rendered entry is
   * non-empty, that is the same as the SET list being empty.
   */
  lemma SetStringEmpty(items: seq<SetItem>, literal: Value -> string)
    ensures SetString(items, literal) == "" <==> items == []
    ensures SetString(items, literal) != "0"
  {
    var r := RenderItems(items, literal);
    PhpStrings.JoinIsEmpty(r, ',');
    if items != [] {
      assert r[0][0] == '`';
      if |r| == 1 {
        assert SetString(items, literal) == r[0];
      } else {
        assert SetString(items, literal) == r[0] + [','] + PhpStrings.Join(r[1..], ',');
        assert SetString(items, literal)[0] == '`';
      }
    }
  }
}
