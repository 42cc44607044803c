/**
 * PHP's insertion-ordered arrays with string keys, as sequences of key/value pairs whose
 * keys are distinct. Assigning to a key that is already present keeps its position;
 * assigning to a new key appends it.
 */
module PhpArrays {
  import opened Wrappers

  type Pairs<V> = seq<(string, V)>

  function Keys<V>(a: Pairs<V>): seq<string>
  {
    seq(|a|, i requires 0 <= i < |a| => a[i].0)
  }

  function Values<V>(a: Pairs<V>): seq<V>
  {
    seq(|a|, i requires 0 <= i < |a| => a[i].1)
  }

  /** No key occurs twice: every PHP array has this shape. */
  predicate UniqueKeys<V>(a: Pairs<V>)
  {
    forall i, j :: 0 <= i < j < |a| ==> a[i].0 != a[j].0
  }

  /** `$a[$k]` when `array_key_exists($k, $a)`, else None. */
  function Get<V>(a: Pairs<V>, k: string): Option<V>
  {
    if a == [] then None
    else if a[0].0 == k then Some(a[0].1)
    else Get(a[1..], k)
  }

  /** A key reads as absent exactly when it is not among the keys. */
  lemma {:induction false} GetNone<V>(a: Pairs<V>, k: string)
    ensures Get(a, k).None? <==> k !in Keys(a)
  {
    if a != [] {
      KeysCons(a[0], a[1..]);
      assert [a[0]] + a[1..] == a;
      if a[0].0 != k {
        GetNone(a[1..], k);
      }
    }
  }

  /** In an array with distinct keys, the key at position `i` reads the value at `i`. */
  lemma {:induction false} GetAt<V>(a: Pairs<V>, i: int)
    requires UniqueKeys(a) && 0 <= i < |a|
    ensures Get(a, a[i].0) == Some(a[i].1)
  {
    if i > 0 {
      assert a[1..][i - 1] == a[i];
      GetAt(a[1..], i - 1);
    }
  }

  lemma KeysCons<V>(x: (string, V), a: Pairs<V>)
    ensures Keys([x] + a) == [x.0] + Keys(a)
  {
  }

  /** `$a[$k] = $v`. */
  function Put<V>(a: Pairs<V>, k: string, v: V): Pairs<V>
  {
    if a == [] then [(k, v)]
    else if a[0].0 == k then [(k, v)] + a[1..]
    else [a[0]] + Put(a[1..], k, v)
  }

  /** Assignment keeps the position of a present key and appends a new one. */
  lemma {:induction false} PutKeys<V>(a: Pairs<V>, k: string, v: V)
    ensures Keys(Put(a, k, v)) == if k in Keys(a) then Keys(a) else Keys(a) + [k]
  {
    if a != [] {
      KeysCons(a[0], a[1..]);
      assert [a[0]] + a[1..] == a;
      if a[0].0 == k {
        KeysCons((k, v), a[1..]);
      } else {
        PutKeys(a[1..], k, v);
        KeysCons(a[0], Put(a[1..], k, v));
      }
    }
  }

  /** After `$a[$k] = $v`, `$a[$k]` is `$v` and every other key reads as before. */
  lemma {:induction false} GetPut<V>(a: Pairs<V>, k: string, v: V, k': string)
    ensures Get(Put(a, k, v), k') == if k' == k then Some(v) else Get(a, k')
  {
    if a != [] && a[0].0 != k {
      GetPut(a[1..], k, v, k');
      assert Put(a, k, v)[1..] == Put(a[1..], k, v);
    } else if a != [] {
      assert Put(a, k, v)[1..] == a[1..];
    }
  }

  /** Assignment keeps the keys distinct. */
  lemma PutUnique<V>(a: Pairs<V>, k: string, v: V)
    requires UniqueKeys(a)
    ensures UniqueKeys(Put(a, k, v))
  {
    var r := Put(a, k, v);
    PutKeys(a, k, v);
    forall i, j | 0 <= i < j < |r| ensures r[i].0 != r[j].0 {
      assert Keys(r)[i] == r[i].0 && Keys(r)[j] == r[j].0;
      if k !in Keys(a) && j == |a| {
        assert Keys(a)[i] == r[i].0;
      } else {
        assert Keys(a)[i] == r[i].0 && Keys(a)[j] == r[j].0;
      }
    }
  }
}
