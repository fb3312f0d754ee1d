/**
 * The few PHP value semantics the queue worker relies on: truthiness of strings,
 * of nullable values and of arrays, and assignment into a keyed array.
 */
module PhpValues {
  import opened Wrappers

  /** A PHP string is falsy when it is "" or "0"; `if ($s)` and `!empty($s)` both test this. */
  predicate StringTruthy(s: string) {
    s != "" && s != "0"
  }

  /** A value that may be NULL (or read from a missing key) is truthy only when present and truthy. */
  predicate NullableStringTruthy(s: Option<string>) {
    s.Some? && StringTruthy(s.value)
  }

  /** A PHP array read from a possibly missing key is truthy only when present and non-empty. */
  predicate ArrayTruthy<T>(xs: Option<seq<T>>) {
    xs.Some? && |xs.value| > 0
  }

  /** An ordered PHP array with keys of type K: a list of key/value pairs in insertion order. */
  type KeyedArray<K, V> = seq<(K, V)>

  function Keys<K, V>(m: KeyedArray<K, V>): (ks: seq<K>)
    ensures |ks| == |m|
    ensures forall i :: 0 <= i < |m| ==> ks[i] == m[i].0
  {
    if m == [] then [] else [m[0].0] + Keys(m[1..])
  }

  /** No element occurs twice. */
  predicate Distinct<T(==)>(xs: seq<T>) {
    forall i, j :: 0 <= i < j < |xs| ==> xs[i] != xs[j]
  }

  /** PHP never holds the same key twice in one array. */
  predicate DistinctKeys<K(==), V>(m: KeyedArray<K, V>) {
    Distinct(Keys(m))
  }

  /** `$m[$k]`, NULL (None) when the key is absent. */
  function Lookup<K(==), V>(m: KeyedArray<K, V>, k: K): (r: Option<V>)
    ensures r.Some? <==> k in Keys(m)
  {
    if m == [] then None
    else if m[0].0 == k then Some(m[0].1)
    else Lookup(m[1..], k)
  }

  lemma DistinctKeysTail<K, V>(m: KeyedArray<K, V>)
    requires m != [] && DistinctKeys(m)
    ensures DistinctKeys(m[1..]) && m[0].0 !in Keys(m[1..])
  {
    forall i, j | 0 <= i < j < |m[1..]| ensures m[1..][i].0 != m[1..][j].0 {
      assert m[1..][i] == m[i + 1] && m[1..][j] == m[j + 1];
    }
    forall i | 0 <= i < |m[1..]| ensures Keys(m[1..])[i] != m[0].0 {
      assert m[1..][i] == m[i + 1];
    }
  }

  /**
   * `$m[$k] = $v`: an existing key keeps its position and takes the new value;
   * a new key is appended at the end.
   */
  function Put<K(==), V>(m: KeyedArray<K, V>, k: K, v: V): (r: KeyedArray<K, V>)
    requires DistinctKeys(m)
    ensures DistinctKeys(r)
    ensures Keys(r) == if k in Keys(m) then Keys(m) else Keys(m) + [k]
  {
    if m == [] then [(k, v)]
    else if m[0].0 == k then
      DistinctKeysTail(m);
      [(k, v)] + m[1..]
    else
      DistinctKeysTail(m);
      var rest := Put(m[1..], k, v);
      assert Keys([m[0]] + rest) == [m[0].0] + Keys(rest);
      [m[0]] + rest
  }

  /** After `$m[$k] = $v`, `$m[$k]` is `$v` and every other key reads as before. */
  lemma {:induction false} LookupPut<K, V>(m: KeyedArray<K, V>, k: K, v: V, k': K)
    requires DistinctKeys(m)
    ensures Lookup(Put(m, k, v), k') == if k' == k then Some(v) else Lookup(m, k')
  {
    if m != [] && m[0].0 != k {
      DistinctKeysTail(m);
      LookupPut(m[1..], k, v, k');
    }
  }
}
