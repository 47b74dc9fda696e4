/**
 * Enumerating a C# Dictionary. `new List<T>(dict.Keys)` and
 * `new List<T>(dict.Values)` list the entries in an order the language does
 * not specify; the model lets that order be arbitrary and proves what does
 * not depend on it.
 */
module Enumeration {

  predicate Distinct<T(==)>(s: seq<T>)
  {
    forall i, j :: 0 <= i < j < |s| ==> s[i] != s[j]
  }

  /** A distinct sequence has as many elements as the set of its members. */
  lemma {:induction false} DistinctCardinality<T>(s: seq<T>)
    requires Distinct(s)
    ensures |set x | x in s| == |s|
  {
    if s != [] {
      var rest := s[1..];
      DistinctCardinality(rest);
      assert (set x | x in s) == {s[0]} + (set x | x in rest);
      assert s[0] !in rest;
    }
  }

  /** A fixed but unspecified key of a non-empty map. */
  ghost function PickKey<K, V>(m: map<K, V>): (k: K)
    requires m != map[]
    ensures k in m
  {
    assert m.Keys != {};
    var k :| k in m; k
  }

  /** The values of a map, one per key, listed in some fixed order. */
  ghost function ValuesSeq<K, V>(m: map<K, V>): (vs: seq<V>)
    ensures |vs| == |m|
    decreases |m|
  {
    if m == map[] then []
    else
      var k := PickKey(m);
      assert (m - {k}).Keys == m.Keys - {k};
      [m[k]] + ValuesSeq(m - {k})
  }

  /** Removing a key: one entry fewer when the key was there, no change otherwise. */
  lemma RemoveKey<K, V>(m: map<K, V>, k: K)
    ensures k in m ==> |m - {k}| == |m| - 1
    ensures k !in m ==> m - {k} == m
  {
    assert (m - {k}).Keys == m.Keys - {k};
    if k !in m {
      assert m.Keys - {k} == m.Keys;
    }
  }

  /** Whichever key is taken out first, the values left over are the same multiset. */
  lemma {:induction false} ValuesRemove<K, V>(m: map<K, V>, k: K)
    requires k in m
    ensures multiset(ValuesSeq(m)) == multiset{m[k]} + multiset(ValuesSeq(m - {k}))
    decreases |m|
  {
    var j := PickKey(m);
    assert (m - {j}).Keys == m.Keys - {j};
    if j != k {
      var mj, mk := m - {j}, m - {k};
      assert (mj - {k}) == (mk - {j});
      assert (mk).Keys == m.Keys - {k};
      ValuesRemove(mj, k);
      ValuesRemove(mk, j);
      assert mj[k] == m[k] && mk[j] == m[j];
    }
  }

  /** The values found at the listed keys, in the order listed. */
  function ValuesAt<K, V>(m: map<K, V>, keys: seq<K>): (vs: seq<V>)
    requires forall k :: k in keys ==> k in m
    ensures |vs| == |keys|
  {
    seq(|keys|, i requires 0 <= i < |keys| => m[keys[i]])
  }

  /** Dropping the first key of a distinct enumeration leaves an enumeration of the rest of the map. */
  lemma TailEnumerates<K, V>(m: map<K, V>, keys: seq<K>)
    requires keys != [] && Distinct(keys) && (set k | k in keys) == m.Keys
    ensures Distinct(keys[1..]) && (set k | k in keys[1..]) == (m - {keys[0]}).Keys
  {
    var k := keys[0];
    forall x | x in keys[1..] ensures x != k {
      var i :| 0 <= i < |keys[1..]| && keys[1..][i] == x;
      assert keys[i + 1] == x;
    }
    assert keys == [k] + keys[1..];
  }

  /** The first listed value, then the values at the remaining keys of the smaller map. */
  lemma ValuesAtCons<K, V>(m: map<K, V>, keys: seq<K>)
    requires keys != [] && Distinct(keys) && forall k :: k in keys ==> k in m
    ensures forall k :: k in keys[1..] ==> k in m - {keys[0]}
    ensures ValuesAt(m, keys) == [m[keys[0]]] + ValuesAt(m - {keys[0]}, keys[1..])
  {
    var k, tail := keys[0], keys[1..];
    forall x | x in tail ensures x in m - {k} {
      var i :| 0 <= i < |tail| && tail[i] == x;
      assert keys[i + 1] == x;
    }
    var lhs, rhs := ValuesAt(m, keys), [m[k]] + ValuesAt(m - {k}, tail);
    forall i | 0 <= i < |keys| ensures lhs[i] == rhs[i] {
      if i > 0 { assert tail[i - 1] == keys[i]; }
    }
  }

  /** Listing the values along any enumeration of the keys gives the same multiset as ValuesSeq. */
  lemma {:induction false} ValuesAtEnumeration<K, V>(m: map<K, V>, keys: seq<K>)
    requires Distinct(keys) && (set k | k in keys) == m.Keys
    ensures multiset(ValuesAt(m, keys)) == multiset(ValuesSeq(m))
    decreases |keys|
  {
    if keys == [] {
      assert m.Keys == {};
      assert m == map[];
    } else {
      var k := keys[0];
      var rest := m - {k};
      TailEnumerates(m, keys);
      ValuesAtEnumeration(rest, keys[1..]);
      ValuesRemove(m, k);
      ValuesAtCons(m, keys);
    }
  }

  /**
   * `new List<K>(dict.Keys)`: every key once, in an order the caller cannot rely on
   * (each step takes any key not yet listed).
   */
  method KeysOf<K, V>(m: map<K, V>) returns (keys: seq<K>)
    ensures Distinct(keys)
    ensures (set k | k in keys) == m.Keys
    ensures |keys| == |m|
  {
    keys := [];
    var rest := m.Keys;
    while rest != {}
      invariant Distinct(keys)
      invariant (set k | k in keys) + rest == m.Keys
      invariant forall k :: k in keys ==> k !in rest
      decreases rest
    {
      var k :| k in rest;
      keys := keys + [k];
      rest := rest - {k};
    }
    DistinctCardinality(keys);
  }

  /**
   * `new List<V>(dict.Values)`: every value once per key, in an unspecified order,
   * which is a permutation of ValuesSeq.
   */
  method ValuesOf<K, V>(m: map<K, V>) returns (values: seq<V>)
    ensures multiset(values) == multiset(ValuesSeq(m))
  {
    var keys := KeysOf(m);
    values := ValuesAt(m, keys);
    ValuesAtEnumeration(m, keys);
  }
}
