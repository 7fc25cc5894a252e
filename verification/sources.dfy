/** Stream sources: the keys or values of a map, optionally filtered by
    the other component, and the infinite `iterate` stream read through a
    bounded prefix. A source map is an association list whose order is
    the map's iteration order. */
module Sources {
  import opened Seqs

  /** The entries of a `java.util.Map`: no key occurs twice. */
  predicate IsMap<K(==), V>(m: seq<(K, V)>)
  {
    forall i, j :: 0 <= i < j < |m| ==> m[i].0 != m[j].0
  }

  /** The lookup table the association list denotes. */
  function AsMap<K(==), V>(m: seq<(K, V)>): (r: map<K, V>)
    ensures forall i :: 0 <= i < |m| ==> m[i].0 in r
    ensures forall k :: k in r ==> exists i :: 0 <= i < |m| && m[i].0 == k
  {
    if |m| == 0 then map[]
    else
      var rest := AsMap(m[1..]);
      assert forall k :: k in rest ==> exists i :: 0 <= i < |m| && m[i].0 == k by {
        forall k | k in rest ensures exists i :: 0 <= i < |m| && m[i].0 == k {
          var i :| 0 <= i < |m[1..]| && m[1..][i].0 == k;
          assert m[i + 1].0 == k;
        }
      }
      rest[m[0].0 := m[0].1]
  }

  /** In a map every entry is what its key looks up. */
  lemma {:induction false} AsMapLookup<K, V>(m: seq<(K, V)>)
    requires IsMap(m)
    ensures forall i :: 0 <= i < |m| ==> AsMap(m)[m[i].0] == m[i].1
  {
    if |m| > 0 {
      AsMapLookup(m[1..]);
      forall i | 0 < i < |m| ensures AsMap(m)[m[i].0] == m[i].1 {
        assert m[i] == m[1..][i - 1];
      }
    }
  }

  function EntryKey<K, V>(e: (K, V)): K
  {
    e.0
  }

  function EntryValue<K, V>(e: (K, V)): V
  {
    e.1
  }

  /** `ofKeys(map)`: `map.keySet().stream()`. */
  function OfKeys<K, V>(m: seq<(K, V)>): (r: seq<K>)
    ensures |r| == |m|
    ensures forall i :: 0 <= i < |m| ==> r[i] == m[i].0
  {
    Map(m, EntryKey)
  }

  /** `ofValues(map)`: `map.values().stream()`. */
  function OfValues<K, V>(m: seq<(K, V)>): (r: seq<V>)
    ensures |r| == |m|
    ensures forall i :: 0 <= i < |m| ==> r[i] == m[i].1
  {
    Map(m, EntryValue)
  }

  /** The test of `ofKeys(map, valueFilter)` on one entry. */
  function ValuePasses<K, V>(valueFilter: V -> bool): ((K, V)) -> bool
  {
    (e: (K, V)) => valueFilter(e.1)
  }

  /** The test of `ofValues(map, keyFilter)` on one entry. */
  function KeyPasses<K, V>(keyFilter: K -> bool): ((K, V)) -> bool
  {
    (e: (K, V)) => keyFilter(e.0)
  }

  /** `ofKeys(map, valueFilter)`: the keys whose value passes the
      filter, in map iteration order. */
  function OfKeysWhere<K(==), V(==)>(m: seq<(K, V)>, valueFilter: V -> bool): (r: seq<K>)
    ensures forall j :: 0 <= j < |r| ==> exists i :: 0 <= i < |m| && m[i].0 == r[j] && valueFilter(m[i].1)
    ensures forall i :: 0 <= i < |m| && valueFilter(m[i].1) ==> m[i].0 in r
    ensures IsSubsequence(r, OfKeys(m))
    ensures |r| == |Filter(OfValues(m), valueFilter)|
  {
    var passing := Filter(m, ValuePasses(valueFilter));
    FilteredEntryValues(m, valueFilter);
    FilterKeepsOrder(m, ValuePasses(valueFilter));
    MapSubsequence(passing, m, EntryKey);
    MapFilterMembers(m, ValuePasses(valueFilter), EntryKey);
    Map(passing, EntryKey)
  }

  /** `ofValues(map, keyFilter)`: the values whose key passes the
      filter, in map iteration order. */
  function OfValuesWhere<K(==), V(==)>(m: seq<(K, V)>, keyFilter: K -> bool): (r: seq<V>)
    ensures forall j :: 0 <= j < |r| ==> exists i :: 0 <= i < |m| && m[i].1 == r[j] && keyFilter(m[i].0)
    ensures forall i :: 0 <= i < |m| && keyFilter(m[i].0) ==> m[i].1 in r
    ensures IsSubsequence(r, OfValues(m))
    ensures |r| == |Filter(OfKeys(m), keyFilter)|
  {
    var passing := Filter(m, KeyPasses(keyFilter));
    FilteredEntryKeys(m, keyFilter);
    FilterKeepsOrder(m, KeyPasses(keyFilter));
    MapSubsequence(passing, m, EntryValue);
    MapFilterMembers(m, KeyPasses(keyFilter), EntryValue);
    Map(passing, EntryValue)
  }

  /** The keys of a map are distinct and are exactly its lookup keys. */
  lemma OfKeysAreKeySet<K, V>(m: seq<(K, V)>)
    requires IsMap(m)
    ensures Distinct(OfKeys(m))
    ensures forall k :: k in AsMap(m) <==> k in OfKeys(m)
  {
  }

  /** The filtered keys of a map are distinct and are exactly the keys
      whose looked-up value passes the filter. */
  lemma OfKeysWhereLookup<K, V>(m: seq<(K, V)>, valueFilter: V -> bool)
    requires IsMap(m)
    ensures Distinct(OfKeysWhere(m, valueFilter))
    ensures forall k :: k in OfKeysWhere(m, valueFilter) <==> k in AsMap(m) && valueFilter(AsMap(m)[k])
  {
    var r := OfKeysWhere(m, valueFilter);
    OfKeysAreKeySet(m);
    SubsequenceDistinct(r, OfKeys(m));
    AsMapLookup(m);
    forall k | k in r ensures k in AsMap(m) && valueFilter(AsMap(m)[k]) {
      var j :| 0 <= j < |r| && r[j] == k;
    }
    forall k | k in AsMap(m) && valueFilter(AsMap(m)[k]) ensures k in r {
      var i :| 0 <= i < |m| && m[i].0 == k;
    }
  }

  /** The keys of the entries whose key passes a filter are the filtered
      keys, in the same order and with the same multiplicities. */
  lemma {:induction false} FilteredEntryKeys<K, V>(m: seq<(K, V)>, keyFilter: K -> bool)
    ensures Map(Filter(m, KeyPasses(keyFilter)), EntryKey) == Filter(OfKeys(m), keyFilter)
  {
    if |m| > 0 {
      FilteredEntryKeys(m[1..], keyFilter);
      assert OfKeys(m) == [m[0].0] + OfKeys(m[1..]);
      var passing := Filter(m, KeyPasses(keyFilter));
      var rest := Filter(m[1..], KeyPasses(keyFilter));
      if keyFilter(m[0].0) {
        assert passing == [m[0]] + rest;
        MapAppend([m[0]], rest, EntryKey);
      } else {
        assert passing == rest;
      }
    }
  }

  /** The values of the entries whose value passes a filter are the
      filtered values, in the same order and with the same multiplicities. */
  lemma {:induction false} FilteredEntryValues<K, V>(m: seq<(K, V)>, valueFilter: V -> bool)
    ensures Map(Filter(m, ValuePasses(valueFilter)), EntryValue) == Filter(OfValues(m), valueFilter)
  {
    if |m| > 0 {
      FilteredEntryValues(m[1..], valueFilter);
      assert OfValues(m) == [m[0].1] + OfValues(m[1..]);
      var passing := Filter(m, ValuePasses(valueFilter));
      var rest := Filter(m[1..], ValuePasses(valueFilter));
      if valueFilter(m[0].1) {
        assert passing == [m[0]] + rest;
        MapAppend([m[0]], rest, EntryValue);
      } else {
        assert passing == rest;
      }
    }
  }

  /** The filtered values of a map are, in map iteration order, the
      looked-up values of the keys that pass the filter. */
  lemma {:induction false} OfValuesWhereLookup<K, V>(m: seq<(K, V)>, keyFilter: K -> bool)
    requires IsMap(m)
    ensures var keys := Filter(OfKeys(m), keyFilter);
            var values := OfValuesWhere(m, keyFilter);
            |values| == |keys| &&
            forall j :: 0 <= j < |values| ==> keys[j] in AsMap(m) && values[j] == AsMap(m)[keys[j]]
  {
    var passing := Filter(m, KeyPasses(keyFilter));
    var keys := Filter(OfKeys(m), keyFilter);
    var values := OfValuesWhere(m, keyFilter);
    assert values == Map(passing, EntryValue);
    FilteredEntryKeys(m, keyFilter);
    forall j | 0 <= j < |values| ensures keys[j] in AsMap(m) && values[j] == AsMap(m)[keys[j]] {
      LookupEntry(m, passing[j]);
    }
  }

  /** Any entry of a map is found by looking up its key. */
  lemma {:induction false} LookupEntry<K, V>(m: seq<(K, V)>, e: (K, V))
    requires IsMap(m) && e in m
    ensures e.0 in AsMap(m) && AsMap(m)[e.0] == e.1
  {
    var i :| 0 <= i < |m| && m[i] == e;
    AsMapLookup(m);
  }

  /** With a filter that accepts everything the filtered forms are the plain ones. */
  lemma {:induction false} FilterAcceptingAll<K, V>(m: seq<(K, V)>)
    ensures OfKeysWhere(m, (v: V) => true) == OfKeys(m)
    ensures OfValuesWhere(m, (k: K) => true) == OfValues(m)
  {
    FilterAll(m, ValuePasses((v: V) => true));
    FilterAll(m, KeyPasses((k: K) => true));
  }

  /** Element `n` of `iterate(seed, f)`: `seed` for 0, then `f` of the previous element. */
  function IterateAt<T>(seed: T, f: T -> T, n: nat): (r: T)
    ensures n == 0 ==> r == seed
    ensures n > 0 ==> r == IterateAt(f(seed), f, n - 1)
  {
    if n == 0 then seed else f(IterateAt(seed, f, n - 1))
  }

  /** Starting one step later shifts every element by one. */
  lemma {:induction false} IterateShift<T>(seed: T, f: T -> T, n: nat)
    ensures IterateAt(f(seed), f, n) == IterateAt(seed, f, n + 1)
  {
    if n > 0 {
      IterateShift(seed, f, n - 1);
    }
  }

  /** `iterate(seed, f).limit(n)`: the first pull yields `seed`, every
      later pull applies `f` to what the previous pull yielded. */
  function IterateLimit<T>(seed: T, f: T -> T, n: nat): (r: seq<T>)
    ensures |r| == n
    ensures n > 0 ==> r[0] == seed
    ensures forall i :: 0 <= i < n - 1 ==> r[i + 1] == f(r[i])
    ensures forall i :: 0 <= i < n ==> r[i] == IterateAt(seed, f, i)
  {
    if n == 0 then []
    else
      var rest := IterateLimit(f(seed), f, n - 1);
      assert forall i :: 1 <= i < n ==> rest[i - 1] == IterateAt(seed, f, i) by {
        forall i | 1 <= i < n ensures rest[i - 1] == IterateAt(seed, f, i) {
          IterateShift(seed, f, i - 1);
        }
      }
      [seed] + rest
  }

  /** A shorter bound reads a prefix of a longer one. */
  lemma IterateLimitPrefix<T>(seed: T, f: T -> T, n: nat, k: nat)
    ensures IterateLimit(seed, f, n) == IterateLimit(seed, f, n + k)[..n]
  {
  }
}
