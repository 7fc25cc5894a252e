/** The collecting terminal operations: `toMap`, which fails on a repeated
    key, and `groupingBy`, which gathers elements that share a key. Both
    are the sequential collectors; the result map is a Dafny `map`. */
module Collect {
  import opened Wrappers
  import opened Seqs
  import opened StreamEx
  import opened Sources

  /** The `IllegalStateException` that `toMap` throws on a repeated key. */
  datatype CollectError<K> = DuplicateKey(key: K)

  /** Two elements of `s` produce the key `k`. */
  predicate KeyRepeated<T, K(==)>(s: seq<T>, keyMapper: T -> K, k: K)
  {
    exists i, j :: 0 <= i < j < |s| && keyMapper(s[i]) == k && keyMapper(s[j]) == k
  }

  /** Two elements of `s` produce the same key. */
  predicate HasDuplicateKey<T, K(==)>(s: seq<T>, keyMapper: T -> K)
  {
    exists i, j :: 0 <= i < j < |s| && keyMapper(s[i]) == keyMapper(s[j])
  }

  /** A repeated key either repeats the first element's key or lies in the rest. */
  lemma DuplicateKeyCons<T, K>(s: seq<T>, keyMapper: T -> K)
    requires |s| > 0
    ensures HasDuplicateKey(s, keyMapper)
        <==> keyMapper(s[0]) in Image(s[1..], keyMapper) || HasDuplicateKey(s[1..], keyMapper)
  {
    if HasDuplicateKey(s, keyMapper) {
      var i, j :| 0 <= i < j < |s| && keyMapper(s[i]) == keyMapper(s[j]);
      if i == 0 {
        assert keyMapper(s[1..][j - 1]) == keyMapper(s[0]);
      } else {
        assert keyMapper(s[1..][i - 1]) == keyMapper(s[1..][j - 1]);
      }
    }
    if keyMapper(s[0]) in Image(s[1..], keyMapper) {
      ImageWitness(s[1..], keyMapper, keyMapper(s[0]));
      var j :| 0 <= j < |s[1..]| && keyMapper(s[1..][j]) == keyMapper(s[0]);
      assert keyMapper(s[0]) == keyMapper(s[j + 1]);
    }
    if HasDuplicateKey(s[1..], keyMapper) {
      var i, j :| 0 <= i < j < |s[1..]| && keyMapper(s[1..][i]) == keyMapper(s[1..][j]);
      assert keyMapper(s[i + 1]) == keyMapper(s[j + 1]);
    }
  }

  /** A key repeated in the rest, or the first key met again, is repeated in `s`. */
  lemma KeyRepeatedCons<T, K>(s: seq<T>, keyMapper: T -> K, k: K)
    requires |s| > 0
    requires KeyRepeated(s[1..], keyMapper, k) || (k == keyMapper(s[0]) && k in Image(s[1..], keyMapper))
    ensures KeyRepeated(s, keyMapper, k)
  {
    if KeyRepeated(s[1..], keyMapper, k) {
      var i, j :| 0 <= i < j < |s[1..]| && keyMapper(s[1..][i]) == k && keyMapper(s[1..][j]) == k;
      assert keyMapper(s[i + 1]) == k && keyMapper(s[j + 1]) == k;
    } else {
      ImageWitness(s[1..], keyMapper, k);
      var j :| 0 <= j < |s[1..]| && keyMapper(s[1..][j]) == k;
      assert keyMapper(s[0]) == k && keyMapper(s[j + 1]) == k;
    }
  }

  /** The sequential `toMap` accumulator: each element is merged into
      `acc`, and merging a key that is already present throws. */
  function Accumulate<T, K(==), V>(s: seq<T>, keyMapper: T -> K, valueMapper: T -> V,
                                   acc: map<K, V>): (r: Result<map<K, V>, CollectError<K>>)
    ensures r.Failure? ==> r.error.key in Image(s, keyMapper)
    ensures r.Success? ==> acc.Keys <= r.value.Keys
    decreases |s|
  {
    if |s| == 0 then Success(acc)
    else
      var k := keyMapper(s[0]);
      if k in acc then Failure(DuplicateKey(k))
      else Accumulate(s[1..], keyMapper, valueMapper, acc[k := valueMapper(s[0])])
  }

  /** Accumulation succeeds exactly when no key repeats and no key is already present. */
  lemma {:induction false} AccumulateSucceeds<T, K, V>(s: seq<T>, keyMapper: T -> K, valueMapper: T -> V,
                                                      acc: map<K, V>)
    ensures Accumulate(s, keyMapper, valueMapper, acc).Success?
        <==> !HasDuplicateKey(s, keyMapper) && Image(s, keyMapper) !! acc.Keys
    decreases |s|
  {
    if |s| > 0 {
      var k := keyMapper(s[0]);
      DuplicateKeyCons(s, keyMapper);
      if k !in acc {
        AccumulateSucceeds(s[1..], keyMapper, valueMapper, acc[k := valueMapper(s[0])]);
      }
    }
  }

  /** A successful accumulation adds one fresh key per element and keeps `acc`. */
  lemma {:induction false} AccumulateKeys<T, K, V>(s: seq<T>, keyMapper: T -> K, valueMapper: T -> V,
                                                  acc: map<K, V>)
    requires Accumulate(s, keyMapper, valueMapper, acc).Success?
    ensures Accumulate(s, keyMapper, valueMapper, acc).value.Keys == acc.Keys + Image(s, keyMapper)
    ensures |Accumulate(s, keyMapper, valueMapper, acc).value| == |acc| + |s|
    ensures forall k :: k in acc ==> Accumulate(s, keyMapper, valueMapper, acc).value[k] == acc[k]
    decreases |s|
  {
    if |s| > 0 {
      var k := keyMapper(s[0]);
      var acc' := acc[k := valueMapper(s[0])];
      assert k !in acc;
      assert |acc'| == |acc| + 1;
      assert Accumulate(s, keyMapper, valueMapper, acc) == Accumulate(s[1..], keyMapper, valueMapper, acc');
      assert Image(s, keyMapper) == {k} + Image(s[1..], keyMapper);
      AccumulateKeys(s[1..], keyMapper, valueMapper, acc');
    }
  }

  /** In a successful accumulation each element's key maps to that element's value. */
  lemma {:induction false} AccumulateValues<T, K, V>(s: seq<T>, keyMapper: T -> K, valueMapper: T -> V,
                                                    acc: map<K, V>)
    requires Accumulate(s, keyMapper, valueMapper, acc).Success?
    ensures var m := Accumulate(s, keyMapper, valueMapper, acc).value;
            forall i :: 0 <= i < |s| ==> keyMapper(s[i]) in m && m[keyMapper(s[i])] == valueMapper(s[i])
    decreases |s|
  {
    if |s| > 0 {
      var k := keyMapper(s[0]);
      var acc' := acc[k := valueMapper(s[0])];
      var m := Accumulate(s, keyMapper, valueMapper, acc).value;
      AccumulateValues(s[1..], keyMapper, valueMapper, acc');
      AccumulateKeys(s[1..], keyMapper, valueMapper, acc');
      forall i | 0 <= i < |s| ensures keyMapper(s[i]) in m && m[keyMapper(s[i])] == valueMapper(s[i]) {
        if i > 0 {
          assert s[i] == s[1..][i - 1];
        }
      }
    }
  }

  /** A failed accumulation names a key that was present already or occurs twice. */
  lemma {:induction false} AccumulateFailure<T, K, V>(s: seq<T>, keyMapper: T -> K, valueMapper: T -> V,
                                                     acc: map<K, V>)
    requires Accumulate(s, keyMapper, valueMapper, acc).Failure?
    ensures var key := Accumulate(s, keyMapper, valueMapper, acc).error.key;
            key in Image(s, keyMapper) && (key in acc || KeyRepeated(s, keyMapper, key))
    decreases |s|
  {
    var k := keyMapper(s[0]);
    if k !in acc {
      var acc' := acc[k := valueMapper(s[0])];
      AccumulateFailure(s[1..], keyMapper, valueMapper, acc');
      var key := Accumulate(s, keyMapper, valueMapper, acc).error.key;
      if key !in acc {
        KeyRepeatedCons(s, keyMapper, key);
      }
    }
  }

  /** `toMap(keyMapper, valMapper)` on a sequential stream. */
  function ToMap<T, K(==), V>(s: seq<T>, keyMapper: T -> K, valueMapper: T -> V)
    : (r: Result<map<K, V>, CollectError<K>>)
    ensures r.Failure? <==> HasDuplicateKey(s, keyMapper)
    ensures r.Failure? ==> KeyRepeated(s, keyMapper, r.error.key)
    ensures r.Success? ==> r.value.Keys == Image(s, keyMapper)
    ensures r.Success? ==> |r.value| == |s|
    ensures r.Success? ==> forall i :: 0 <= i < |s| ==> r.value[keyMapper(s[i])] == valueMapper(s[i])
  {
    var r := Accumulate(s, keyMapper, valueMapper, map[]);
    AccumulateSucceeds(s, keyMapper, valueMapper, map[]);
    if r.Success? then
      AccumulateKeys(s, keyMapper, valueMapper, map[]);
      AccumulateValues(s, keyMapper, valueMapper, map[]);
      r
    else
      AccumulateFailure(s, keyMapper, valueMapper, map[]);
      r
  }

  /** `toMap(valMapper)`: the elements themselves are the keys. */
  function ToMapByValue<T(==), V>(s: seq<T>, valueMapper: T -> V): (r: Result<map<T, V>, CollectError<T>>)
    ensures r.Failure? <==> !Distinct(s)
    ensures r.Failure? ==> multiset(s)[r.error.key] > 1
    ensures r.Success? ==> forall x :: x in r.value ==> x in s
    ensures r.Success? ==> forall i :: 0 <= i < |s| ==> s[i] in r.value
    ensures r.Success? ==> |r.value| == |s|
    ensures r.Success? ==> forall i :: 0 <= i < |s| ==> r.value[s[i]] == valueMapper(s[i])
  {
    var r := ToMap(s, Identity, valueMapper);
    assert r.Success? ==> forall x :: x in r.value ==> x in s by {
      if r.Success? {
        forall x | x in r.value ensures x in s {
          ImageWitness(s, Identity, x);
        }
      }
    }
    assert r.Failure? ==> multiset(s)[r.error.key] > 1 by {
      if r.Failure? {
        var i, j :| 0 <= i < j < |s| && s[i] == r.error.key && s[j] == r.error.key;
        TwoOccurrences(s, i, j);
      }
    }
    r
  }

  /** Without repeated keys, `toMap(k, v)` is the lookup table of
      `mapToEntry(k, v)`, whose entries then form a map. */
  lemma ToMapIsEntryTable<T, K, V>(s: seq<T>, keyMapper: T -> K, valueMapper: T -> V)
    requires !HasDuplicateKey(s, keyMapper)
    ensures IsMap(MapToEntry(s, keyMapper, valueMapper))
    ensures ToMap(s, keyMapper, valueMapper) == Success(AsMap(MapToEntry(s, keyMapper, valueMapper)))
  {
    var entries := MapToEntry(s, keyMapper, valueMapper);
    var r := ToMap(s, keyMapper, valueMapper).value;
    var table := AsMap(entries);
    assert IsMap(entries) by {
      forall i, j | 0 <= i < j < |entries| ensures entries[i].0 != entries[j].0 {
        assert keyMapper(s[i]) != keyMapper(s[j]);
      }
    }
    AsMapLookup(entries);
    forall k | k in r ensures k in table {
      ImageWitness(s, keyMapper, k);
      var i :| 0 <= i < |s| && keyMapper(s[i]) == k;
      assert entries[i].0 == k;
    }
    forall k | k in table ensures k in r && r[k] == table[k] {
      var i :| 0 <= i < |entries| && entries[i].0 == k;
      assert keyMapper(s[i]) == k;
    }
    assert r == table;
  }

  lemma TwoOccurrences<T>(s: seq<T>, i: nat, j: nat)
    requires i < j < |s| && s[i] == s[j]
    ensures multiset(s)[s[i]] > 1
  {
    assert s == s[..i] + [s[i]] + s[i + 1..j] + [s[j]] + s[j + 1..];
  }

  /** The grouping test for one key. */
  function ClassifiedAs<T, K(==)>(classifier: T -> K, k: K): T -> bool
  {
    e => classifier(e) == k
  }

  /** The group `m` already holds for `k`, or an empty one. */
  function GroupOf<K, T>(m: map<K, seq<T>>, k: K): seq<T>
  {
    if k in m then m[k] else []
  }

  /** `computeIfAbsent(k, ArrayList::new).add(x)`: `x` goes at the end of the group of `k`. */
  function AddToGroup<K, T>(m: map<K, seq<T>>, k: K, x: T): (r: map<K, seq<T>>)
    ensures r.Keys == m.Keys + {k}
    ensures r[k] == GroupOf(m, k) + [x]
    ensures forall k' :: k' in m && k' != k ==> r[k'] == m[k']
  {
    m[k := GroupOf(m, k) + [x]]
  }

  /** `groupingBy(classifier)`: the map from each key that occurs to the
      elements with that key, in encounter order. It never fails:
      several elements may share a key. */
  function GroupingBy<T, K(==)>(s: seq<T>, classifier: T -> K): (r: map<K, seq<T>>)
    ensures forall i :: 0 <= i < |s| ==> classifier(s[i]) in r
    ensures forall k :: k in r ==> |r[k]| > 0
  {
    if |s| == 0 then map[]
    else
      var m := GroupingBy(s[1..], classifier);
      var k := classifier(s[0]);
      m[k := [s[0]] + GroupOf(m, k)]
  }

  /** The keys of the grouping are exactly the keys the elements produce. */
  lemma {:induction false} GroupingByKeys<T, K>(s: seq<T>, classifier: T -> K)
    ensures GroupingBy(s, classifier).Keys == Image(s, classifier)
  {
    if |s| > 0 {
      GroupingByKeys(s[1..], classifier);
    }
  }

  /** A key no element produces selects no element. */
  lemma {:induction false} NoElementsForAbsentKey<T, K>(s: seq<T>, classifier: T -> K, k: K)
    requires k !in Image(s, classifier)
    ensures Filter(s, ClassifiedAs(classifier, k)) == []
  {
    if |s| > 0 {
      NoElementsForAbsentKey(s[1..], classifier, k);
    }
  }

  /** Each group is exactly the subsequence of elements with its key, and no group is empty. */
  lemma {:induction false} GroupingByGroups<T, K>(s: seq<T>, classifier: T -> K)
    ensures forall k :: k in GroupingBy(s, classifier) ==>
      GroupingBy(s, classifier)[k] == Filter(s, ClassifiedAs(classifier, k))
    ensures forall k :: k in GroupingBy(s, classifier) ==> |GroupingBy(s, classifier)[k]| > 0
  {
    if |s| > 0 {
      GroupingByGroups(s[1..], classifier);
      var m := GroupingBy(s[1..], classifier);
      var k := classifier(s[0]);
      if k !in m {
        GroupingByKeys(s[1..], classifier);
        NoElementsForAbsentKey(s[1..], classifier, k);
      }
    }
  }

  /** Grouping one more element adds it at the end of its key's group. */
  lemma {:induction false} GroupingBySnoc<T, K>(s: seq<T>, x: T, classifier: T -> K)
    ensures GroupingBy(s + [x], classifier) == AddToGroup(GroupingBy(s, classifier), classifier(x), x)
  {
    if |s| == 0 {
      assert s + [x] == [x];
      assert [x][1..] == [];
      assert GroupingBy([x], classifier) == map[][classifier(x) := [x] + []];
      assert [x] + [] == [] + [x];
    } else {
      assert (s + [x])[0] == s[0];
      assert (s + [x])[1..] == s[1..] + [x];
      GroupingBySnoc(s[1..], x, classifier);
      var m := GroupingBy(s[1..], classifier);
      var k := classifier(s[0]);
      var kx := classifier(x);
      var grown := AddToGroup(m, kx, x);
      var lhs := GroupingBy(s + [x], classifier);
      var rhs := AddToGroup(GroupingBy(s, classifier), kx, x);
      assert lhs == grown[k := [s[0]] + GroupOf(grown, k)];
      assert GroupingBy(s, classifier) == m[k := [s[0]] + GroupOf(m, k)];
      assert lhs.Keys == rhs.Keys;
      forall y | y in lhs ensures lhs[y] == rhs[y] {
        if y == k && y == kx {
          assert [s[0]] + (GroupOf(m, k) + [x]) == ([s[0]] + GroupOf(m, k)) + [x];
        }
      }
    }
  }

  /** The `groupingBy` accumulator: for each element in encounter order,
      the element is added at the end of its key's group. The result is
      the map `GroupingBy` describes. */
  method GroupingByAccumulate<T, K(==)>(s: seq<T>, classifier: T -> K) returns (m: map<K, seq<T>>)
    ensures m == GroupingBy(s, classifier)
  {
    m := map[];
    var i := 0;
    while i < |s|
      invariant 0 <= i <= |s|
      invariant m == GroupingBy(s[..i], classifier)
    {
      GroupingBySnoc(s[..i], s[i], classifier);
      assert s[..i + 1] == s[..i] + [s[i]];
      m := AddToGroup(m, classifier(s[i]), s[i]);
      i := i + 1;
    }
    assert s[..i] == s;
  }

  /** The total size of the groups of a map. */
  ghost function SumSizes<K, T>(m: map<K, seq<T>>): nat
    decreases |m|
  {
    if |m| == 0 then 0
    else
      var k := PickKey(m);
      |m[k]| + SumSizes(m - {k})
  }

  ghost function PickKey<K, T>(m: map<K, seq<T>>): (k: K)
    requires |m| > 0
    ensures k in m
  {
    assert m.Keys != {};
    var k :| k in m.Keys; k
  }

  /** The total does not depend on which key is taken out first. */
  lemma {:induction false} SumSizesRemove<K, T>(m: map<K, seq<T>>, k: K)
    requires k in m
    ensures SumSizes(m) == |m[k]| + SumSizes(m - {k})
    decreases |m|
  {
    var k' := PickKey(m);
    if k' != k {
      SumSizesRemove(m - {k'}, k);
      SumSizesRemove(m - {k}, k');
      assert m - {k'} - {k} == m - {k} - {k'};
    }
  }

  /** The groups together hold every element exactly once: their sizes add up to the input length. */
  lemma {:induction false} GroupingBySizes<T, K>(s: seq<T>, classifier: T -> K)
    ensures SumSizes(GroupingBy(s, classifier)) == |s|
  {
    if |s| > 0 {
      GroupingBySizes(s[1..], classifier);
      var m := GroupingBy(s[1..], classifier);
      var k := classifier(s[0]);
      var r := GroupingBy(s, classifier);
      SumSizesRemove(r, k);
      assert r - {k} == m - {k};
      if k in m {
        SumSizesRemove(m, k);
      } else {
        assert m - {k} == m;
      }
    }
  }
}
