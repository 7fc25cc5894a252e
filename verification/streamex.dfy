/** The intermediate operations of `StreamEx` and its `has` test.
    A sequential stream is its finite sequence of elements in encounter
    order; an element that may be `null` is an `Option`. */
module StreamEx {
  import opened Wrappers
  import opened Seqs

  /** `Class.isInstance`: a runtime type test, never true of `null`. */
  predicate IsInstance<T>(isInstance: T -> bool, e: Option<T>)
  {
    e.Some? && isInstance(e.value)
  }

  /** `select(clazz)`: the elements that are instances of the class,
      in encounter order and with their multiplicities. */
  function Select<T(==)>(s: seq<Option<T>>, isInstance: T -> bool): (r: seq<Option<T>>)
    ensures forall i :: 0 <= i < |r| ==> r[i].Some? && isInstance(r[i].value)
    ensures forall i :: 0 <= i < |s| ==>
      multiset(r)[s[i]] == if IsInstance(isInstance, s[i]) then multiset(s)[s[i]] else 0
    ensures IsSubsequence(r, s)
    ensures None !in r
  {
    FilterKeepsOrder(s, e => IsInstance(isInstance, e));
    FilterKeepsCount(s, e => IsInstance(isInstance, e));
    Filter(s, e => IsInstance(isInstance, e))
  }

  /** Selecting twice by the same class selects nothing more. */
  lemma {:induction false} SelectIdempotent<T>(s: seq<Option<T>>, isInstance: T -> bool)
    ensures Select(Select(s, isInstance), isInstance) == Select(s, isInstance)
  {
    FilterIdempotent(s, e => IsInstance(isInstance, e));
  }

  /** Selection distributes over `append`. */
  lemma {:induction false} SelectAppend<T>(s: seq<Option<T>>, values: seq<Option<T>>, isInstance: T -> bool)
    ensures Select(Append(s, values), isInstance) == Select(s, isInstance) + Select(values, isInstance)
  {
    FilterAppend(s, values, e => IsInstance(isInstance, e));
  }

  /** `flatMap(mapper)`: each element's sub-stream, concatenated in encounter order. */
  function FlatMap<T, R>(s: seq<T>, mapper: T -> seq<R>): (r: seq<R>)
    ensures |r| == TotalLength(Map(s, mapper))
    ensures forall k :: 0 <= k < |r| ==> exists i :: 0 <= i < |s| && r[k] in mapper(s[i])
    ensures forall i, j :: 0 <= i < |s| && 0 <= j < |mapper(s[i])| ==> mapper(s[i])[j] in r
  {
    var parts := Map(s, mapper);
    FlattenLength(parts);
    FlattenMembers(parts);
    Flatten(parts)
  }

  /** The sub-streams of consecutive parts of the input are consecutive in the output. */
  lemma {:induction false} FlatMapAppend<T, R>(a: seq<T>, b: seq<T>, mapper: T -> seq<R>)
    ensures FlatMap(a + b, mapper) == FlatMap(a, mapper) + FlatMap(b, mapper)
  {
    MapAppend(a, b, mapper);
    FlattenAppend(Map(a, mapper), Map(b, mapper));
  }

  /** A single element contributes exactly its own sub-stream. */
  lemma {:induction false} FlatMapSingleton<T, R>(x: T, mapper: T -> seq<R>)
    ensures FlatMap([x], mapper) == mapper(x)
  {
    assert Map([x], mapper) == [mapper(x)];
    assert [mapper(x)][1..] == [];
    assert Flatten([mapper(x)]) == mapper(x) + Flatten([]);
  }

  /** Each element's sub-stream appears in place, in its own order and
      with its own multiplicities, between the sub-streams of the
      elements before it and those after it. */
  lemma {:induction false} FlatMapInPlace<T, R>(s: seq<T>, mapper: T -> seq<R>, i: nat)
    requires i < |s|
    ensures FlatMap(s, mapper) == FlatMap(s[..i], mapper) + mapper(s[i]) + FlatMap(s[i + 1..], mapper)
  {
    assert s == s[..i] + ([s[i]] + s[i + 1..]);
    FlatMapAppend(s[..i], [s[i]] + s[i + 1..], mapper);
    FlatMapAppend([s[i]], s[i + 1..], mapper);
    FlatMapSingleton(s[i], mapper);
  }

  /** `flatCollection(mapper)`: `flatMap` over each collection's iteration order. */
  function FlatCollection<T, R>(s: seq<T>, mapper: T -> seq<R>): (r: seq<R>)
    ensures |r| == TotalLength(Map(s, mapper))
    ensures forall k :: 0 <= k < |r| ==> exists i :: 0 <= i < |s| && r[k] in mapper(s[i])
    ensures forall i, j :: 0 <= i < |s| && 0 <= j < |mapper(s[i])| ==> mapper(s[i])[j] in r
    ensures r == FlatMap(s, mapper)
  {
    FlatMap(s, mapper)
  }

  /** `flatMapToEntry(mapper)`: the entries of each element's map, in its iteration order. */
  function FlatMapToEntry<T, K, V>(s: seq<T>, mapper: T -> seq<(K, V)>): (r: seq<(K, V)>)
    ensures |r| == TotalLength(Map(s, mapper))
    ensures forall k :: 0 <= k < |r| ==> exists i :: 0 <= i < |s| && r[k] in mapper(s[i])
    ensures forall i, j :: 0 <= i < |s| && 0 <= j < |mapper(s[i])| ==> mapper(s[i])[j] in r
    ensures r == FlatMap(s, mapper)
  {
    FlatMap(s, mapper)
  }

  /** `mapToEntry(keyMapper, valueMapper)`: one entry per element. */
  function MapToEntry<T, K, V>(s: seq<T>, keyMapper: T -> K, valueMapper: T -> V): (r: seq<(K, V)>)
    ensures |r| == |s|
    ensures forall i :: 0 <= i < |s| ==> r[i].0 == keyMapper(s[i]) && r[i].1 == valueMapper(s[i])
  {
    Map(s, e => (keyMapper(e), valueMapper(e)))
  }

  /** `mapToEntry(valueMapper)`: the key of each entry is the element itself. */
  function MapToEntryByValue<T, V>(s: seq<T>, valueMapper: T -> V): (r: seq<(T, V)>)
    ensures |r| == |s|
    ensures forall i :: 0 <= i < |s| ==> r[i].0 == s[i] && r[i].1 == valueMapper(s[i])
  {
    MapToEntry(s, Identity, valueMapper)
  }

  /** `append(values...)`: this stream followed by the given values. */
  function Append<T>(s: seq<T>, values: seq<T>): (r: seq<T>)
    ensures |r| == |s| + |values|
    ensures forall i :: 0 <= i < |s| ==> r[i] == s[i]
    ensures forall j :: 0 <= j < |values| ==> r[|s| + j] == values[j]
    ensures |values| == 0 ==> r == s
  {
    s + values
  }

  /** `prepend(values...)`: the given values followed by this stream. */
  function Prepend<T>(s: seq<T>, values: seq<T>): (r: seq<T>)
    ensures |r| == |values| + |s|
    ensures forall j :: 0 <= j < |values| ==> r[j] == values[j]
    ensures forall i :: 0 <= i < |s| ==> r[|values| + i] == s[i]
    ensures |values| == 0 ==> r == s
  {
    values + s
  }

  /** `prepend(values)` on a stream is `append` with the roles swapped. */
  lemma PrependIsAppend<T>(s: seq<T>, values: seq<T>)
    ensures Prepend(s, values) == Append(values, s)
  {
  }

  /** Selection distributes over `prepend`: the selected values come first. */
  lemma {:induction false} SelectPrepend<T>(s: seq<Option<T>>, values: seq<Option<T>>, isInstance: T -> bool)
    ensures Select(Prepend(s, values), isInstance) == Select(values, isInstance) + Select(s, isInstance)
  {
    PrependIsAppend(s, values);
    SelectAppend(values, s, isInstance);
  }

  /** A prepended stream has an element exactly when the values or the stream have it. */
  lemma HasPrepend<T>(s: seq<Option<T>>, values: seq<Option<T>>, element: Option<T>)
    ensures Has(Prepend(s, values), element) <==> Has(values, element) || Has(s, element)
  {
  }

  /** `Stream.anyMatch`: some element passes `p`. */
  function AnyMatch<T>(s: seq<T>, p: T -> bool): (r: bool)
    ensures r <==> exists i :: 0 <= i < |s| && p(s[i])
  {
    if |s| == 0 then false
    else if p(s[0]) then true
    else
      var r := AnyMatch(s[1..], p);
      assert r <==> exists i :: 1 <= i < |s| && p(s[i]) by {
        if r {
          var j :| 0 <= j < |s[1..]| && p(s[1..][j]);
          assert p(s[j + 1]);
        }
        if exists i :: 1 <= i < |s| && p(s[i]) {
          var i :| 1 <= i < |s| && p(s[i]);
          assert p(s[1..][i - 1]);
        }
      }
      r
  }

  /** `anyMatch` pulls elements only until the first match: `pulled` is
      the number of elements taken from the stream. */
  method AnyMatchPulls<T>(s: seq<T>, p: T -> bool) returns (found: bool, pulled: nat)
    ensures found <==> exists i :: 0 <= i < |s| && p(s[i])
    ensures pulled <= |s|
    ensures found ==> 0 < pulled && p(s[pulled - 1])
    ensures found ==> forall i :: 0 <= i < pulled - 1 ==> !p(s[i])
    ensures !found ==> pulled == |s|
  {
    found, pulled := false, 0;
    while pulled < |s|
      invariant pulled <= |s|
      invariant forall i :: 0 <= i < pulled ==> !p(s[i])
    {
      var e := s[pulled];
      pulled := pulled + 1;
      if p(e) {
        found := true;
        return;
      }
    }
  }

  /** `Object::equals` as used by `has`: a non-null receiver never equals `null`. */
  predicate EqualsElement<T(==)>(x: T, e: Option<T>)
  {
    e.Some? && e.value == x
  }

  /** `has(element)`: `null` is looked for with a null test, any other
      value with its `equals`. */
  function Has<T(==)>(s: seq<Option<T>>, element: Option<T>): (r: bool)
    ensures r <==> element in s
    ensures element.None? ==> (r <==> exists i :: 0 <= i < |s| && s[i].None?)
    ensures element.Some? ==> (r <==> exists i :: 0 <= i < |s| && s[i].Some? && s[i].value == element.value)
  {
    if element.None? then AnyMatch(s, (e: Option<T>) => e.None?)
    else AnyMatch(s, e => EqualsElement(element.value, e))
  }

  /** Membership in a concatenation is membership in either part. */
  lemma HasAppend<T>(s: seq<Option<T>>, values: seq<Option<T>>, element: Option<T>)
    ensures Has(Append(s, values), element) <==> Has(s, element) || Has(values, element)
  {
  }
}
