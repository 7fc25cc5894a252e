# StreamEx in Dafny

A model of `StreamEx`, the fluent layer that the StreamEx library puts over
`java.util.stream.Stream`. Almost every `StreamEx` method hands its work to a
JDK stream, collector or map. Even so, each method has a contract, and this
project states and proves those contracts:

- which elements `select` keeps, and in what order;
- what `append` and `prepend` build;
- when `has` answers true, null included;
- what text the three `joining` forms produce;
- when `toMap` fails;
- what groups `groupingBy` forms;
- which keys or values `ofKeys` and `ofValues` yield;
- which elements `iterate` produces.

Modelling choices:

- A sequential stream is its finite sequence of elements in encounter order (`seq<T>`).
- Java's `null` is `Wrappers.Option.None`, where null matters:
  - `select`: `Class.isInstance(null)` is false;
  - `has`: the null test;
  - `joining`: `String.valueOf(null)` is `"null"`.
- An exception is `Wrappers.Result.Failure`. `toMap`'s `IllegalStateException` is `Collect.CollectError.DuplicateKey`.
- A source `Map` is an association list `seq<(K, V)>`. The list order is the map's iteration order, and `Sources.IsMap` says that no key repeats.
- The behaviour of the JDK collaborators is modelled from their documented contracts. These are `Collectors.toMap`, `Collectors.groupingBy`, `Collectors.joining`, `StringJoiner`, `Stream.iterate` and `anyMatch`. Their source is not part of this model.
- `Object.equals` is Dafny equality, and `toString` is a function parameter.

Modules:

- `wrappers.dfy` (`Wrappers`): `Option` and `Result`.
- `seqs.dfy` (`Seqs`): map, filter, flatten, image and subsequence, with their lemmas.
- `streamex.dfy` (`StreamEx`): the intermediate operations and `has`.
- `strings.dfy` (`Strings`): `String.valueOf`, `StringJoiner` and the three `joining` forms.
- `collect.dfy` (`Collect`): `toMap` and `groupingBy`.
- `sources.dfy` (`Sources`): `ofKeys`, `ofValues` and `iterate`.
- `examples.dfy` (`Examples`): concrete cases of the documented behaviour.

## Model

| member | source | states |
|---|---|---|
| Seqs.Map | src/main/java/javax/util/streamex/StreamEx.java:68-71 | `map` keeps the stream's length, and element i of the result is the mapper applied to element i of the input |
| Seqs.MapAppend | src/main/java/javax/util/streamex/StreamEx.java:68-71 | mapping two consecutive parts of a stream maps each part in place: `map` commutes with concatenation |
| StreamEx.FlatMap | src/main/java/javax/util/streamex/StreamEx.java:73-76 | the result's length is the sum of the sub-stream lengths; every result element comes from some element's sub-stream, and every sub-stream element appears in the result (order and multiplicity are fixed by the three lemmas below) |
| StreamEx.FlatMapAppend | src/main/java/javax/util/streamex/StreamEx.java:73-76 | flat-mapping two consecutive parts of a stream gives their sub-streams one after the other, in encounter order |
| StreamEx.FlatMapSingleton | src/main/java/javax/util/streamex/StreamEx.java:73-76 | a one-element stream flat-maps to exactly that element's sub-stream, in its own order and with its own multiplicities; with `FlatMapAppend` this determines `flatMap` on every input |
| StreamEx.FlatMapInPlace | src/main/java/javax/util/streamex/StreamEx.java:73-76 | element i's sub-stream appears unchanged and in place, between the flat-map of the elements before i and that of the elements after i |
| StreamEx.Select | src/main/java/javax/util/streamex/StreamEx.java:78-91 | every result element is a non-null instance of the class; every instance in the input is kept as often as it occurs and every other element is dropped; the result is a subsequence of the input, so order is preserved |
| StreamEx.SelectIdempotent | src/main/java/javax/util/streamex/StreamEx.java:88-91 | selecting the same class twice gives the same stream as selecting it once |
| StreamEx.SelectAppend | src/main/java/javax/util/streamex/StreamEx.java:88-91 | selecting from `s.append(vs)` is selecting from `s` followed by selecting from `vs` |
| StreamEx.MapToEntryByValue | src/main/java/javax/util/streamex/StreamEx.java:93-106 | one entry per element, in encounter order: the key is the element itself and the value is the mapper's result |
| StreamEx.MapToEntry | src/main/java/javax/util/streamex/StreamEx.java:108-123 | one entry per element, in encounter order: the key is the key mapper's result and the value is the value mapper's result |
| StreamEx.FlatCollection | src/main/java/javax/util/streamex/StreamEx.java:125-127 | equals `flatMap` over each collection's iteration order, so each collection appears in place and unchanged (`FlatMapInPlace`); its length is the sum of the collection sizes, every result element comes from some collection, and every element of every collection appears |
| StreamEx.FlatMapToEntry | src/main/java/javax/util/streamex/StreamEx.java:129-131 | equals `flatMap` over each element's entry sequence, so each map's entries appear in place and in its own iteration order (`FlatMapInPlace`); the length is the total entry count, and every entry of every map appears |
| Collect.GroupingBy | src/main/java/javax/util/streamex/StreamEx.java:133-135 | `groupingBy(c)` has a group for the key of every element, and no group is empty |
| Collect.GroupingByKeys | src/main/java/javax/util/streamex/StreamEx.java:133-135 | the grouping's key set is exactly the set of classifier values of the elements |
| Collect.GroupingByGroups | src/main/java/javax/util/streamex/StreamEx.java:133-135 | the group of key k is exactly the subsequence of elements classified as k, in encounter order, and no group is empty |
| Collect.GroupingBySizes | src/main/java/javax/util/streamex/StreamEx.java:133-135 | the group sizes add up to the stream's length, so every element lands in exactly one group |
| Collect.GroupingBySnoc | src/main/java/javax/util/streamex/StreamEx.java:133-135 | grouping one more element appends it to the end of its key's group, creating the group if absent, and changes nothing else |
| Collect.GroupingByAccumulate | src/main/java/javax/util/streamex/StreamEx.java:133-135 | the collector's element-by-element accumulation (create the group if absent, then add at the end) yields the grouping described above; it never fails |
| Strings.ValueOf | src/main/java/javax/util/streamex/StreamEx.java:155-188 | `String.valueOf`, applied to every element before joining, gives the text `null` for a null element and the element's `toString` otherwise |
| Strings.Joining | src/main/java/javax/util/streamex/StreamEx.java:147-157 | `joining()` is the empty string for an empty stream and otherwise the `String.valueOf` texts joined with no delimiter |
| Strings.JoinEmptyDelimiter | src/main/java/javax/util/streamex/StreamEx.java:155-157 | joining with the empty delimiter is plain concatenation of the texts |
| Strings.JoiningIsEmptyDelimiter | src/main/java/javax/util/streamex/StreamEx.java:147-170 | `joining()` equals `joining("")` |
| Strings.JoiningWith | src/main/java/javax/util/streamex/StreamEx.java:159-170 | `joining(d)` is the empty string for an empty stream, and otherwise the texts in encounter order with `d` between each neighbouring pair |
| Strings.Interleave | src/main/java/javax/util/streamex/StreamEx.java:159-170 | the texts interleaved with the delimiter: 2n-1 pieces, text i at even position 2i, the delimiter at every odd position |
| Strings.JoinIsInterleaved | src/main/java/javax/util/streamex/StreamEx.java:159-170 | a delimited join concatenates the interleaving, so for n texts the delimiter is inserted exactly n-1 times |
| Strings.JoinLength | src/main/java/javax/util/streamex/StreamEx.java:159-170 | a join of n texts is as long as all the texts plus n-1 delimiters |
| Strings.JoiningWithLayout | src/main/java/javax/util/streamex/StreamEx.java:159-170 | for a non-empty stream, `joining(d)` is the interleaving of the texts with `d`, and its length is the texts' total length plus n-1 times the length of `d` |
| Strings.AddAll | src/main/java/javax/util/streamex/StreamEx.java:186-188 | adding texts one at a time to a `StringJoiner` leaves it holding the prefix and the delimited join, or extends what it held by a delimiter and the join; no text leaves it unchanged |
| Strings.JoiningWrapped | src/main/java/javax/util/streamex/StreamEx.java:172-188 | `joining(d, p, s)` is `p + s` for an empty stream, and otherwise the prefix, the delimited join of the texts and the suffix |
| Strings.JoiningWrappedDecomposes | src/main/java/javax/util/streamex/StreamEx.java:172-188 | `joining(d, p, s)` equals `p + joining(d) + s` |
| Collect.ToMapByValue | src/main/java/javax/util/streamex/StreamEx.java:190-215 | `toMap(v)` fails exactly when an element repeats, and the failure's key (the model's own record of the exception) occurs more than once; otherwise its keys are exactly the elements, it has one entry per element, and each element maps to `v` of itself |
| Collect.ToMap | src/main/java/javax/util/streamex/StreamEx.java:217-244 | `toMap(k, v)` fails exactly when two elements produce equal keys, and the failure's key (the model's own record of the exception) is produced twice; otherwise its key set is exactly the produced keys, it has one entry per element, and each element's key maps to that element's value |
| Collect.Accumulate | src/main/java/javax/util/streamex/StreamEx.java:240-244 | the sequential `toMap` merge: a failure names a key that some element produced, and a success keeps every key already present |
| Collect.AccumulateSucceeds | src/main/java/javax/util/streamex/StreamEx.java:240-244 | merging elements one by one into a map succeeds exactly when no produced key repeats and none is already present |
| Collect.AccumulateKeys | src/main/java/javax/util/streamex/StreamEx.java:240-244 | a successful merge adds exactly the produced keys, one new entry per element, and keeps every entry already present |
| Collect.AccumulateValues | src/main/java/javax/util/streamex/StreamEx.java:240-244 | after a successful merge each element's key maps to that element's value |
| Collect.AccumulateFailure | src/main/java/javax/util/streamex/StreamEx.java:240-244 | a failed merge reports a produced key that was already present or is produced twice |
| Collect.ToMapIsEntryTable | src/main/java/javax/util/streamex/StreamEx.java:104-123 | without repeated keys, the entries of `mapToEntry(k, v)` form a map, and `toMap(k, v)` succeeds with exactly that map's lookup table |
| StreamEx.Append | src/main/java/javax/util/streamex/StreamEx.java:246-255 | `append(vs)` is this stream's elements in place followed by `vs` in order; with no values it is the stream unchanged |
| StreamEx.Prepend | src/main/java/javax/util/streamex/StreamEx.java:257-266 | `prepend(vs)` is `vs` in order followed by this stream's elements; with no values it is the stream unchanged |
| StreamEx.PrependIsAppend | src/main/java/javax/util/streamex/StreamEx.java:246-266 | `s.prepend(vs)` is the same stream as `vs` with `s` appended |
| StreamEx.SelectPrepend | src/main/java/javax/util/streamex/StreamEx.java:257-266 | selecting from `s.prepend(vs)` is selecting from `vs` followed by selecting from `s` |
| StreamEx.HasAppend | src/main/java/javax/util/streamex/StreamEx.java:246-272 | `s.append(vs).has(x)` holds exactly when `s` or `vs` has x |
| StreamEx.HasPrepend | src/main/java/javax/util/streamex/StreamEx.java:257-272 | `s.prepend(vs).has(x)` holds exactly when `vs` or `s` has x |
| StreamEx.AnyMatch | src/main/java/javax/util/streamex/StreamEx.java:268-272 | `anyMatch(p)` is true exactly when some element passes `p` |
| StreamEx.AnyMatchPulls | src/main/java/javax/util/streamex/StreamEx.java:268-272 | the short-circuiting `anyMatch` finds a match exactly when one exists, stops right after the first match without consuming the rest, and reads the whole stream when nothing matches |
| StreamEx.Has | src/main/java/javax/util/streamex/StreamEx.java:268-272 | `has(x)` is true exactly when x occurs in the stream: `has(null)` exactly when some element is null, `has(x)` for non-null x exactly when some non-null element equals x |
| Sources.OfKeys | src/main/java/javax/util/streamex/StreamEx.java:325-327 | `ofKeys(m)` yields one key per entry, in the map's iteration order |
| Sources.OfKeysAreKeySet | src/main/java/javax/util/streamex/StreamEx.java:325-327 | the keys of a map are pairwise distinct and are exactly the keys it can look up |
| Sources.OfKeysWhere | src/main/java/javax/util/streamex/StreamEx.java:329-332 | `ofKeys(m, p)` yields only keys whose value passes `p`, yields every such key, keeps the map's iteration order, and yields as many keys as there are passing values |
| Sources.OfKeysWhereLookup | src/main/java/javax/util/streamex/StreamEx.java:329-332 | the keys `ofKeys(m, p)` yields are distinct and are exactly the keys whose looked-up value passes `p` |
| Sources.OfValues | src/main/java/javax/util/streamex/StreamEx.java:334-336 | `ofValues(m)` yields one value per entry, in the map's iteration order |
| Sources.OfValuesWhere | src/main/java/javax/util/streamex/StreamEx.java:338-341 | `ofValues(m, p)` yields only values whose key passes `p`, yields the value of every such key, keeps the map's iteration order, and yields as many values as there are passing keys |
| Sources.FilteredEntryKeys | src/main/java/javax/util/streamex/StreamEx.java:338-341 | the keys of the entries that `ofValues(m, p)` keeps are exactly the map's keys filtered by `p`, in order and with multiplicities |
| Sources.FilteredEntryValues | src/main/java/javax/util/streamex/StreamEx.java:329-332 | the values of the entries that `ofKeys(m, p)` keeps are exactly the map's values filtered by `p`, in order and with multiplicities |
| Sources.OfValuesWhereLookup | src/main/java/javax/util/streamex/StreamEx.java:338-341 | `ofValues(m, p)` is, position by position, the looked-up value of each key that passes `p`, taken in iteration order |
| Sources.FilterAcceptingAll | src/main/java/javax/util/streamex/StreamEx.java:325-341 | with a filter that accepts everything, `ofKeys(m, p)` is `ofKeys(m)` and `ofValues(m, p)` is `ofValues(m)` |
| Sources.IterateAt | src/main/java/javax/util/streamex/StreamEx.java:359-361 | element 0 of `iterate(seed, f)` is the seed, and element n > 0 is element n-1 of `iterate(f(seed), f)` |
| Sources.IterateShift | src/main/java/javax/util/streamex/StreamEx.java:359-361 | element n of `iterate(f(seed), f)` is element n+1 of `iterate(seed, f)` |
| Sources.IterateLimit | src/main/java/javax/util/streamex/StreamEx.java:359-361 | a prefix bounded by n has exactly n elements; element 0 is the seed, element i+1 is f of element i, and element i is f applied i times to the seed |
| Sources.IterateLimitPrefix | src/main/java/javax/util/streamex/StreamEx.java:359-361 | a shorter bound on `iterate` reads a prefix of a longer one |
| Examples.JoiningExamples | src/main/java/javax/util/streamex/StreamEx.java:147-170 | `of("a","b","c")` joins to `"abc"` and, with `","`, to `"a,b,c"`; the empty stream joins to `""` |
| Examples.JoiningWrappedExample | src/main/java/javax/util/streamex/StreamEx.java:172-188 | `of("a","b","c").joining(",", "[", "]")` is `"[a,b,c]"` |
| Examples.JoiningNullExample | src/main/java/javax/util/streamex/StreamEx.java:159-170 | a null element is joined as the text `null` |
| Examples.ToMapExamples | src/main/java/javax/util/streamex/StreamEx.java:211-215 | with `v = x -> x * 10`, `toMap(v)` over `[1, 2, 1]` fails, and over `[1, 2]` it is the map `{1: 10, 2: 20}` |
| Examples.HasExamples | src/main/java/javax/util/streamex/StreamEx.java:268-272 | `has(null)` finds a null element, and a value that does not occur is not found |
| Examples.IterateExample | src/main/java/javax/util/streamex/StreamEx.java:359-361 | `iterate(0, n -> n + 1)` bounded by 5 is `0, 1, 2, 3, 4` |
| Examples.GroupingByExample | src/main/java/javax/util/streamex/StreamEx.java:133-135 | grouping `[1, 2, 3, 4]` by `x % 2` gives `{0: [2, 4], 1: [1, 3]}` |
| Examples.SelectExample | src/main/java/javax/util/streamex/StreamEx.java:88-91 | `select(Integer.class)` on `[1, null, "a", 3]` gives `[1, 3]`: the string is not an instance and neither is the null |

## Left out

- `ofLines` (both overloads) and `ofEntries` (zip and jar): they read a reader or an archive, which is I/O.
- `split` (both overloads): its result depends on `java.util.regex` splitting semantics, which are not part of this model.
- `generate`: every element comes from a supplier with side effects, and the stream is infinite.
- `iterate` as an infinite lazy stream: the model gives element n and any bounded prefix, not the unbounded stream.
- The parallel branch of both `toMap` overloads, which picks a concurrent map. It only concerns concurrency; the sequential result is modelled.
- Laziness, single use and the illegal-state error on reuse. Those belong to the underlying JDK stream, and a sequence has no such state.
- `empty()` and the `of(...)` factories. In this model they are the given element sequence, so there is nothing to state. Also left out: the reference identity of the shared `EMPTY` instance, and `of(Stream)` returning an existing `StreamEx` unwrapped.
- The `groupingBy` overloads that take a downstream `Collector` or a map factory. Their behaviour depends on arbitrary library collectors.
- The constructor and `supply`, and the rest of `AbstractStreamEx` and `EntryStream`. These classes are not part of this model; an `EntryStream` is its sequence of key-value pairs.
- StreamEx.FlatMap: `Stream.flatMap` treats a null sub-stream returned by the mapper as an empty one. The model's mapper always returns a sequence, so a null result is written as the empty sequence.
- StreamEx.FlatCollection: a null collection returned by the mapper makes `Collection::stream` throw `NullPointerException`. The model's mapper always returns a sequence, so this exception is not modelled, and `FlatCollection` equals `FlatMap` only on non-null collections.
- StreamEx.FlatMapToEntry: a null map returned by the mapper makes `entrySet()` throw `NullPointerException`. The model's mapper always returns an entry sequence, so this exception is not modelled.
- Collect.ToMap: the JDK collector throws `NullPointerException` when the value mapper returns null. The model's value mapper never yields null.
- Collect.ToMap: `DuplicateKey(key)` is the model's own abstraction of the `IllegalStateException`. JDK 8's throwing merger builds its message from the value already mapped, not from the key, and the message text is not modelled.
- Collect.ToMapByValue: the same null-value case as `ToMap`.
- Collect.GroupingByAccumulate: the JDK collector throws `NullPointerException` when the classifier returns null. The model's classifier never yields null.
- StreamEx.Has: `equals` is modelled as value equality. A user class whose `equals` is not an equivalence is not covered.
- StreamEx.Select: a class is modelled as a test on non-null elements; the unchecked cast to the subtype has no counterpart.
- The hash order in which a `HashMap` result would be iterated: results of `toMap` and `groupingBy` are Dafny maps, which have no order.
