/** The three `joining` terminal operations. Each element is first turned
    into text with `String.valueOf`; `joining()` appends the texts to one
    builder, and the delimited forms go through a `StringJoiner`. */
module Strings {
  import opened Wrappers
  import opened Seqs

  /** `String.valueOf(Object)`: the text `null` for a null reference,
      otherwise the object's `toString`. */
  function ValueOf<T>(e: Option<T>, toString: T -> string): (r: string)
    ensures e.None? ==> r == "null"
    ensures e.Some? ==> r == toString(e.value)
  {
    match e
    case None => "null"
    case Some(x) => toString(x)
  }

  /** The stream mapped through `String::valueOf`. */
  function Texts<T>(s: seq<Option<T>>, toString: T -> string): seq<string>
  {
    Map(s, e => ValueOf(e, toString))
  }

  /** Reference meaning of a delimited join: the parts in order, one
      delimiter between each neighbouring pair, nothing for no parts. */
  function Join(parts: seq<string>, delimiter: string): string
  {
    if |parts| == 0 then ""
    else if |parts| == 1 then parts[0]
    else parts[0] + delimiter + Join(parts[1..], delimiter)
  }

  /** The parts with the delimiter placed between each neighbouring pair. */
  function Interleave(parts: seq<string>, delimiter: string): (r: seq<string>)
    ensures |parts| == 0 ==> r == []
    ensures |parts| > 0 ==> |r| == 2 * |parts| - 1
    ensures forall i :: 0 <= i < |parts| ==> r[2 * i] == parts[i]
    ensures forall i :: 0 <= i < |parts| - 1 ==> r[2 * i + 1] == delimiter
  {
    if |parts| <= 1 then parts
    else
      var rest := Interleave(parts[1..], delimiter);
      assert forall i :: 1 <= i < |parts| ==> rest[2 * i - 2] == parts[i];
      assert forall i :: 1 <= i < |parts| - 1 ==> rest[2 * i - 1] == delimiter by {
        forall i | 1 <= i < |parts| - 1 ensures rest[2 * i - 1] == delimiter {
          assert rest[2 * (i - 1) + 1] == delimiter;
        }
      }
      [parts[0], delimiter] + rest
  }

  /** `StringBuilder::append` over all parts. */
  function Concat(parts: seq<string>): string
  {
    if |parts| == 0 then "" else parts[0] + Concat(parts[1..])
  }

  /** A delimited join is the plain concatenation of the interleaving:
      for n parts the delimiter is inserted exactly n - 1 times. */
  lemma {:induction false} JoinIsInterleaved(parts: seq<string>, delimiter: string)
    ensures Join(parts, delimiter) == Concat(Interleave(parts, delimiter))
  {
    if |parts| > 1 {
      JoinIsInterleaved(parts[1..], delimiter);
      var rest := Interleave(parts[1..], delimiter);
      assert Interleave(parts, delimiter) == [parts[0], delimiter] + rest;
      assert ([parts[0], delimiter] + rest)[1..] == [delimiter] + rest;
      assert ([delimiter] + rest)[1..] == rest;
    }
  }

  /** The length of a join: all parts plus n - 1 delimiters. */
  lemma {:induction false} JoinLength(parts: seq<string>, delimiter: string)
    requires |parts| > 0
    ensures |Join(parts, delimiter)| == TotalLength(parts) + (|parts| - 1) * |delimiter|
  {
    if |parts| > 1 {
      JoinLength(parts[1..], delimiter);
    }
  }

  /** With the empty delimiter a join is the plain concatenation. */
  lemma {:induction false} JoinEmptyDelimiter(parts: seq<string>)
    ensures Join(parts, "") == Concat(parts)
  {
    if |parts| > 1 {
      JoinEmptyDelimiter(parts[1..]);
    } else if |parts| == 1 {
      assert Concat(parts) == parts[0] + Concat([]);
    }
  }

  /** `java.util.StringJoiner`: `value` stays null until the first part
      is added; an empty joiner prints as prefix followed by suffix. */
  datatype StringJoiner = StringJoiner(delimiter: string, prefix: string, suffix: string, value: Option<string>)

  function NewJoiner(delimiter: string, prefix: string, suffix: string): StringJoiner
  {
    StringJoiner(delimiter, prefix, suffix, None)
  }

  /** `StringJoiner.add`: start from the prefix, or append the delimiter
      to what is there, then append the part. */
  function Add(j: StringJoiner, part: string): StringJoiner
  {
    var start := if j.value.None? then j.prefix else j.value.value + j.delimiter;
    j.(value := Some(start + part))
  }

  /** Adding the parts one by one in encounter order. */
  function AddAll(j: StringJoiner, parts: seq<string>): (r: StringJoiner)
    ensures r.delimiter == j.delimiter && r.prefix == j.prefix && r.suffix == j.suffix
    ensures |parts| == 0 ==> r == j
    ensures |parts| > 0 && j.value.None? ==> r.value == Some(j.prefix + Join(parts, j.delimiter))
    ensures |parts| > 0 && j.value.Some? ==>
      r.value == Some(j.value.value + j.delimiter + Join(parts, j.delimiter))
    decreases |parts|
  {
    if |parts| == 0 then j
    else
      var next := Add(j, parts[0]);
      var r := AddAll(next, parts[1..]);
      if |parts| == 1 then
        assert parts[1..] == [];
        r
      else
        var tail := Join(parts[1..], j.delimiter);
        assert Join(parts, j.delimiter) == parts[0] + j.delimiter + tail;
        assert r.value == Some(next.value.value + j.delimiter + tail);
        var start := if j.value.None? then j.prefix else j.value.value + j.delimiter;
        assert next.value.value == start + parts[0];
        assert start + parts[0] + j.delimiter + tail == start + (parts[0] + j.delimiter + tail);
        r
  }

  /** `StringJoiner.toString`. */
  function JoinerText(j: StringJoiner): string
  {
    if j.value.None? then j.prefix + j.suffix else j.value.value + j.suffix
  }

  /** `joining(delimiter, prefix, suffix)`. */
  function JoiningWrapped<T>(s: seq<Option<T>>, delimiter: string, prefix: string, suffix: string,
                             toString: T -> string): (r: string)
    ensures |s| == 0 ==> r == prefix + suffix
    ensures r == prefix + Join(Texts(s, toString), delimiter) + suffix
  {
    JoinerText(AddAll(NewJoiner(delimiter, prefix, suffix), Texts(s, toString)))
  }

  /** `joining(delimiter)`: a joiner with empty prefix and suffix. */
  function JoiningWith<T>(s: seq<Option<T>>, delimiter: string, toString: T -> string): (r: string)
    ensures |s| == 0 ==> r == ""
    ensures r == Join(Texts(s, toString), delimiter)
  {
    var r := JoiningWrapped(s, delimiter, "", "", toString);
    assert "" + Join(Texts(s, toString), delimiter) + "" == Join(Texts(s, toString), delimiter);
    r
  }

  /** `joining()`: the texts concatenated with nothing between them. */
  function Joining<T>(s: seq<Option<T>>, toString: T -> string): (r: string)
    ensures |s| == 0 ==> r == ""
    ensures r == Join(Texts(s, toString), "")
  {
    JoinEmptyDelimiter(Texts(s, toString));
    Concat(Texts(s, toString))
  }

  /** The wrapped form is the delimited form between prefix and suffix. */
  lemma JoiningWrappedDecomposes<T>(s: seq<Option<T>>, delimiter: string, prefix: string, suffix: string,
                                    toString: T -> string)
    ensures JoiningWrapped(s, delimiter, prefix, suffix, toString)
         == prefix + JoiningWith(s, delimiter, toString) + suffix
  {
  }

  /** `joining()` is `joining("")`. */
  lemma JoiningIsEmptyDelimiter<T>(s: seq<Option<T>>, toString: T -> string)
    ensures Joining(s, toString) == JoiningWith(s, "", toString)
  {
  }

  /** For a non-empty stream the texts appear in encounter order with
      the delimiter between each neighbouring pair and nowhere else. */
  lemma JoiningWithLayout<T>(s: seq<Option<T>>, delimiter: string, toString: T -> string)
    requires |s| > 0
    ensures JoiningWith(s, delimiter, toString) == Concat(Interleave(Texts(s, toString), delimiter))
    ensures |JoiningWith(s, delimiter, toString)|
         == TotalLength(Texts(s, toString)) + (|s| - 1) * |delimiter|
  {
    JoinIsInterleaved(Texts(s, toString), delimiter);
    JoinLength(Texts(s, toString), delimiter);
  }
}
