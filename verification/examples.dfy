/** Concrete instances of the documented behaviour, stated as lemmas about the model. */
module Examples {
  import opened Wrappers
  import opened StreamEx
  import opened Strings
  import opened Collect
  import opened Sources

  function Text(x: string): string
  {
    x
  }

  /** The texts of `of("a", "b", "c")`. */
  lemma AbcTexts()
    ensures Texts([Some("a"), Some("b"), Some("c")], Text) == ["a", "b", "c"]
    ensures Join(["a", "b", "c"], ",") == "a,b,c"
    ensures Concat(["a", "b", "c"]) == "abc"
  {
    assert ["a", "b", "c"][1..] == ["b", "c"];
    assert ["b", "c"][1..] == ["c"];
  }

  /** `of("a", "b", "c")` joined without and with a delimiter, and the empty stream joined. */
  lemma JoiningExamples()
    ensures Joining([Some("a"), Some("b"), Some("c")], Text) == "abc"
    ensures JoiningWith([Some("a"), Some("b"), Some("c")], ",", Text) == "a,b,c"
    ensures Joining([], Text) == ""
  {
    AbcTexts();
    JoinEmptyDelimiter(["a", "b", "c"]);
  }

  /** `of("a", "b", "c").joining(",", "[", "]")`. */
  lemma JoiningWrappedExample()
    ensures JoiningWrapped([Some("a"), Some("b"), Some("c")], ",", "[", "]", Text) == "[a,b,c]"
  {
    AbcTexts();
  }

  /** A null element is rendered as the text `null`. */
  lemma JoiningNullExample()
    ensures JoiningWith([Some("a"), None], ",", Text) == "a,null"
  {
    assert Texts([Some("a"), None], Text) == ["a", "null"];
    assert ["a", "null"][1..] == ["null"];
  }

  /** `toMap` over a repeated element fails; over distinct elements it has one entry each. */
  lemma ToMapExamples()
    ensures ToMapByValue([1, 2, 1], (x: int) => x * 10).Failure?
    ensures ToMapByValue([1, 2], (x: int) => x * 10) == Success(map[1 := 10, 2 := 20])
  {
    assert [1, 2, 1][0] == [1, 2, 1][2];
    var r := ToMapByValue([1, 2], (x: int) => x * 10);
    assert [1, 2][0] != [1, 2][1];
    assert r.value.Keys == {1, 2} by {
      assert 1 in r.value && 2 in r.value;
    }
  }

  /** `has(null)` finds a null element; an absent value is not found. */
  lemma HasExamples()
    ensures Has([Some(1), None, Some(3)], None)
    ensures !Has([Some(1), None, Some(3)], Some(2))
  {
    assert [Some(1), None, Some(3)][1] == None;
  }

  /** `iterate(0, n -> n + 1).limit(5)`. */
  lemma IterateExample()
    ensures IterateLimit(0, (n: int) => n + 1, 5) == [0, 1, 2, 3, 4]
  {
  }

  function Parity(x: int): int
  {
    x % 2
  }

  /** `groupingBy(x -> x % 2)` over `[1, 2, 3, 4]`. */
  lemma GroupingByExample()
    ensures GroupingBy([1, 2, 3, 4], Parity) == map[0 := [2, 4], 1 := [1, 3]]
  {
    var c := Parity;
    assert c(1) == 1 && c(2) == 0 && c(3) == 1 && c(4) == 0;
    assert [4][1..] == [];
    var g4 := GroupingBy([4], c);
    assert g4 == map[][0 := [4] + []];
    assert [4] + [] == [4];
    assert [3, 4][1..] == [4];
    var g3 := GroupingBy([3, 4], c);
    assert g3 == g4[1 := [3] + []];
    assert [3] + [] == [3];
    assert [2, 3, 4][1..] == [3, 4];
    var g2 := GroupingBy([2, 3, 4], c);
    assert g2 == g3[0 := [2] + [4]];
    assert [1, 2, 3, 4][1..] == [2, 3, 4];
    assert GroupingBy([1, 2, 3, 4], c) == g2[1 := [1] + [3]];
    assert [2] + [4] == [2, 4] && [1] + [3] == [1, 3];
    assert g2[1 := [1] + [3]] == map[0 := [2, 4], 1 := [1, 3]];
  }

  /** A small object universe for `select`: boxed integers and strings. */
  datatype Obj = Int(i: int) | Str(text: string)

  /** `Integer.class::isInstance` on a non-null object. */
  function IsInteger(o: Obj): bool
  {
    o.Int?
  }

  /** `select(Integer.class)` keeps only the integers, in order, and never a null. */
  lemma SelectExample()
    ensures Select([Some(Int(1)), None, Some(Str("a")), Some(Int(3))], IsInteger) == [Some(Int(1)), Some(Int(3))]
  {
    var s: seq<Option<Obj>> := [Some(Int(1)), None, Some(Str("a")), Some(Int(3))];
    assert s[1..] == [None, Some(Str("a")), Some(Int(3))];
    assert s[1..][1..] == [Some(Str("a")), Some(Int(3))];
    assert s[1..][1..][1..] == [Some(Int(3))];
    assert |s[1..][1..][1..][1..]| == 0;
  }
}
