/** Sequence combinators that the stream operations are built from:
    element-wise mapping, filtering, flattening, and the predicates used
    to state order preservation and key uniqueness. */
module Seqs {

  /** `r` occurs in `s` in the same relative order, possibly with gaps. */
  predicate IsSubsequence<T(==)>(r: seq<T>, s: seq<T>)
    decreases |s|
  {
    if |r| == 0 then true
    else if |s| == 0 then false
    else (r[0] == s[0] && IsSubsequence(r[1..], s[1..])) || IsSubsequence(r, s[1..])
  }

  /** No two positions of `s` hold equal values. */
  predicate Distinct<T(==)>(s: seq<T>)
  {
    forall i, j :: 0 <= i < j < |s| ==> s[i] != s[j]
  }

  /** `Function.identity()`. */
  function Identity<T>(x: T): T
  {
    x
  }

  /** `Stream.map`: apply `f` to every element, keeping the order. */
  function Map<T, R>(s: seq<T>, f: T -> R): (r: seq<R>)
    ensures |r| == |s|
    ensures forall i :: 0 <= i < |s| ==> r[i] == f(s[i])
  {
    seq(|s|, i requires 0 <= i < |s| => f(s[i]))
  }

  /** Mapping distributes over concatenation. */
  lemma {:induction false} MapAppend<T, R>(a: seq<T>, b: seq<T>, f: T -> R)
    ensures Map(a + b, f) == Map(a, f) + Map(b, f)
  {
    forall i | 0 <= i < |b| ensures Map(a + b, f)[|a| + i] == Map(b, f)[i] {
      assert (a + b)[|a| + i] == b[i];
    }
  }

  /** Mapping preserves the subsequence relation. */
  lemma {:induction false} MapSubsequence<T, R>(a: seq<T>, b: seq<T>, f: T -> R)
    requires IsSubsequence(a, b)
    ensures IsSubsequence(Map(a, f), Map(b, f))
    decreases |b|
  {
    if |a| > 0 && |b| > 0 {
      assert Map(a, f)[1..] == Map(a[1..], f);
      assert Map(b, f)[1..] == Map(b[1..], f);
      if a[0] == b[0] && IsSubsequence(a[1..], b[1..]) {
        MapSubsequence(a[1..], b[1..], f);
      } else {
        MapSubsequence(a, b[1..], f);
      }
    }
  }

  /** `Stream.filter`: the elements passing `p`, in their original order. */
  function Filter<T(==)>(s: seq<T>, p: T -> bool): (r: seq<T>)
    ensures |r| <= |s|
    ensures forall i :: 0 <= i < |r| ==> r[i] in s && p(r[i])
  {
    if |s| == 0 then []
    else
      assert s == [s[0]] + s[1..];
      if p(s[0]) then [s[0]] + Filter(s[1..], p) else Filter(s[1..], p)
  }

  /** An element passing the test survives filtering. */
  lemma {:induction false} FilterKeepsPassing<T>(s: seq<T>, p: T -> bool, i: nat)
    requires i < |s| && p(s[i])
    ensures s[i] in Filter(s, p)
  {
    if i > 0 {
      assert s[i] == s[1..][i - 1];
      FilterKeepsPassing(s[1..], p, i - 1);
    }
  }

  /** Filtering keeps the passing elements in their original order. */
  lemma {:induction false} FilterKeepsOrder<T>(s: seq<T>, p: T -> bool)
    ensures IsSubsequence(Filter(s, p), s)
  {
    if |s| > 0 {
      FilterKeepsOrder(s[1..], p);
      var r := Filter(s, p);
      if p(s[0]) {
        assert r[0] == s[0] && r[1..] == Filter(s[1..], p);
      }
    }
  }

  /** Filtering keeps every passing element as often as it occurs and
      drops every other element. */
  lemma {:induction false} FilterKeepsCount<T>(s: seq<T>, p: T -> bool)
    ensures forall i :: 0 <= i < |s| ==>
      multiset(Filter(s, p))[s[i]] == if p(s[i]) then multiset(s)[s[i]] else 0
  {
    if |s| > 0 {
      var rest := Filter(s[1..], p);
      FilterKeepsCount(s[1..], p);
      assert s == [s[0]] + s[1..];
      assert multiset(s) == multiset{s[0]} + multiset(s[1..]);
      assert multiset(Filter(s, p)) == (if p(s[0]) then multiset{s[0]} else multiset{}) + multiset(rest);
      forall i | 0 <= i < |s|
        ensures multiset(Filter(s, p))[s[i]] == if p(s[i]) then multiset(s)[s[i]] else 0
      {
        if s[i] !in s[1..] {
          assert multiset(s[1..])[s[i]] == 0;
          assert multiset(rest)[s[i]] == 0;
        } else {
          var k :| 0 <= k < |s[1..]| && s[1..][k] == s[i];
        }
      }
    }
  }

  /** The mapped survivors of a filter come from passing elements, and
      every passing element's image survives. */
  lemma {:induction false} MapFilterMembers<T, R>(s: seq<T>, p: T -> bool, f: T -> R)
    ensures forall j :: 0 <= j < |Map(Filter(s, p), f)| ==>
      exists i :: 0 <= i < |s| && p(s[i]) && f(s[i]) == Map(Filter(s, p), f)[j]
    ensures forall i :: 0 <= i < |s| && p(s[i]) ==> f(s[i]) in Map(Filter(s, p), f)
  {
    var passing := Filter(s, p);
    var r := Map(passing, f);
    forall j | 0 <= j < |r|
      ensures exists i :: 0 <= i < |s| && p(s[i]) && f(s[i]) == r[j]
    {
      assert passing[j] in s;
      var i :| 0 <= i < |s| && s[i] == passing[j];
      assert p(s[i]) && f(s[i]) == r[j];
    }
    assert forall j :: 0 <= j < |r| ==> exists i :: 0 <= i < |s| && p(s[i]) && f(s[i]) == r[j];
    forall i | 0 <= i < |s| && p(s[i]) ensures f(s[i]) in r {
      FilterKeepsPassing(s, p, i);
      var j :| 0 <= j < |passing| && passing[j] == s[i];
      assert r[j] == f(s[i]);
    }
  }

  /** The set of values `f` takes on the elements of `s`. */
  function Image<T, R>(s: seq<T>, f: T -> R): (r: set<R>)
    ensures forall i :: 0 <= i < |s| ==> f(s[i]) in r
  {
    if |s| == 0 then {} else {f(s[0])} + Image(s[1..], f)
  }

  /** Every value of the image is taken on some element. */
  lemma {:induction false} ImageWitness<T, R>(s: seq<T>, f: T -> R, y: R)
    requires y in Image(s, f)
    ensures exists i :: 0 <= i < |s| && f(s[i]) == y
  {
    if f(s[0]) != y {
      ImageWitness(s[1..], f, y);
      var i :| 0 <= i < |s[1..]| && f(s[1..][i]) == y;
      assert f(s[i + 1]) == y;
    }
  }

  /** Concatenation of a sequence of sequences, in order. */
  function Flatten<T>(ss: seq<seq<T>>): seq<T>
  {
    if |ss| == 0 then [] else ss[0] + Flatten(ss[1..])
  }

  /** Sum of the lengths of the inner sequences. */
  function TotalLength<T>(ss: seq<seq<T>>): nat
  {
    if |ss| == 0 then 0 else |ss[0]| + TotalLength(ss[1..])
  }

  lemma {:induction false} FlattenLength<T>(ss: seq<seq<T>>)
    ensures |Flatten(ss)| == TotalLength(ss)
  {
    if |ss| > 0 {
      FlattenLength(ss[1..]);
    }
  }

  lemma {:induction false} FlattenMembership<T>(ss: seq<seq<T>>, x: T)
    ensures x in Flatten(ss) <==> exists i :: 0 <= i < |ss| && x in ss[i]
  {
    if |ss| > 0 {
      FlattenMembership(ss[1..], x);
      if x in Flatten(ss[1..]) {
        var i :| 0 <= i < |ss[1..]| && x in ss[1..][i];
        assert x in ss[i + 1];
      }
      if exists i :: 0 <= i < |ss| && x in ss[i] {
        var i :| 0 <= i < |ss| && x in ss[i];
        if i > 0 {
          assert x in ss[1..][i - 1];
        }
      }
    }
  }

  /** Every element of the flattening comes from some part, and every
      element of every part is in the flattening. */
  lemma {:induction false} FlattenMembers<T>(ss: seq<seq<T>>)
    ensures forall k :: 0 <= k < |Flatten(ss)| ==> exists i :: 0 <= i < |ss| && Flatten(ss)[k] in ss[i]
    ensures forall i, j :: 0 <= i < |ss| && 0 <= j < |ss[i]| ==> ss[i][j] in Flatten(ss)
  {
    var flat := Flatten(ss);
    forall k | 0 <= k < |flat|
      ensures exists i :: 0 <= i < |ss| && flat[k] in ss[i]
    {
      assert flat[k] in flat;
      FlattenMembership(ss, flat[k]);
    }
    forall i, j | 0 <= i < |ss| && 0 <= j < |ss[i]|
      ensures ss[i][j] in flat
    {
      assert ss[i][j] in ss[i];
      FlattenMembership(ss, ss[i][j]);
    }
  }

  lemma {:induction false} FlattenAppend<T>(a: seq<seq<T>>, b: seq<seq<T>>)
    ensures Flatten(a + b) == Flatten(a) + Flatten(b)
  {
    if |a| == 0 {
      assert a + b == b;
    } else {
      assert (a + b)[1..] == a[1..] + b;
      FlattenAppend(a[1..], b);
    }
  }

  /** Filtering distributes over concatenation. */
  lemma {:induction false} FilterAppend<T>(a: seq<T>, b: seq<T>, p: T -> bool)
    ensures Filter(a + b, p) == Filter(a, p) + Filter(b, p)
  {
    if |a| == 0 {
      assert a + b == b;
    } else {
      assert (a + b)[0] == a[0];
      assert (a + b)[1..] == a[1..] + b;
      FilterAppend(a[1..], b, p);
    }
  }

  /** Filtering twice by the same predicate is filtering once. */
  lemma {:induction false} FilterIdempotent<T>(s: seq<T>, p: T -> bool)
    ensures Filter(Filter(s, p), p) == Filter(s, p)
  {
    if |s| > 0 {
      FilterIdempotent(s[1..], p);
    }
  }

  /** A filter that keeps everything is the identity. */
  lemma {:induction false} FilterAll<T>(s: seq<T>, p: T -> bool)
    requires forall i :: 0 <= i < |s| ==> p(s[i])
    ensures Filter(s, p) == s
  {
    if |s| > 0 {
      FilterAll(s[1..], p);
    }
  }

  lemma {:induction false} SubsequenceDistinct<T>(r: seq<T>, s: seq<T>)
    requires IsSubsequence(r, s)
    requires Distinct(s)
    ensures Distinct(r)
    decreases |s|
  {
    if |r| > 0 && |s| > 0 {
      if r[0] == s[0] && IsSubsequence(r[1..], s[1..]) {
        SubsequenceDistinct(r[1..], s[1..]);
        SubsequenceMembers(r[1..], s[1..]);
        forall j | 0 < j < |r| ensures r[0] != r[j] {
          assert r[j] == r[1..][j - 1];
          assert r[j] in s[1..];
        }
        forall i, j | 0 <= i < j < |r| ensures r[i] != r[j] {
          if i > 0 {
            assert r[i] == r[1..][i - 1] && r[j] == r[1..][j - 1];
          }
        }
      } else {
        SubsequenceDistinct(r, s[1..]);
      }
    }
  }

  lemma {:induction false} SubsequenceMembers<T>(r: seq<T>, s: seq<T>)
    requires IsSubsequence(r, s)
    ensures forall x :: x in r ==> x in s
    decreases |s|
  {
    if |r| > 0 && |s| > 0 {
      if r[0] == s[0] && IsSubsequence(r[1..], s[1..]) {
        SubsequenceMembers(r[1..], s[1..]);
        assert r == [r[0]] + r[1..];
      } else {
        SubsequenceMembers(r, s[1..]);
      }
    }
  }
}
