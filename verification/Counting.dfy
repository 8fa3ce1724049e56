/** Lists without repetition, their counts, and tables that are looked up by a key. */
module Counting {
  import opened Wrappers

  ghost predicate NoRepeat<T>(s: seq<T>) {
    forall i, j :: 0 <= i < j < |s| ==> s[i] != s[j]
  }

  function Elements<T(==)>(s: seq<T>): set<T> {
    set x | x in s
  }

  /** As many elements as places means that nothing repeats. */
  lemma {:induction false} CountElements<T>(s: seq<T>)
    ensures |Elements(s)| <= |s| && (|Elements(s)| == |s| <==> NoRepeat(s))
    decreases |s|
  {
    if s != [] {
      var front, last := s[..|s| - 1], s[|s| - 1];
      CountElements(front);
      assert s == front + [last];
      assert Elements(s) == Elements(front) + {last};
      if last in Elements(front) {
        assert Elements(s) == Elements(front);
        var i :| 0 <= i < |front| && front[i] == last;
        assert s[i] == s[|s| - 1];
      }
    }
  }

  lemma {:induction false} CountOnce<T>(s: seq<T>, x: T)
    requires NoRepeat(s)
    ensures multiset(s)[x] == if x in s then 1 else 0
    decreases |s|
  {
    if s != [] {
      var front, last := s[..|s| - 1], s[|s| - 1];
      CountOnce(front, x);
      assert s == front + [last];
      assert forall i :: 0 <= i < |front| ==> front[i] != last;
    }
  }

  lemma TwiceInside<T>(s: seq<T>, i: nat, j: nat)
    requires i < j < |s| && s[i] == s[j]
    ensures multiset(s)[s[i]] >= 2
  {
    assert s == s[..i] + [s[i]] + s[i + 1..j] + [s[j]] + s[j + 1..];
  }

  /** A permutation of a list without repetition has none. */
  lemma PermutedNoRepeat<T>(s: seq<T>, t: seq<T>)
    requires NoRepeat(s) && multiset(s) == multiset(t)
    ensures NoRepeat(t)
  {
    forall i, j | 0 <= i < j < |t|
      ensures t[i] != t[j]
    {
      if t[i] == t[j] {
        TwiceInside(t, i, j);
        CountOnce(s, t[i]);
      }
    }
  }

  lemma SubsetOfSameSize<T>(a: set<T>, b: set<T>)
    requires a <= b && |a| == |b|
    ensures a == b
  {
    assert b == a + (b - a);
  }

  /** Two lists without repetition, as long as each other, one inside the other, are permutations. */
  lemma SameLengthInside<T>(inner: seq<T>, outer: seq<T>)
    requires NoRepeat(inner) && NoRepeat(outer) && |inner| == |outer|
    requires forall x :: x in inner ==> x in outer
    ensures multiset(inner) == multiset(outer)
  {
    CountElements(inner);
    CountElements(outer);
    SubsetOfSameSize(Elements(inner), Elements(outer));
    forall x
      ensures multiset(inner)[x] == multiset(outer)[x]
    {
      CountOnce(inner, x);
      CountOnce(outer, x);
      assert x in inner <==> x in Elements(inner);
      assert x in outer <==> x in Elements(outer);
    }
  }

  // ----- Tables -----

  function Keys<T>(s: seq<T>, key: T -> string): (k: seq<string>)
    ensures |k| == |s| && forall i :: 0 <= i < |s| ==> k[i] == key(s[i])
  {
    seq(|s|, i requires 0 <= i < |s| => key(s[i]))
  }

  function KeySet<T(==)>(s: seq<T>, key: T -> string): set<string> {
    set x | x in s :: key(x)
  }

  ghost predicate DistinctBy<T>(s: seq<T>, key: T -> string) {
    forall i, j :: 0 <= i < j < |s| ==> key(s[i]) != key(s[j])
  }

  lemma KeysElements<T>(s: seq<T>, key: T -> string)
    ensures KeySet(s, key) == Elements(Keys(s, key))
  {
    forall k
      ensures k in KeySet(s, key) <==> k in Elements(Keys(s, key))
    {
      if k in KeySet(s, key) {
        var x :| x in s && key(x) == k;
        var i :| 0 <= i < |s| && s[i] == x;
        assert Keys(s, key)[i] == k;
      }
      if k in Elements(Keys(s, key)) {
        var i :| 0 <= i < |s| && Keys(s, key)[i] == k;
        assert s[i] in s;
      }
    }
  }

  /** As many keys as rows means that no key occurs twice. */
  lemma CountKeys<T>(s: seq<T>, key: T -> string)
    ensures |KeySet(s, key)| <= |s| && (|KeySet(s, key)| == |s| <==> DistinctBy(s, key))
  {
    KeysElements(s, key);
    CountElements(Keys(s, key));
  }

  /** What a map built from the rows holds for a key: the last row with it. */
  function LastWith<T(!new)>(rows: seq<T>, key: T -> string, k: string): (r: Option<T>)
    ensures r.Some? ==> r.value in rows && key(r.value) == k
    ensures r.None? <==> forall x :: x in rows ==> key(x) != k
  {
    if rows == [] then None
    else
      var last := rows[|rows| - 1];
      assert forall x :: x in rows <==> x in rows[..|rows| - 1] || x == last;
      if key(last) == k then Some(last) else LastWith(rows[..|rows| - 1], key, k)
  }

  lemma {:induction false} LastWithDistinct<T(!new)>(rows: seq<T>, key: T -> string, i: nat)
    requires DistinctBy(rows, key) && i < |rows|
    ensures LastWith(rows, key, key(rows[i])) == Some(rows[i])
    decreases |rows|
  {
    var last := |rows| - 1;
    if i < last {
      LastWithDistinct(rows[..last], key, i);
    }
  }

  lemma LastWithNext<T(!new)>(rows: seq<T>, x: T, key: T -> string, k: string)
    ensures LastWith(rows + [x], key, k) == if key(x) == k then Some(x) else LastWith(rows, key, k)
  {
    assert (rows + [x])[..|rows|] == rows;
  }

  lemma KeySetNext<T>(rows: seq<T>, x: T, key: T -> string)
    ensures KeySet(rows + [x], key) == KeySet(rows, key) + {key(x)}
  {
    assert forall y :: y in rows + [x] <==> y in rows || y == x;
    assert x in rows + [x];
  }

  /** A key distinct rows end with is not among those before. */
  lemma LastKeyIsNew<T>(rows: seq<T>, key: T -> string)
    requires rows != [] && DistinctBy(rows, key)
    ensures key(rows[|rows| - 1]) !in KeySet(rows[..|rows| - 1], key)
    ensures DistinctBy(rows[..|rows| - 1], key)
  {}
}
