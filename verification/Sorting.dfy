/** Sorting, as the library calls do it: the sorted arrangement of a sequence, characterised. */
module Sorting {

  predicate Ascending(s: seq<int>) {
    forall i, j :: 0 <= i < j < |s| ==> s[i] <= s[j]
  }

  predicate StrictlyAscending(s: seq<int>) {
    forall i, j :: 0 <= i < j < |s| ==> s[i] < s[j]
  }

  predicate Distinct<T(==)>(s: seq<T>) {
    forall i, j :: 0 <= i < j < |s| ==> s[i] != s[j]
  }

  function Insert(x: int, s: seq<int>): (r: seq<int>)
    requires Ascending(s)
    ensures Ascending(r) && multiset(r) == multiset(s) + multiset{x}
    ensures |r| == |s| + 1
    ensures forall y :: y in r <==> y == x || y in s
  {
    if s == [] || x <= s[0] then [x] + s
    else
      var rest := Insert(x, s[1..]);
      assert s == [s[0]] + s[1..];
      HeadAscends(s[0], rest, x, s[1..]);
      [s[0]] + rest
  }

  lemma HeadAscends(head: int, rest: seq<int>, x: int, tail: seq<int>)
    requires Ascending(rest) && Ascending([head] + tail) && head <= x
    requires forall y :: y in rest <==> y == x || y in tail
    ensures Ascending([head] + rest)
  {
    forall k | 0 <= k < |rest| ensures head <= rest[k] {
      assert rest[k] in rest;
      if rest[k] != x {
        var j :| 0 <= j < |tail| && tail[j] == rest[k];
        assert ([head] + tail)[0] == head && ([head] + tail)[j + 1] == rest[k];
      }
    }
  }

  function Sort(s: seq<int>): (r: seq<int>)
    ensures Ascending(r) && multiset(r) == multiset(s)
    ensures |r| == |s|
    ensures forall y :: y in r <==> y in s
  {
    if s == [] then []
    else
      assert s == [s[0]] + s[1..];
      Insert(s[0], Sort(s[1..]))
  }

  lemma {:induction false} SortOfAscending(s: seq<int>)
    requires Ascending(s)
    ensures Sort(s) == s
  {
    if s != [] {
      SortOfAscending(s[1..]);
    }
  }

  /** A sequence is free of repetitions exactly when no element has multiplicity two. */
  lemma {:induction false} DistinctByMultiplicity<T>(s: seq<T>)
    ensures Distinct(s) <==> forall x :: x in s ==> multiset(s)[x] == 1
  {
    if s != [] {
      var t := s[1..];
      assert s == [s[0]] + t;
      DistinctByMultiplicity(t);
      if Distinct(s) {
        assert Distinct(t) && s[0] !in t;
      } else if forall x :: x in s ==> multiset(s)[x] == 1 {
        assert multiset(s)[s[0]] == 1 && s[0] !in t;
        forall x | x in t ensures multiset(t)[x] == 1 {
          assert x in s && multiset(s)[x] == 1;
        }
        assert false;
      }
    }
  }

  /** Sorting yields a strictly ascending sequence exactly when there was nothing repeated. */
  lemma SortStrictExactlyWhenDistinct(s: seq<int>)
    ensures StrictlyAscending(Sort(s)) <==> Distinct(s)
  {
    var r := Sort(s);
    DistinctByMultiplicity(s);
    DistinctByMultiplicity(r);
    assert forall x :: multiset(r)[x] == multiset(s)[x];
    assert StrictlyAscending(r) <==> Distinct(r);
  }
}
