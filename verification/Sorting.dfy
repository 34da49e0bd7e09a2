/** Python's `sorted(key=...)`: a stable sort. */
module Sorting {
  /** `x` goes after every element whose key is not greater than its own. */
  function Insert<T>(key: T -> int, x: T, sorted: seq<T>): seq<T> {
    if sorted == [] || key(sorted[|sorted| - 1]) <= key(x) then sorted + [x]
    else Insert(key, x, sorted[..|sorted| - 1]) + [sorted[|sorted| - 1]]
  }

  function SortBy<T>(key: T -> int, s: seq<T>): seq<T> {
    if s == [] then [] else Insert(key, s[|s| - 1], SortBy(key, s[..|s| - 1]))
  }

  ghost predicate Ascending<T>(key: T -> int, s: seq<T>) {
    forall i, j :: 0 <= i < j < |s| ==> key(s[i]) <= key(s[j])
  }

  lemma {:induction false} InsertPermutes<T>(key: T -> int, x: T, sorted: seq<T>)
    ensures multiset(Insert(key, x, sorted)) == multiset(sorted) + multiset{x}
    decreases |sorted|
  {
    if sorted != [] && key(sorted[|sorted| - 1]) > key(x) {
      InsertPermutes(key, x, sorted[..|sorted| - 1]);
      assert sorted == sorted[..|sorted| - 1] + [sorted[|sorted| - 1]];
    }
  }

  lemma {:induction false} InsertSorts<T>(key: T -> int, x: T, sorted: seq<T>)
    requires Ascending(key, sorted)
    ensures Ascending(key, Insert(key, x, sorted))
    decreases |sorted|
  {
    if sorted != [] && key(sorted[|sorted| - 1]) > key(x) {
      var init, last := sorted[..|sorted| - 1], sorted[|sorted| - 1];
      InsertSorts(key, x, init);
      InsertPermutes(key, x, init);
      var r := Insert(key, x, init);
      forall i | 0 <= i < |r|
        ensures key(r[i]) <= key(last)
      {
        assert r[i] in multiset(r);
        assert r[i] == x || r[i] in init;
      }
    }
  }

  /** The result is ordered and has the same elements, with the same multiplicities. */
  lemma {:induction false} SortBySorts<T>(key: T -> int, s: seq<T>)
    ensures Ascending(key, SortBy(key, s)) && multiset(SortBy(key, s)) == multiset(s)
    decreases |s|
  {
    if s != [] {
      SortBySorts(key, s[..|s| - 1]);
      InsertSorts(key, s[|s| - 1], SortBy(key, s[..|s| - 1]));
      InsertPermutes(key, s[|s| - 1], SortBy(key, s[..|s| - 1]));
      assert s == s[..|s| - 1] + [s[|s| - 1]];
    }
  }

  /** Sorting leaves an ordered list as it is. */
  lemma {:induction false} SortByAscending<T>(key: T -> int, s: seq<T>)
    requires Ascending(key, s)
    ensures SortBy(key, s) == s
    decreases |s|
  {
    if s != [] {
      SortByAscending(key, s[..|s| - 1]);
      assert s == s[..|s| - 1] + [s[|s| - 1]];
    }
  }
}
