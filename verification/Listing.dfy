/** Rows that list a set of keys, each once, in any order. */
module Listing {
  import opened Sets

  ghost predicate Lists<K(!new), R>(rows: seq<R>, keyOf: R -> K, keys: set<K>) {
    && |rows| == |keys|
    && (forall i :: 0 <= i < |rows| ==> keyOf(rows[i]) in keys)
    && Distinct(rows, keyOf)
  }

  ghost predicate Distinct<K(!new), R>(rows: seq<R>, keyOf: R -> K) {
    forall i, j :: 0 <= i < j < |rows| ==> keyOf(rows[i]) != keyOf(rows[j])
  }

  ghost function KeysOf<K, R>(rows: seq<R>, keyOf: R -> K): set<K> {
    if rows == [] then {} else KeysOf(rows[..|rows| - 1], keyOf) + {keyOf(rows[|rows| - 1])}
  }

  lemma {:induction false} KeysOfFrom<K, R>(rows: seq<R>, keyOf: R -> K, key: K) returns (i: nat)
    requires key in KeysOf(rows, keyOf)
    ensures i < |rows| && keyOf(rows[i]) == key
    decreases |rows|
  {
    if keyOf(rows[|rows| - 1]) == key {
      i := |rows| - 1;
    } else {
      i := KeysOfFrom(rows[..|rows| - 1], keyOf, key);
    }
  }

  lemma {:induction false} DistinctCount<K(!new), R>(rows: seq<R>, keyOf: R -> K)
    requires Distinct(rows, keyOf)
    ensures |KeysOf(rows, keyOf)| == |rows|
    decreases |rows|
  {
    if rows != [] {
      var init, last := rows[..|rows| - 1], keyOf(rows[|rows| - 1]);
      DistinctCount(init, keyOf);
      if last in KeysOf(init, keyOf) {
        var i := KeysOfFrom(init, keyOf, last);
        assert false;
      }
    }
  }

  /** No key is left out. */
  lemma EveryKeyIsListed<K(!new), R>(rows: seq<R>, keyOf: R -> K, keys: set<K>, key: K) returns (i: nat)
    requires Lists(rows, keyOf, keys) && key in keys
    ensures i < |rows| && keyOf(rows[i]) == key
  {
    DistinctCount(rows, keyOf);
    forall k | k in KeysOf(rows, keyOf)
      ensures k in keys
    {
      var j := KeysOfFrom(rows, keyOf, k);
    }
    SameCardSubset(KeysOf(rows, keyOf), keys);
    i := KeysOfFrom(rows, keyOf, key);
  }

  lemma TwiceCounted<R>(s: seq<R>, i: int, j: int)
    requires 0 <= i < j < |s| && s[i] == s[j]
    ensures multiset(s)[s[i]] >= 2
  {
    assert s == s[..i] + [s[i]] + s[i + 1..j] + [s[j]] + s[j + 1..];
  }

  lemma OnceCounted<K(!new), R>(rows: seq<R>, keyOf: R -> K, i: nat)
    requires Distinct(rows, keyOf) && i < |rows|
    ensures multiset(rows)[rows[i]] == 1
  {
    assert rows == rows[..i] + [rows[i]] + rows[i + 1..];
    assert rows[i] !in rows[..i];
    assert rows[i] !in rows[i + 1..];
  }

  /** Reordering the rows keeps the listing. */
  lemma PermutedLists<K(!new), R>(a: seq<R>, b: seq<R>, keyOf: R -> K, keys: set<K>)
    requires Lists(a, keyOf, keys) && multiset(a) == multiset(b)
    ensures Lists(b, keyOf, keys)
    ensures forall i :: 0 <= i < |b| ==> b[i] in a
  {
    assert |a| == |multiset(a)| == |multiset(b)| == |b|;
    forall i | 0 <= i < |b|
      ensures b[i] in a
    {
      assert b[i] in multiset(b);
    }
    forall i, j | 0 <= i < j < |b|
      ensures keyOf(b[i]) != keyOf(b[j])
    {
      var i' :| 0 <= i' < |a| && a[i'] == b[i];
      var j' :| 0 <= j' < |a| && a[j'] == b[j];
      if i' == j' {
        TwiceCounted(b, i, j);
        OnceCounted(a, keyOf, i');
      }
    }
  }
}
