/** The first distinct values of a sequence, up to a cap: what a bounded table that never evicts admits. */
module Admission {
  import opened Sets

  ghost function Elements<T(!new)>(s: seq<T>): set<T> {
    set x | x in s
  }

  /** The first `cap` distinct elements. */
  function FirstDistinct<T(==)>(s: seq<T>, cap: nat): (r: set<T>)
    ensures |r| <= cap
    ensures forall x :: x in r ==> x in s
  {
    if s == [] then {}
    else
      var before := FirstDistinct(s[..|s| - 1], cap);
      if |before| < cap then before + {s[|s| - 1]} else before
  }

  /** Below the cap nothing is left out. */
  lemma {:induction false} NotFullIsAll<T(!new)>(s: seq<T>, cap: nat)
    ensures |FirstDistinct(s, cap)| < cap ==> FirstDistinct(s, cap) == Elements(s)
    decreases |s|
  {
    if s != [] {
      var n := |s| - 1;
      NotFullIsAll(s[..n], cap);
      assert s == s[..n] + [s[n]];
      assert Elements(s) == Elements(s[..n]) + {s[n]};
    }
  }

  lemma FirstDistinctLast<T>(s: seq<T>, cap: nat)
    requires s != []
    ensures var before := FirstDistinct(s[..|s| - 1], cap);
            FirstDistinct(s, cap) == if |before| < cap then before + {s[|s| - 1]} else before
  {
  }

  /** An element is among them exactly when fewer than `cap` others came before its first occurrence. */
  lemma {:induction false} AmongFirstIff<T(!new)>(s: seq<T>, cap: nat, i: nat)
    requires i < |s| && s[i] !in s[..i]
    ensures s[i] in FirstDistinct(s, cap) <==> |Elements(s[..i])| < cap
    decreases |s|
  {
    hide FirstDistinct;
    var n := |s| - 1;
    FirstDistinctLast(s, cap);
    if i == n {
      FullIsFull(s[..n], cap);
      NotFullIsAll(s[..n], cap);
    } else {
      assert s[..n][i] == s[i] && s[..n][..i] == s[..i];
      AmongFirstIff(s[..n], cap, i);
      if |FirstDistinct(s[..n], cap)| < cap {
        NotFullIsAll(s[..n], cap);
        assert s[i] in Elements(s[..n]);
      }
    }
  }

  lemma FullIsFull<T(!new)>(s: seq<T>, cap: nat)
    ensures |FirstDistinct(s, cap)| == cap ==> |Elements(s)| >= cap
    ensures FirstDistinct(s, cap) <= Elements(s)
  {
    SubsetCard(FirstDistinct(s, cap), Elements(s));
  }

  lemma FirstDistinctOne<T>(s: seq<T>, x: T, cap: nat)
    ensures FirstDistinct(s + [x], cap) == if |FirstDistinct(s, cap)| < cap then FirstDistinct(s, cap) + {x} else FirstDistinct(s, cap)
    ensures FirstDistinct<T>([], cap) == {}
  {
    assert (s + [x])[..|s|] == s;
  }
}
