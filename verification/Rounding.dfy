/** Python's `round` of a quotient, and the averages it gives. */
module Rounding {
  /** `round` to an integer, halves to even. */
  function Rounded(sum: int, count: int): int
    requires count > 0
  {
    var q, r := sum / count, sum % count;
    if 2 * r < count || (2 * r == count && q % 2 == 0) then q else q + 1
  }

  lemma MulLe(a: int, b: int, n: nat)
    requires a <= b
    ensures a * n <= b * n
  {
  }

  lemma DivMod(sum: int, count: int)
    requires count > 0
    ensures sum == (sum / count) * count + sum % count && 0 <= sum % count < count
  {
  }

  /** It is the nearest integer, and the even one of two that are equally near. */
  lemma RoundedIsNearest(sum: int, count: int)
    requires count > 0
    ensures var n := Rounded(sum, count);
            -count <= 2 * (n * count - sum) <= count && (2 * (n * count - sum) == count || 2 * (sum - n * count) == count ==> n % 2 == 0)
  {
    DivMod(sum, count);
    var q := sum / count;
    assert (q + 1) * count == q * count + count;
  }

  lemma RoundedBetween(lo: int, hi: int, sum: int, count: int)
    requires count > 0 && lo * count <= sum <= hi * count
    ensures lo <= Rounded(sum, count) <= hi
  {
    var q, r := sum / count, sum % count;
    DivMod(sum, count);
    assert (q + 1) * count == q * count + count && (hi + 1) * count == hi * count + count;
    if q < lo {
      MulLe(q + 1, lo, count);
      assert false;
    }
    if q >= hi {
      MulLe(hi, q, count);
      if q > hi {
        MulLe(hi + 1, q, count);
        assert false;
      }
    }
  }

  /** One more sample widens the range and stays in it. */
  lemma SampleBetween(lo: int, hi: int, lo': int, hi': int, sum: int, n: nat, ms: int)
    requires lo' <= ms <= hi' && (n > 0 ==> lo' <= lo && hi <= hi' && lo * n <= sum <= hi * n) && (n == 0 ==> sum == 0)
    ensures lo' * (n + 1) <= sum + ms <= hi' * (n + 1)
  {
    if n > 0 {
      MulLe(lo', lo, n);
      MulLe(hi, hi', n);
    }
    assert lo' * (n + 1) == lo' * n + lo' && hi' * (n + 1) == hi' * n + hi';
  }
}
