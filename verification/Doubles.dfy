/** The int64 to double cast: round to nearest with a 53-bit significand, ties to even. */
module Doubles {

  const EXACT_LIMIT: int := 9007199254740992  // 2^53

  /** Spacing of the doubles around n. */
  function Ulp(n: nat): (u: nat)
    ensures u >= 1
  {
    if n < EXACT_LIMIT then 1 else 2 * Ulp(n / 2)
  }

  function Nearest(n: nat): nat {
    var u := Ulp(n);
    var q, rest := n / u, n % u;
    if 2 * rest < u || (2 * rest == u && q % 2 == 0) then q * u else (q + 1) * u
  }

  function IntToDouble(i: int): real {
    if i < 0 then -(Nearest(-i) as real) else Nearest(i) as real
  }

  lemma NearestIsExact(n: nat)
    requires n <= EXACT_LIMIT
    ensures Nearest(n) == n
  {
    if n == EXACT_LIMIT {
      assert Ulp(n) == 2 * Ulp(n / 2) == 2;
    }
  }

  lemma CastIsExact(i: int)
    requires -EXACT_LIMIT <= i <= EXACT_LIMIT
    ensures IntToDouble(i) == i as real
  {
    NearestIsExact(if i < 0 then -i else i);
  }

  /** The first integer with no double of its own: 2^53 + 1 rounds down to 2^53. */
  lemma FirstInexact()
    ensures IntToDouble(EXACT_LIMIT + 1) == IntToDouble(EXACT_LIMIT)
  {
    NearestIsExact(EXACT_LIMIT);
    var n: nat := EXACT_LIMIT + 1;
    assert Ulp(n) == 2 * Ulp(n / 2) == 2;
    assert n / 2 == 4503599627370496 && n % 2 == 1;
  }

  predicate CompareAgrees(x: int, y: int) {
    IntToDouble(x) < IntToDouble(y) <==> x < y
  }

  /**
   Comparing two integers through double, as the typed fast path does, gives the exact answer for all
   integers of magnitude up to `bound` if and only if `bound` is at most 2^53.
   */
  lemma CompareThroughDouble(bound: int)
    ensures (forall x: int, y: int | -bound <= x <= bound && -bound <= y <= bound :: CompareAgrees(x, y))
            <==> bound <= EXACT_LIMIT
  {
    if bound <= EXACT_LIMIT {
      forall x: int, y: int | -bound <= x <= bound && -bound <= y <= bound
        ensures CompareAgrees(x, y)
      {
        CastIsExact(x);
        CastIsExact(y);
      }
    } else {
      FirstInexact();
      assert !CompareAgrees(EXACT_LIMIT, EXACT_LIMIT + 1);
    }
  }
}
