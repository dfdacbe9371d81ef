/** The exact two-sided sign test of a counterfactual report (`_sign_test` in `src/niadra_mock/measure.py`),
  * for up to 1000 cases and before rounding. */
module SignTest {
  import opened Basics
  import opened Binomials

  const EXACT_LIMIT: nat := 1000

  /** Twice the tail of the rarer side, out of `2**n`; it may pass 1. */
  function TwoTails(below: nat, above: nat): real {
    (2 * Head(below + above, MinInt(below, above))) as real / Pow2(below + above) as real
  }

  /** None without cases to compare. */
  function Value(below: nat, above: nat): Option<real>
    requires below + above <= EXACT_LIMIT
  {
    if below + above == 0 then None else Some(Min(1.0, TwoTails(below, above)))
  }

  lemma Ratio(x: nat, y: nat)
    requires y > 0
    ensures x as real / y as real > 1.0 <==> x > y
    ensures x > 0 ==> x as real / y as real > 0.0
  {
  }

  lemma HeadPositive(n: nat, k: int)
    requires 0 <= k <= n
    ensures Head(n, k) > 0
  {
    Positive(n, k);
  }

  /** Always a probability, whichever side the cases fell on, and never zero. */
  lemma IsSymmetricProbability(below: nat, above: nat)
    requires 0 < below + above <= EXACT_LIMIT
    ensures 0.0 < Value(below, above).value <= 1.0
    ensures Value(below, above) == Value(above, below)
  {
    HeadPositive(below + above, MinInt(below, above));
    Ratio(2 * Head(below + above, MinInt(below, above)), Pow2(below + above));
  }

  /** Two tails pass the whole row exactly when they overlap in its middle. */
  lemma TailsOverlap(n: nat, k: nat)
    requires 2 * k <= n
    ensures 2 * Head(n, k) > Pow2(n) <==> 2 * k == n
  {
    HeadsMakeRow(n, k);
    if 2 * k == n {
      Positive(n, k);
    } else {
      HeadGrows(n, k, n - k - 1);
    }
  }

  /** The clamp to 1 changes the value exactly when the counts are equal. */
  lemma ClampOnlyWhenEqual(below: nat, above: nat)
    requires 0 < below + above <= EXACT_LIMIT
    ensures Value(below, above).value != TwoTails(below, above) <==> below == above
  {
    var n, k := below + above, MinInt(below, above);
    TailsOverlap(n, k);
    Ratio(2 * Head(n, k), Pow2(n));
  }

  /** Among as many cases, the value never grows as the two counts move apart. */
  lemma NeverGrowsApart(n: nat, j: nat, k: nat)
    requires j <= k && 2 * k <= n && 0 < n <= EXACT_LIMIT
    ensures Value(j, n - j).value <= Value(k, n - k).value
  {
    HeadGrows(n, j, k);
    SmallerNumerator(2 * Head(n, j), 2 * Head(n, k), Pow2(n));
  }

  /** With every case on one side it is two in `2**n`, and without any there is none. */
  lemma AllOnOneSide(n: nat)
    requires n <= EXACT_LIMIT
    ensures Value(0, 0) == None
    ensures n > 0 ==> Value(0, n) == Some(2.0 / Pow2(n) as real)
  {
    if n > 0 {
      Ends(n);
      assert Head(n, 0) == 1;
      assert Pow2(n) >= 2;
      Ratio(2, Pow2(n));
    }
  }

  lemma Whole(x: nat, p: nat)
    requires p > 0
    ensures x as real / p as real * p as real == x as real
  {
  }

  /** It is twice the ways to draw at most the rarer side's cases, out of `2**n`; one case more there adds twice the
    * ways to draw just that many. */
  lemma OutOfAll(n: nat, k: nat)
    requires 2 * k <= n
    ensures TwoTails(k, n - k) * Pow2(n) as real == (2 * Head(n, k)) as real
    ensures Head(n, k) == (if k == 0 then 0 else Head(n, k - 1)) + Choose(n, k)
  {
    assert MinInt(k, n - k) == k && k + (n - k) == n;
    assert TwoTails(k, n - k) == (2 * Head(n, k)) as real / Pow2(n) as real;
    Whole(2 * Head(n, k), Pow2(n));
  }
}
