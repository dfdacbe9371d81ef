/** Binomial coefficients (Python's `math.comb`) and the identities the two exact tests rest on. */
module Binomials {
  import opened Basics

  function Choose(n: nat, k: int): nat {
    if k < 0 || k > n then 0 else if n == 0 then 1 else Choose(n - 1, k - 1) + Choose(n - 1, k)
  }

  lemma Pascal(n: nat, k: int)
    requires n > 0
    ensures Choose(n, k) == Choose(n - 1, k - 1) + Choose(n - 1, k)
  {
  }

  lemma {:induction false} Positive(n: nat, k: int)
    requires 0 <= k <= n
    ensures Choose(n, k) > 0
  {
    if n > 0 {
      if k < n {
        Positive(n - 1, k);
      } else {
        Positive(n - 1, k - 1);
      }
    }
  }

  lemma {:induction false} Ends(n: nat)
    ensures Choose(n, 0) == 1 && Choose(n, n) == 1
  {
    if n > 0 {
      Ends(n - 1);
    }
  }

  lemma {:induction false} Symmetric(n: nat, k: int)
    ensures Choose(n, k) == Choose(n, n - k)
  {
    if n > 0 && 0 <= k <= n {
      Symmetric(n - 1, k - 1);
      Symmetric(n - 1, k);
    }
  }

  /** The coefficients of a row grow up to its middle. */
  lemma {:induction false} GrowsToMiddle(n: nat, k: int)
    requires 2 * k <= n + 1
    ensures Choose(n, k - 1) <= Choose(n, k)
  {
    if k >= 1 && n >= 1 {
      if 2 * k == n + 1 {
        Symmetric(n, k);
      } else {
        GrowsToMiddle(n - 1, k);
        GrowsToMiddle(n - 1, k - 1);
        Pascal(n, k);
        Pascal(n, k - 1);
      }
    }
  }

  /** The ways to draw `n` items, at least `lo` of them from the first `a`, the rest from the other `b`. */
  function Draws(a: nat, b: nat, n: int, lo: int): nat
    decreases n - lo
  {
    if lo > n then 0 else Choose(a, lo) * Choose(b, n - lo) + Draws(a, b, n, lo + 1)
  }

  /** One more in the first group: it is drawn or not. */
  lemma {:induction false} FirstGroupGrows(a: nat, b: nat, n: int, lo: int)
    ensures Draws(a + 1, b, n, lo) == Draws(a, b, n, lo) + Draws(a, b, n - 1, lo - 1)
    decreases n - lo
  {
    if lo <= n {
      FirstGroupGrows(a, b, n, lo + 1);
      Pascal(a + 1, lo);
      Distribute(Choose(a, lo - 1), Choose(a, lo), Choose(b, n - lo));
      assert (n - 1) - (lo - 1) == n - lo;
    }
  }

  /** One more in the second group: it is drawn or not. */
  lemma {:induction false} SecondGroupGrows(a: nat, b: nat, n: int, lo: int)
    ensures Draws(a, b + 1, n, lo) == Draws(a, b, n, lo) + Draws(a, b, n - 1, lo)
    decreases n - lo
  {
    if lo <= n {
      SecondGroupGrows(a, b, n, lo + 1);
      Pascal(b + 1, n - lo);
      Distribute(Choose(b, n - lo - 1), Choose(b, n - lo), Choose(a, lo));
    }
  }

  lemma Distribute(x: nat, y: nat, z: nat)
    ensures (x + y) * z == x * z + y * z && z * (x + y) == z * x + z * y
  {
  }

  lemma {:induction false} NothingToDraw(a: nat, b: nat, n: int, lo: int)
    requires lo > a
    ensures Draws(a, b, n, lo) == 0
    decreases n - lo
  {
    if lo <= n {
      NothingToDraw(a, b, n, lo + 1);
    }
  }

  /** Vandermonde's identity. */
  lemma {:induction false} Vandermonde(a: nat, b: nat, n: int)
    ensures Draws(a, b, n, 0) == Choose(a + b, n)
    decreases a
  {
    if a == 0 {
      NothingToDraw(0, b, n, 1);
      assert n >= 0 ==> Choose(0, 0) * Choose(b, n - 0) == Choose(b, n);
    } else {
      FirstGroupGrows(a - 1, b, n, 0);
      Vandermonde(a - 1, b, n);
      Vandermonde(a - 1, b, n - 1);
      assert Draws(a - 1, b, n - 1, -1) == Draws(a - 1, b, n - 1, 0) by {
        assert Choose(a - 1, -1) * Choose(b, n) == 0;
      }
      Pascal(a + b, n);
    }
  }

  lemma {:induction false} FewerDraws(a: nat, b: nat, n: int, lo: int, hi: int)
    requires lo <= hi
    ensures Draws(a, b, n, hi) <= Draws(a, b, n, lo)
    decreases hi - lo
  {
    if lo < hi {
      FewerDraws(a, b, n, lo + 1, hi);
    }
  }

  /** Moving an item from the second group to the first, and asking for one more of it, leaves fewer ways. */
  lemma MovingOne(a: nat, b: nat, n: int, lo: int)
    ensures Draws(a + 1, b, n, lo + 1) <= Draws(a, b + 1, n, lo)
  {
    FirstGroupGrows(a, b, n, lo + 1);
    SecondGroupGrows(a, b, n, lo);
    FewerDraws(a, b, n, lo, lo + 1);
  }

  // ---- Rows ----

  /** The first `k + 1` coefficients of row `n`, added up. */
  function Head(n: nat, k: int): nat
    decreases k + 1
  {
    if k < 0 then 0 else Head(n, k - 1) + Choose(n, k)
  }

  lemma {:induction false} HeadPascal(n: nat, k: int)
    requires n > 0
    ensures Head(n, k) == Head(n - 1, k - 1) + Head(n - 1, k)
    decreases k + 1
  {
    if k >= 0 {
      HeadPascal(n, k - 1);
      Pascal(n, k);
    }
  }

  lemma {:induction false} WholeRow(n: nat, k: int)
    requires k >= n
    ensures Head(n, k) == Pow2(n)
    decreases n, k
  {
    if n > 0 {
      HeadPascal(n, k);
      WholeRow(n - 1, k - 1);
      WholeRow(n - 1, k);
    } else if k > 0 {
      WholeRow(0, k - 1);
    }
  }

  /** A row's head and the head of the rest, read from the other end, make the row. */
  lemma {:induction false} HeadsMakeRow(n: nat, k: int)
    requires -1 <= k <= n
    ensures Head(n, k) + Head(n, n - k - 1) == Pow2(n)
    decreases k + 1
  {
    if k == -1 {
      WholeRow(n, n);
    } else {
      HeadsMakeRow(n, k - 1);
      Symmetric(n, k);
    }
  }

  lemma {:induction false} HeadGrows(n: nat, j: int, k: int)
    requires j <= k
    ensures Head(n, j) <= Head(n, k)
    decreases k - j
  {
    if j < k {
      HeadGrows(n, j, k - 1);
    }
  }

  lemma SmallerNumerator(a: nat, b: nat, c: nat)
    requires a <= b && c > 0
    ensures a as real / c as real <= b as real / c as real
  {
  }
}
