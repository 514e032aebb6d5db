/**
  The compile-time arithmetic sequence F(n, k): F(n, 1) = n and, for k other
  than 1, F(n, k) = n * F(n, k - 1) + n.  Unfolded, F(n, k) is
  n + n^2 + ... + n^k.
 */
module SumSequences {

  /** F(n, k). The recursion reaches its base case only from k >= 1. For
      n >= 0 the value is at least its first term n, and for n >= 1 each of
      the k terms is at least 1. */
  function SumSequence(n: int, k: int): (v: int)
    requires k >= 1
    ensures n >= 0 ==> v >= n
    ensures n >= 1 ==> v >= k
    decreases k
  {
    if k == 1 then n
    else n * SumSequence(n, k - 1) + n * (if k == 1 then 0 else 1)
  }

  /** n^e. */
  function Power(n: int, e: nat): int
    decreases e
  {
    if e == 0 then 1 else n * Power(n, e - 1)
  }

  /** n^1 + n^2 + ... + n^k (zero when k == 0). */
  function PowerSum(n: int, k: nat): int
    decreases k
  {
    if k == 0 then 0 else PowerSum(n, k - 1) + Power(n, k)
  }

  /** Base case: F(n, 1) == n. */
  lemma SumSequenceBase(n: int)
    ensures SumSequence(n, 1) == n
  {
  }

  /** Recurrence for k >= 2: the term (k == 1 ? 0 : 1) is always 1 there. */
  lemma SumSequenceStep(n: int, k: int)
    requires k >= 2
    ensures SumSequence(n, k) == n * SumSequence(n, k - 1) + n
  {
  }

  /** Multiplying the power sum by n shifts every exponent up by one. */
  lemma {:induction false} PowerSumShift(n: int, k: nat)
    ensures n * PowerSum(n, k) + n == PowerSum(n, k + 1)
    decreases k
  {
    if k == 0 {
      assert PowerSum(n, 1) == Power(n, 1) == n * 1;
    } else {
      PowerSumShift(n, k - 1);
      calc {
        n * PowerSum(n, k) + n;
        n * (PowerSum(n, k - 1) + Power(n, k)) + n;
        { assert n * (PowerSum(n, k - 1) + Power(n, k)) == n * PowerSum(n, k - 1) + n * Power(n, k); }
        (n * PowerSum(n, k - 1) + n) + n * Power(n, k);
        PowerSum(n, k) + Power(n, k + 1);
      }
    }
  }

  /** Closed form: F(n, k) == n + n^2 + ... + n^k. */
  lemma {:induction false} SumSequenceClosedForm(n: int, k: int)
    requires k >= 1
    ensures SumSequence(n, k) == PowerSum(n, k)
    decreases k
  {
    if k == 1 {
      assert PowerSum(n, 1) == Power(n, 1) == n;
    } else {
      SumSequenceClosedForm(n, k - 1);
      PowerSumShift(n, k - 1);
    }
  }

  /** Geometric-series form: (n - 1) * F(n, k) == n^(k+1) - n. */
  lemma {:induction false} SumSequenceGeometric(n: int, k: int)
    requires k >= 1
    ensures (n - 1) * SumSequence(n, k) == Power(n, k + 1) - n
    decreases k
  {
    if k == 1 {
      assert Power(n, 2) == n * n;
    } else {
      SumSequenceGeometric(n, k - 1);
      GeometricStep(n, SumSequence(n, k - 1), Power(n, k));
    }
  }

  /** One step of the geometric-series identity, on plain integers:
      if (n - 1) * f == p - n then (n - 1) * (n * f + n) == n * p - n. */
  lemma GeometricStep(n: int, f: int, p: int)
    requires (n - 1) * f == p - n
    ensures (n - 1) * (n * f + n) == n * p - n
  {
  }

  /** With n == 1 every term is 1, so F(1, k) == k. */
  lemma {:induction false} SumSequenceOfOne(k: int)
    requires k >= 1
    ensures SumSequence(1, k) == k
    decreases k
  {
    if k > 1 {
      SumSequenceOfOne(k - 1);
    }
  }

  /** With n == 0 every term is 0, so F(0, k) == 0. */
  lemma SumSequenceOfZero(k: int)
    requires k >= 1
    ensures SumSequence(0, k) == 0
  {
  }

  /** The instance evaluated by the demonstration program: F(3, 2) == 12. */
  lemma SumSequenceExample()
    ensures SumSequence(3, 2) == 12
  {
  }
}
