/**
 * The entropy estimate of makepass, kept as the sizes of the choice spaces that the
 * estimate takes log2 of. Entropy in bits is log2 of a size; log2 is strictly increasing
 * and turns products into sums, so comparing sizes compares entropies, a size of 1 is 0 bits,
 * and a ratio num/den below 1 is a negative number of bits.
 */
module Entropy {
  import opened Wrappers

  /** N·(N−1)·…·(N−k+1): the ordered choices of k distinct words out of N. */
  function FallingFactorial(n: int, k: nat): int
    decreases k
  {
    if k == 0 then 1 else FallingFactorial(n, k - 1) * (n - (k - 1))
  }

  function Power(n: int, k: nat): int
    decreases k
  {
    if k == 0 then 1 else Power(n, k - 1) * n
  }

  /**
   * wordset_entropy: the log2 arguments are N, N−1, …, N−k+1; Python raises a math domain
   * error (None here) as soon as one of them is not positive.
   */
  function WordsetSpace(wordSetSize: nat, wordCount: nat): (r: Option<nat>)
    ensures r.Some? <==> wordCount <= wordSetSize
    ensures r.Some? ==> r.value >= 1 && r.value == FallingFactorial(wordSetSize, wordCount)
  {
    if wordCount <= wordSetSize then
      FallingFactorialPositive(wordSetSize, wordCount);
      Some(FallingFactorial(wordSetSize, wordCount))
    else None
  }

  /** numeral_entropy: ten digits, or a space of 1 (0 bits) when no numeral is appended. */
  function NumeralSpace(appendNumeral: bool): (r: nat)
    ensures r >= 1
    ensures r == 1 <==> !appendNumeral
  {
    if appendNumeral then 10 else 1
  }

  /** special_char_entropy: |special_chars|, or 1 (0 bits) when the set is empty. */
  function SpecialCharSpace(specialChars: string): (r: nat)
    ensures r >= 1
    ensures r == 1 <==> |specialChars| <= 1
  {
    if specialChars != [] then |specialChars| else 1
  }

  /** A fraction num/den. */
  datatype Ratio = Ratio(num: nat, den: nat)

  /**
   * sampled_entropy: log2(success_size) − log2(sample_size), the log2 of success/sample;
   * undefined (a math domain error) when either is 0.
   */
  function SampledRatio(sampleSize: nat, successSize: nat): (r: Option<Ratio>)
    ensures r.Some? <==> sampleSize >= 1 && successSize >= 1
    ensures r.Some? ==> r.value.den >= 1
    ensures r.Some? ==> (r.value.num <= r.value.den <==> successSize <= sampleSize)
    ensures r.Some? ==> (r.value.num == r.value.den <==> successSize == sampleSize)
  {
    if sampleSize >= 1 && successSize >= 1 then Some(Ratio(successSize, sampleSize)) else None
  }

  /** The space the estimate ignores length constraints for: words, numeral and special character. */
  function UnconstrainedSpace(wordSetSize: nat, wordCount: nat, appendNumeral: bool, specialChars: string): Option<nat>
  {
    match WordsetSpace(wordSetSize, wordCount)
    case None => None
    case Some(w) => Some(w * NumeralSpace(appendNumeral) * SpecialCharSpace(specialChars))
  }

  /** estimate_entropy: the sum of the four terms is log2 of the product of their spaces. */
  function EstimateEntropy(wordSetSize: nat, wordCount: nat, appendNumeral: bool, specialChars: string,
                           sampleSize: nat, successSize: nat): (r: Option<Ratio>)
    ensures r.Some? <==> wordCount <= wordSetSize && sampleSize >= 1 && successSize >= 1
  {
    match (UnconstrainedSpace(wordSetSize, wordCount, appendNumeral, specialChars), SampledRatio(sampleSize, successSize))
    case (Some(u), Some(s)) => Some(Ratio(u * s.num, s.den))
    case _ => None
  }

  // ---------------------------------------------------------------------------
  // Properties of the word-selection space

  lemma {:induction false} FallingFactorialPositive(n: int, k: nat)
    requires k <= n
    ensures FallingFactorial(n, k) >= 1
  {
    if k > 0 {
      FallingFactorialPositive(n, k - 1);
      MulAtLeast(FallingFactorial(n, k - 1), n - (k - 1));
    }
  }

  /** More words than the set holds: one factor is 0, so there is no valid entropy. */
  lemma {:induction false} FallingFactorialVanishes(n: nat, k: nat)
    requires k > n
    ensures FallingFactorial(n, k) == 0
  {
    if k - 1 > n {
      FallingFactorialVanishes(n, k - 1);
    }
  }

  /** One more word multiplies the space by N − k, so it grows strictly while N − k ≥ 2. */
  lemma WordsetSpaceGrowsWithCount(n: nat, k: nat)
    requires k < n
    ensures FallingFactorial(n, k + 1) >= FallingFactorial(n, k)
    ensures FallingFactorial(n, k + 1) > FallingFactorial(n, k) <==> k + 1 < n
  {
    FallingFactorialPositive(n, k);
    var f := FallingFactorial(n, k);
    assert FallingFactorial(n, k + 1) == f * (n - k);
    if k + 1 < n {
      MulGrows(f, n - k);
    }
  }

  /** A larger word set gives a strictly larger space for any positive word count it admits. */
  lemma {:induction false} WordsetSpaceGrowsWithSize(n: nat, k: nat)
    requires 1 <= k <= n
    ensures FallingFactorial(n + 1, k) > FallingFactorial(n, k)
  {
    if k == 1 {
      assert FallingFactorial(n + 1, 1) == n + 1;
      assert FallingFactorial(n, 1) == n;
    } else {
      WordsetSpaceGrowsWithSize(n, k - 1);
      FallingFactorialPositive(n, k - 1);
      var a, b := FallingFactorial(n + 1, k - 1), FallingFactorial(n, k - 1);
      assert FallingFactorial(n + 1, k) == a * (n + 1 - (k - 1));
      assert FallingFactorial(n, k) == b * (n - (k - 1));
      MulStrict(a, b, n - (k - 1), n + 1 - (k - 1));
    }
  }

  /** Drawing without repetition gives no more choices than N^k, and fewer once two words are drawn. */
  lemma {:induction false} WordsetSpaceBelowPower(n: nat, k: nat)
    requires k <= n
    ensures FallingFactorial(n, k) <= Power(n, k)
    ensures k >= 2 ==> FallingFactorial(n, k) < Power(n, k)
  {
    if k > 0 {
      WordsetSpaceBelowPower(n, k - 1);
      FallingFactorialPositive(n, k - 1);
      var f, p := FallingFactorial(n, k - 1), Power(n, k - 1);
      assert FallingFactorial(n, k) == f * (n - (k - 1));
      assert Power(n, k) == p * n;
      MulMono(f, p, n - (k - 1), n);
      if k >= 2 {
        MulStrict(n, n - (k - 1), f, p);
      }
    }
  }

  // ---------------------------------------------------------------------------
  // The sampling correction

  /**
   * With every sampled candidate successful, the estimate is the unconstrained space;
   * otherwise it is at most that space.
   */
  lemma EstimateWithinUnconstrained(wordSetSize: nat, wordCount: nat, appendNumeral: bool, specialChars: string,
                                    sampleSize: nat, successSize: nat)
    requires wordCount <= wordSetSize && 1 <= successSize <= sampleSize
    ensures UnconstrainedSpace(wordSetSize, wordCount, appendNumeral, specialChars).Some?
    ensures var u := UnconstrainedSpace(wordSetSize, wordCount, appendNumeral, specialChars).value;
            var r := EstimateEntropy(wordSetSize, wordCount, appendNumeral, specialChars, sampleSize, successSize).value;
            r.num <= u * r.den && (successSize == sampleSize ==> r.num == u * r.den)
  {
    var u := UnconstrainedSpace(wordSetSize, wordCount, appendNumeral, specialChars).value;
    MulMono(u, u, successSize, sampleSize);
  }

  // ---------------------------------------------------------------------------
  // Arithmetic helpers

  lemma MulAtLeast(a: int, b: int)
    requires a >= 1 && b >= 1
    ensures a * b >= 1
  {}

  lemma MulGrows(a: int, b: int)
    requires a >= 1 && b >= 2
    ensures a * b > a
  {}

  lemma MulMono(a: int, b: int, c: int, d: int)
    requires 0 <= a <= b && 0 <= c <= d
    ensures a * c <= b * d
  {
    assert a * c <= a * d;
    assert a * d <= b * d;
  }

  lemma MulStrict(a: int, b: int, c: int, d: int)
    requires a > b >= 1 && 1 <= c <= d
    ensures a * d > b * c
  {
    assert a * d >= a * c;
    assert a * c > b * c;
  }
}
