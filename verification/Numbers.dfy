/** The smaller and the larger of two numbers, and means. */
module Numbers {

  function Min(a: int, b: int): int {
    if a <= b then a else b
  }

  function Max(a: int, b: int): int {
    if a >= b then a else b
  }

  /** The sum shared out evenly. */
  ghost predicate IsMean(mean: real, sum: real, n: nat) {
    mean * n as real == sum
  }

  lemma MeanIs(sum: real, n: nat)
    requires n > 0
    ensures IsMean(sum / n as real, sum, n)
  {
  }
}
