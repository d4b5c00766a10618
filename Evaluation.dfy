/**
 * `IntEvaluation`: the pair of per-side score sums and the arithmetic the
 * callers use to compare a snapshot before a simulation with one after it.
 * Scores are mathematical integers; Java's 32-bit wrap-around is not modelled.
 */
module Evaluation {

  datatype IntEvaluation = IntEvaluation(evalA: int, evalB: int) {

    /** Advantage of side A over side B. */
    function Delta(): int {
      evalA - evalB
    }

    function Dot(other: IntEvaluation): int {
      evalA * other.evalA - evalB * other.evalB
    }

    function Cross(other: IntEvaluation): int {
      evalA * other.evalB - evalB * other.evalA
    }

    /** Per-side difference, e.g. the losses between two snapshots. */
    function Subtract(other: IntEvaluation): IntEvaluation {
      IntEvaluation(evalA - other.evalA, evalB - other.evalB)
    }
  }

  lemma SubtractSelfIsZero(e: IntEvaluation)
    ensures e.Subtract(e) == IntEvaluation(0, 0)
    ensures e.Subtract(e).Delta() == 0
  {
  }

  /** The delta of a difference is the difference of the deltas. */
  lemma DeltaOfSubtract(x: IntEvaluation, y: IntEvaluation)
    ensures x.Subtract(y).Delta() == x.Delta() - y.Delta()
  {
  }

  /** Cross is antisymmetric, so it vanishes on equal snapshots. */
  lemma CrossAntisymmetric(x: IntEvaluation, y: IntEvaluation)
    ensures x.Cross(y) == -y.Cross(x)
    ensures x.Cross(x) == 0
  {
  }

  /** Dot is symmetric, and a snapshot dotted with itself is evalA^2 - evalB^2. */
  lemma DotSymmetric(x: IntEvaluation, y: IntEvaluation)
    ensures x.Dot(y) == y.Dot(x)
    ensures x.Dot(x) == x.Delta() * (x.evalA + x.evalB)
  {
  }
}
