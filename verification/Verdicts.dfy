/**
 The answer of an invariant that is stated as a function. As a function it stays one fact when it is
 asserted, where a predicate would be taken apart into its conjuncts.
 */
module Verdicts {
  datatype Verdict = Sound | Broken
}
