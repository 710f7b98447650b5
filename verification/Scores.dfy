/** The scores of an example (packages/shared-types/src/proofstep_types/score.py). */
module Scores {
  import opened Common

  /** A slice names values of dimensions; no slice is the empty map. */
  type Slice = map<string, string>

  /** An evaluator's score; an evaluator that failed has no value to give. */
  datatype Score = Score(metric: string, value: Option<real>, passed: Option<bool>, errored: bool, slice: Slice)
  {
    predicate Counts() {
      !errored && value.Some?
    }

    /** A value, or 1 and 0 for a bare verdict; nothing for an errored score. */
    function Reading(): Option<real> {
      if errored then None
      else if value.Some? then value
      else if passed.Some? then Some(if passed.value then 1.0 else 0.0)
      else None
    }
  }

  /** What the evaluators made of one example. */
  datatype Scored = Scored(metadata: map<string, string>, expected: Option<map<string, string>>, scores: seq<Score>)
}
