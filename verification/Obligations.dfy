/** A proof aid shared by the models. */
module Obligations {

  /** `b`, put to the verifier as one obligation rather than conjunct by conjunct. */
  ghost predicate Whole(b: bool) {
    b == true
  }
}
