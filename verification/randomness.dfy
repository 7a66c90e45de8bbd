/** `Math.random` as an injected stream of samples: `rand(i)` is the i-th
    draw of the session, and each consumer keeps a cursor saying how many
    draws are used up. */
module Randomness {

  type Samples = nat -> real

  /** `Math.random()` returns values in [0, 1). */
  ghost predicate UnitSamples(rand: Samples) {
    forall i: nat :: 0.0 <= rand(i) < 1.0
  }
}
