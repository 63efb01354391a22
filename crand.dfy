/**
 The C library's pseudo-random generator `rand()`, reduced to what the program
 can observe: a hidden, process-wide state that hands out a fixed sequence of
 values, one per call. The generator's algorithm and seed are not modelled;
 `draws(k)` is the value the call numbered k returns.
 */
module CRand {
  import opened CInt

  class RandSource {
    /** The value returned by the k-th call of `rand()` since the process started. */
    const draws: nat -> RandValue
    /** How many calls of `rand()` have been made so far. */
    var calls: nat

    /** The generator at process start: no call made yet. */
    constructor (draws: nat -> RandValue)
      ensures this.draws == draws && calls == 0
    {
      this.draws := draws;
      calls := 0;
    }

    /** One call of `rand()`: returns the next value of the sequence and advances the state. */
    method Next() returns (v: RandValue)
      modifies this
      ensures calls == old(calls) + 1
      ensures v == draws(old(calls))
    {
      v := draws(calls);
      calls := calls + 1;
    }
  }
}
