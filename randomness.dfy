/** Python's `random` module as an oracle: a sequence of natural numbers supplied by the
    caller, one consumed per call. A call on an exhausted oracle yields `None`, so that
    every retry loop over it ends. */
module Randomness {
  import opened Results

  /** A drawn value and the oracle left after drawing it. */
  datatype Draw<T> = Draw(value: T, rest: seq<nat>)

  /** `random.randint(a, b)`; `None` once the oracle is used up. */
  function RandInt(a: int, b: int, oracle: seq<nat>): (r: Option<Draw<int>>)
    requires a <= b
    ensures r.Some? ==> a <= r.value.value <= b && |r.value.rest| < |oracle|
  {
    if oracle == [] then None else Some(Draw(a + oracle[0] % (b - a + 1), oracle[1..]))
  }

  /** `random.choice(items)`. */
  function Choice<T>(items: seq<T>, oracle: seq<nat>): (r: Option<Draw<T>>)
    requires |items| > 0
    ensures r.Some? ==> r.value.value in items && |r.value.rest| < |oracle|
  {
    if oracle == [] then None else Some(Draw(items[oracle[0] % |items|], oracle[1..]))
  }

  /** The number of values `random.random()` chooses among: it returns `k / 2^53`. */
  const RandomSteps: nat := 0x20_0000_0000_0000

  /** `random.random()`: a multiple of `2^-53` in `[0, 1)`. */
  function Random(oracle: seq<nat>): (r: Option<Draw<real>>)
    ensures r.Some? ==> 0.0 <= r.value.value < 1.0 && |r.value.rest| < |oracle|
  {
    if oracle == [] then None
    else Some(Draw((oracle[0] % RandomSteps) as real / RandomSteps as real, oracle[1..]))
  }
}
