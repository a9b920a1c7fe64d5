/** `pick` of `fish-engine/src/lib.rs`: a random element of a slice. */
module Picking {
  import opened Options

  /**
   * `None` for an empty slice, otherwise the element at index
   * `rand % |xs|`; `rand` stands for the random number drawn.
   */
  function Pick<T>(xs: seq<T>, rand: nat): (r: Option<T>)
    ensures r.None? <==> |xs| == 0
    ensures r.Some? ==> r.value in xs
  {
    if |xs| == 0 then None else Some(xs[rand % |xs|])
  }

  /** Every element can be the one picked. */
  lemma PickReaches<T>(xs: seq<T>, i: nat)
    requires i < |xs|
    ensures exists rand: nat :: Pick(xs, rand) == Some(xs[i])
  {
    assert i % |xs| == i;
    assert Pick(xs, i) == Some(xs[i]);
  }
}
