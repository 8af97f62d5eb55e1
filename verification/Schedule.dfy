/** Which thread takes each step of a run, and how often. */
module Schedule {

  /** The steps that thread i takes from state a to state b; who[k] takes the step from state k. */
  function Turns(who: seq<nat>, a: nat, b: nat, i: nat): (n: nat)
    requires a <= b <= |who|
    decreases b
  {
    if a == b then 0 else Turns(who, a, b - 1, i) + if who[b - 1] == i then 1 else 0
  }
}
