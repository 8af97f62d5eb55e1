/** The futex word and what a wake may do, as the barrier and the condition variable see them. */
module Futex {

  const WORD: nat := 0x1_0000_0000

  /** The 32-bit word behind a count. */
  function Word(n: nat): nat { n % WORD }

  /** futex wake: `n` sleepers leave the wait, or all of them when there are fewer. */
  ghost predicate MayWake(sleepers: set<nat>, woken: set<nat>, n: nat) {
    && woken <= sleepers
    && (woken == sleepers || |woken| == n)
  }

  function WakeAll<T>(ts: seq<T>, woken: set<nat>, rouse: T -> T): (r: seq<T>)
    ensures |r| == |ts|
    ensures forall i: nat :: i < |ts| ==> r[i] == if i in woken then rouse(ts[i]) else ts[i]
  {
    seq(|ts|, i requires 0 <= i < |ts| => if i in woken then rouse(ts[i]) else ts[i])
  }
}
