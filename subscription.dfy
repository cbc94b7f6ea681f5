/** The subscription returned by the synchronous sources.

    `UncancellableSubscription` carries no data, and releasing it (its
    `drop`) does nothing: the production it stands for has already finished
    when `subscribe` returns.
 */
module Subscriptions {

  datatype UncancellableSubscription = UncancellableSubscription

  /** Releasing the subscription, as a transformer of whatever state the
      program is in (the observer's trace, the source): the identity. */
  function Drop<S>(sub: UncancellableSubscription, state: S): S {
    state
  }

  /** The state after releasing the subscription `n` times in succession. */
  function DropTimes<S>(sub: UncancellableSubscription, state: S, n: nat): S
    decreases n
  {
    if n == 0 then state else Drop(sub, DropTimes(sub, state, n - 1))
  }

  /** Releasing once or any number of times leaves the state as it was. */
  lemma {:induction false} DropTimesNoEffect<S>(sub: UncancellableSubscription, state: S, n: nat)
    ensures DropTimes(sub, state, n) == state
    decreases n
  {
    if n > 0 {
      DropTimesNoEffect(sub, state, n - 1);
    }
  }
}
