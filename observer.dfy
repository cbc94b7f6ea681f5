/** An observer that records every notification it receives.

    The library's Observer capability has three methods, `on_next`,
    `on_error` and `on_completed`; this class stands for any observer
    handed to `subscribe` and keeps, in `trace`, the calls made on it.
 */
module Observers {
  import opened Protocol

  class Recorder<T, E> {
    /** The notifications received so far, oldest first. */
    var trace: seq<Event<T, E>>

    /** A fresh observer has received nothing. */
    constructor ()
      ensures trace == []
    {
      trace := [];
    }

    method OnNext(x: T)
      modifies this
      ensures trace == old(trace) + [Next(x)]
    {
      trace := trace + [Next(x)];
    }

    method OnError(e: E)
      modifies this
      ensures trace == old(trace) + [Error(e)]
    {
      trace := trace + [Error(e)];
    }

    method OnCompleted()
      modifies this
      ensures trace == old(trace) + [Completed]
    {
      trace := trace + [Completed];
    }
  }
}
