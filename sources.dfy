/** The two synchronous observables of the library: a finite iterable and a
    `Result`. Both deliver every notification before `subscribe` returns and
    hand back an `UncancellableSubscription`.
 */
module Sources {
  import opened Protocol
  import opened Observers
  import opened Subscriptions

  /** Rust's `Result<T, E>`. */
  datatype Result<T, E> = Ok(value: T) | Err(error: E)

  datatype Option<T> = None | Some(value: T)

  // ---------------------------------------------------------------------------
  // Iterable source (error type `()`)
  // ---------------------------------------------------------------------------

  /** One `Next` per element, in iteration order. */
  function Nexts<T, E>(xs: seq<T>): (r: seq<Event<T, E>>)
    ensures |r| == |xs|
    ensures forall i :: 0 <= i < |xs| ==> r[i] == Next(xs[i])
  {
    if |xs| == 0 then [] else [Next(xs[0])] + Nexts(xs[1..])
  }

  /** The notifications subscribing to a finite iterable delivers. */
  function IterableTrace<T>(xs: seq<T>): seq<Event<T, ()>> {
    Nexts<T, ()>(xs) + [Completed]
  }

  /** The items of the `Next` events are exactly the elements, in order. */
  lemma {:induction false} NextsItems<T, E>(xs: seq<T>)
    ensures Items(Nexts<T, E>(xs)) == xs
  {
    if |xs| > 0 {
      var r := Nexts<T, E>(xs);
      assert r[1..] == Nexts<T, E>(xs[1..]);
      NextsItems<T, E>(xs[1..]);
      assert xs == [xs[0]] + xs[1..];
    }
  }

  /** A run of `Next` events is a well-formed, unfinished trace with no terminal. */
  lemma {:induction false} NextsUnfinished<T, E>(xs: seq<T>)
    ensures WellFormed(Nexts<T, E>(xs))
    ensures TerminalCount(Nexts<T, E>(xs)) == 0
  {
    if |xs| > 0 {
      var r := Nexts<T, E>(xs);
      assert r[1..] == Nexts<T, E>(xs[1..]);
      NextsUnfinished<T, E>(xs[1..]);
    }
  }

  /** The iterable source ends with exactly one `on_completed`, never calls
      `on_error`, and gives back its elements as the items of the trace. */
  lemma IterableTraceShape<T>(xs: seq<T>)
    ensures |IterableTrace(xs)| == |xs| + 1
    ensures forall i :: 0 <= i < |xs| ==> IterableTrace(xs)[i] == Next(xs[i])
    ensures IterableTrace(xs)[|xs|] == Completed
    ensures forall i :: 0 <= i < |xs| + 1 ==> !IterableTrace(xs)[i].Error?
    ensures TerminalCount(IterableTrace(xs)) == 1
    ensures Items(IterableTrace(xs)) == xs
    ensures |xs| == 0 ==> IterableTrace(xs) == [Completed]
  {
    var ns := Nexts<T, ()>(xs);
    NextsUnfinished<T, ()>(xs);
    TerminalCountAppend(ns, [Completed]);
    NextsItems<T, ()>(xs);
    ItemsAppend(ns, [Completed]);
    var done: seq<Event<T, ()>> := [Completed];
    assert Items(done) == [];
    assert xs + [] == xs;
  }

  /** The iterable source's trace obeys the protocol and is finished. */
  lemma IterableTraceWellFormed<T>(xs: seq<T>)
    ensures WellFormed(IterableTrace(xs)) && Terminated(IterableTrace(xs))
    ensures RespectsProtocol(IterableTrace(xs))
  {
    NextsUnfinished<T, ()>(xs);
    var ns := Nexts<T, ()>(xs);
    assert !Terminated(ns);
    var done: seq<Event<T, ()>> := [Completed];
    assert WellFormed(done);
    WellFormedAppend(ns, done);
    WellFormedIff(IterableTrace(xs));
  }

  /** `subscribe` on `&I`: push every element, then complete. */
  method SubscribeIterable<T>(xs: seq<T>, observer: Recorder<T, ()>)
    returns (sub: UncancellableSubscription)
    modifies observer
    ensures observer.trace == old(observer.trace) + IterableTrace(xs)
    ensures WellFormed(old(observer.trace)) && !Terminated(old(observer.trace))
            ==> WellFormed(observer.trace) && Terminated(observer.trace)
  {
    ghost var before := observer.trace;
    for i := 0 to |xs|
      invariant observer.trace == before + Nexts<T, ()>(xs[..i])
    {
      assert Nexts<T, ()>(xs[..i + 1]) == Nexts<T, ()>(xs[..i]) + [Next(xs[i])];
      observer.OnNext(xs[i]);
    }
    assert xs[..|xs|] == xs;
    observer.OnCompleted();
    if WellFormed(before) && !Terminated(before) {
      IterableTraceWellFormed(xs);
      WellFormedAppend(before, IterableTrace(xs));
    }
    sub := UncancellableSubscription;
  }

  /** What a fresh observer holds after subscribing to an iterable and then
      releasing the returned subscription `releases` times. */
  method ObserveIterable<T>(xs: seq<T>, releases: nat) returns (t: seq<Event<T, ()>>)
    ensures |t| == |xs| + 1
    ensures forall i :: 0 <= i < |xs| ==> t[i] == Next(xs[i])
    ensures t[|xs|] == Completed
    ensures forall i :: 0 <= i < |t| ==> !t[i].Error?
    ensures TerminalCount(t) == 1
    ensures Items(t) == xs
    ensures WellFormed(t) && Terminated(t)
  {
    var observer := new Recorder<T, ()>();
    var sub := SubscribeIterable(xs, observer);
    assert observer.trace == IterableTrace(xs);
    t := DropTimes(sub, observer.trace, releases);
    DropTimesNoEffect(sub, observer.trace, releases);
    IterableTraceShape(xs);
    IterableTraceWellFormed(xs);
  }

  // ---------------------------------------------------------------------------
  // Result source
  // ---------------------------------------------------------------------------

  /** The notifications subscribing to a `Result` delivers. */
  function ResultTrace<T, E>(r: Result<T, E>): seq<Event<T, E>> {
    match r
    case Ok(v) => [Next(v), Completed]
    case Err(e) => [Error(e)]
  }

  /** Reads back the `Result` a trace describes; `None` for any trace the
      `Result` source cannot produce. */
  function ResultOfTrace<T, E>(t: seq<Event<T, E>>): Option<Result<T, E>> {
    if |t| == 2 && t[0].Next? && t[1].Completed? then Some(Ok(t[0].item))
    else if |t| == 1 && t[0].Error? then Some(Err(t[0].error))
    else None
  }

  /** The trace determines the `Result`, and only the two traces of the
      source decode to a `Result`. */
  lemma ResultTraceRoundTrip<T, E>(r: Result<T, E>, t: seq<Event<T, E>>)
    ensures ResultOfTrace(ResultTrace(r)) == Some(r)
    ensures ResultOfTrace(t) == Some(r) ==> t == ResultTrace(r)
  {
  }

  /** The `Result` source's trace obeys the protocol and is finished. */
  lemma ResultTraceWellFormed<T, E>(r: Result<T, E>)
    ensures WellFormed(ResultTrace(r)) && Terminated(ResultTrace(r))
    ensures RespectsProtocol(ResultTrace(r))
    ensures TerminalCount(ResultTrace(r)) == 1
  {
    var t := ResultTrace(r);
    if r.Ok? {
      assert t[1..] == [Completed];
    }
    WellFormedIff(t);
  }

  /** `subscribe` on `Result<T, E>`: `Ok(v)` pushes `v` and completes,
      `Err(e)` fails with `e`. */
  method SubscribeResult<T, E>(r: Result<T, E>, observer: Recorder<T, E>)
    returns (sub: UncancellableSubscription)
    modifies observer
    ensures observer.trace == old(observer.trace) + ResultTrace(r)
    ensures WellFormed(old(observer.trace)) && !Terminated(old(observer.trace))
            ==> WellFormed(observer.trace) && Terminated(observer.trace)
  {
    ghost var before := observer.trace;
    match r {
      case Ok(item) =>
        observer.OnNext(item);
        observer.OnCompleted();
      case Err(error) =>
        observer.OnError(error);
    }
    if WellFormed(before) && !Terminated(before) {
      ResultTraceWellFormed(r);
      WellFormedAppend(before, ResultTrace(r));
    }
    sub := UncancellableSubscription;
  }

  /** What a fresh observer holds after subscribing to a `Result` and then
      releasing the returned subscription `releases` times. */
  method ObserveResult<T, E>(r: Result<T, E>, releases: nat) returns (t: seq<Event<T, E>>)
    ensures r.Ok? ==> t == [Next(r.value), Completed]
    ensures r.Err? ==> t == [Error(r.error)]
    ensures Items(t) == (if r.Ok? then [r.value] else [])
    ensures WellFormed(t) && Terminated(t) && TerminalCount(t) == 1
    ensures ResultOfTrace(t) == Some(r)
  {
    var observer := new Recorder<T, E>();
    var sub := SubscribeResult(r, observer);
    assert observer.trace == ResultTrace(r);
    t := DropTimes(sub, observer.trace, releases);
    DropTimesNoEffect(sub, observer.trace, releases);
    ResultTraceWellFormed(r);
    ResultTraceRoundTrip(r, t);
    if r.Ok? {
      assert t[1..] == [Completed];
      assert Items(t[1..]) == Items(t[1..][1..]);
    }
  }
}
