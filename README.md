# Synchronous observables of the Rx crate

This project models the two concrete producers of the Rx crate's push-based
Observable/Observer protocol, and the subscription they return:

- the **iterable source**: subscribing to a reference to a collection calls
  `on_next` for every element in iteration order, then `on_completed`;
  its error type is `()`;
- the **`Result` source**: subscribing to `Ok(v)` calls `on_next(v)` then
  `on_completed`; subscribing to `Err(e)` calls `on_error(e)` only;
- **`UncancellableSubscription`**, the handle both return, whose release
  (`drop`) does nothing.

Both producers finish before `subscribe` returns, so the whole effect of a
subscription is the trace of notifications the observer receives. The model:

- `protocol.dfy` (module `Protocol`): the notification `Event`, the protocol as
  a grammar (`WellFormed`: zero or more `Next`, then at most one terminal
  event) and as the observer sees it (`RespectsProtocol`: at most one terminal
  call, no `on_next` after one), proved equivalent;
- `observer.dfy` (module `Observers`): `Recorder`, a class standing for any
  observer, whose `trace` field its `OnNext`, `OnError` and `OnCompleted`
  methods append to;
- `subscription.dfy` (module `Subscriptions`): the subscription as a unit
  datatype and its release as the identity on program state;
- `sources.dfy` (module `Sources`): the two `subscribe` methods acting on a
  `Recorder` (the iterable one keeps the source's `for` loop, with the loop
  invariant "the trace so far is `Next` mapped over the elements visited"),
  the functions giving the exact trace each delivers, and the lemmas about
  those traces. `ObserveIterable` and `ObserveResult` subscribe a fresh
  observer, release the subscription any number of times, and state
  everything the observer then holds.

## Model

| member | source | states |
|---|---|---|
| Protocol.WellFormedIff | src/lib.rs:38-43 | A trace is Next* followed by at most one terminal event exactly when it holds at most one terminal event and no `Next` after a terminal one (both directions). |
| Protocol.WellFormedAppend | src/lib.rs:49-56 | Delivering a well-formed trace to an observer whose trace so far is well-formed and not terminated keeps it well-formed; if the delivered part ends with a terminal event, the observer's trace is terminated. |
| Observers.Recorder.OnNext | src/lib.rs:52 | `on_next(x)` appends `Next(x)` to the observer's trace and changes nothing else. |
| Observers.Recorder.OnError | src/lib.rs:78 | `on_error(e)` appends `Error(e)` to the observer's trace. |
| Observers.Recorder.OnCompleted | src/lib.rs:54 | `on_completed()` appends `Completed` to the observer's trace. |
| Subscriptions.DropTimesNoEffect | src/lib.rs:31-36 | Releasing an `UncancellableSubscription` once or any number of times leaves the state (observer trace, source) exactly as it was. |
| Sources.Nexts | src/lib.rs:51-53 | The events pushed by the loop are one `Next` per element: as many as there are elements, the i-th carrying the i-th element. |
| Sources.NextsItems | src/lib.rs:51-53 | Reading the items back out of the pushed `Next` events gives the source's elements in iteration order. |
| Sources.NextsUnfinished | src/lib.rs:51-53 | The events pushed by the loop form a well-formed trace holding no terminal event. |
| Sources.IterableTraceShape | src/lib.rs:46-54 | The iterable trace has one `Next` per element in order, then exactly one terminal event, `Completed`, as its last event; it never contains `Error`; its items are the elements; an empty iterable gives `[Completed]`. |
| Sources.IterableTraceWellFormed | src/lib.rs:38-43 | The iterable trace obeys the protocol (both formulations) and is terminated. |
| Sources.SubscribeIterable | src/lib.rs:44-57 | Subscribing appends exactly the iterable trace to the observer's trace, before returning; an observer that was well-formed and unfinished ends well-formed and terminated. |
| Sources.ObserveIterable | src/lib.rs:44-57 | A fresh observer, after subscribing to an iterable and any number of releases of the subscription, holds one `Next` per element in order, then `Completed`, no `Error`, exactly one terminal event, a well-formed terminated trace whose items are the elements. |
| Sources.ResultTraceRoundTrip | src/lib.rs:72-80 | The `Result` can be read back from the trace its source delivers, and no other trace reads back as that `Result`. |
| Sources.ResultTraceWellFormed | src/lib.rs:59-64 | The `Result` trace obeys the protocol (both formulations), is terminated and has exactly one terminal event. |
| Sources.SubscribeResult | src/lib.rs:65-83 | Subscribing appends exactly the `Result` trace to the observer's trace, before returning; an observer that was well-formed and unfinished ends well-formed and terminated. |
| Sources.ObserveResult | src/lib.rs:65-83 | A fresh observer, after subscribing and any number of releases, holds `[Next(v), Completed]` for `Ok(v)` and `[Error(e)]` for `Err(e)` (so no `Next` and no `Completed` on error), a well-formed terminated trace, which reads back as the original `Result`. |

## Left out

- The `generate`, `observable`, `observer`, `subject` and `transform` modules are not part of this model: they are only declared in `src/lib.rs` and their source is not available, so no Subject or operator behaviour is modelled.
- The `Observer`, `Observable` traits themselves: the observer is modelled by one recording class, `Recorder`, that stands for any observer; dynamic dispatch over observer types is not modelled.
- Infinite iterators: the source only promises completion for a finite iterator, so the iterable is a finite `seq`.
- Rust mechanics: lifetimes, the `IntoIterator` and `Clone` bounds (`clone()` is the identity on values), `Drop` glue, ownership of the observer (moved into `subscribe`), and the nightly feature flags.
- The receiver `&mut self` of both `subscribe` methods is a value parameter: the source is not changed by subscribing, which the model therefore does not need to state.
- Panics raised inside observer handlers: nothing in the source handles them.
