# Reactive pagination: model and controller

This project models the two halves of a small reactive pagination library:

- **`ModelImpl`** owns a page cursor and a latest-value state. The state is one of `Empty`, `Loading`, `Ready(items)` and `Error(cause)`.
  - `next()` publishes `Loading` and asks the data provider for 10 items at offset `page * 10`.
  - On success, `next()`'s completion advances the cursor and publishes the fetched page. On failure, it publishes the error and keeps the cursor.
  - `reset()` rewinds the cursor to 0 and then calls `next()`.
  - `handle(action:completion:)` has an empty body.
- **`Controller`** holds at most one subscription to the model's state.
  - `willDisplay()` makes the model begin loading and then subscribes. `didEndDisplay()` cancels the subscription.
  - `refresh()` and `loadNextPage()` forward to `reset()` and `next()`.
  - Every state delivered while subscribed is rendered. A `Ready` page gives one `render(item:)` call per item, in order. The other states render nothing.

## How the model is built

- `ModelTypes` (`model_types.dfy`) holds the value types:
  - the published `ModelState`;
  - the declared `ModelAction` and `ModelActionResult`;
  - the provider's `FetchResult` and `Request`;
  - the constants `LoadCount` (the page size) and `RequestCount` (the literal `count: 10`), both 10.
- `ModelSpec` (`model_spec.dfy`) describes the model as a state machine over values.
  - A `ModelSnapshot` holds five things: the cursor, the current state, the log of requests sent, the multiset of completions the provider has not yet answered, and a liveness flag.
  - Each command and each provider answer is an `Event`. `Step` applies one event and `Run` applies a sequence of them.
- `Model` (`model.dfy`) holds the class `ModelImpl`.
  - Its fields are `page`, `state` and `alive`, plus two ghost fields: `requests` and `outstanding`.
  - The constructor proves `Snapshot() == Initial()`. Each of `Next`, `Begin`, `Reset`, `Answer` and `Release` states its new fields and proves `Snapshot() == Step(old(Snapshot()), e)` for its event `e`. `Handle` has no `modifies` clause and changes nothing.
  - The class invariant `Valid()` is `Aligned(Snapshot())`: every logged request is for 10 items at a multiple of 10, and every pending completion answers a logged request. The constructor establishes it and every method keeps it.
  - Because each call is one `Step`, a sequence of calls on the class follows `Run` over the matching events. This is how the lemmas about `Run` carry over to the class; it is an argument from the method contracts, not a separate lemma.
  - The asynchronous completion is its own method, `Answer(fetch, result)`. The environment calls it on the provider's behalf, in any order. This is how two overlapping `next()` calls are expressed.
- `ModelProperties` (`model_properties.dfy`) proves the multi-step properties.
- `ControllerSpec` (`controller_spec.dfy`) describes the controller as a `View`: a `subscribed` flag plus the trace of rendered items.
- `Presentation` (`controller.dfy`) holds the class `Controller`.
  - The renderer is the append-only `trace` field.
  - The stored `Cancellable?` is the `subscribed` flag.
  - `Deliver(state)` is the subscription's callback, and it acts only while subscribed.
  - `WillDisplay` delivers two states itself: the `Loading` that `Begin` publishes, to the subscription still held (if any), and then the replayed current value, to the new subscription.
  - The environment delivers every other publication by calling `Deliver`: the `Loading` published by `next()` and `reset()` (so also by `LoadNextPage` and `Refresh`), and the `Ready` or `Error` that each answer publishes.

### Assumptions

- **`begin()`.** `Controller.willDisplay()` calls `model.begin()`, but neither the `Model` protocol nor `ModelImpl` declares it. The model adds `ModelImpl.Begin` as an **assumption**, not as source behaviour:
  - it publishes `Loading`;
  - it requests 10 items at `page * 10`;
  - its success publishes the page without advancing the cursor.

  As a consequence, a `next()` right after `begin()` requests the same offset again (`BeginKeepsCursor`).
- **`handle`.** Its body is empty, so it never invokes its completion. `Handle` changes nothing and reports `None` (no completion).
- **Order inside a successful completion.** The completion runs `page += 1` before `pub.send` (Model.swift:76-77). The model applies both in one step, so a subscriber's view of `page` between the two is not modelled.
- **Overlapping fetches.** There is no request-generation guard in the code, so none is modelled. Two overlapping `next()` calls fetch the same page, both successes advance the cursor, and the completion applied last decides the published state (`OverlappingNextsFetchTheSamePage`).

## Model

| member | source | states |
|---|---|---|
| `Model.ModelImpl.constructor` | Model.swift:57-63 | A new model is alive, publishes `Empty`, has cursor 0, has sent no requests, and satisfies the invariant `Valid()`. |
| `Model.ModelImpl.Next` | Model.swift:70-72 | `next()` publishes `Loading` and keeps the cursor. It sends exactly one request, `(10, page * 10)`, and leaves one completion, which advances the cursor, pending for it. |
| `Model.ModelImpl.Begin` | Controller.swift:18 | Assumed `begin()`: it publishes `Loading` and requests `(10, page * 10)`. Its completion is of the kind that keeps the cursor. |
| `Model.ModelImpl.Reset` | Model.swift:65-68 | `reset()` sets the cursor to 0, then behaves as `next()`. Its request has offset 0 whatever the cursor was. |
| `Model.ModelImpl.Answer` | Model.swift:72-81 | A released model ignores the answer. A success publishes exactly the fetched page (not an accumulation) and advances the cursor by one for a `next()` completion. A failure publishes the error and keeps the cursor. |
| `Model.ModelImpl.Release` | Model.swift:72-73 | After the owner releases the model, `alive` is false and nothing else changes. |
| `Model.ModelImpl.Handle` | Model.swift:84-85 | `handle` changes no field and never invokes its completion. |
| `ModelProperties.RunKeepsAligned` | Model.swift:58-76 | Every step keeps two facts true: every logged request is for 10 items at a multiple of 10, and every pending completion answers a logged request. |
| `ModelProperties.EveryRequestIsAWholePage` | Model.swift:58-76 | From a fresh model, after any sequence of commands, answers and release, every request is `(10, k * 10)` for some `k >= 0`. |
| `ModelProperties.SequentialPagesAdvanceOneEach` | Model.swift:70-77 | When each `next()` succeeds before the next one is issued, three things hold. The i-th request asks for offset `(page + i) * 10`. The cursor ends `n` pages further on. The state is exactly the last page fetched. |
| `ModelProperties.ResetRequestsFirstPage` | Model.swift:65-68 | `reset()` leaves cursor 0 and state `Loading`, and appends the request `(10, 0)`. |
| `ModelProperties.RefreshThenLoadNextFetchesSecondPage` | Model.swift:65-77 | After a successful `reset()`, the following `next()` asks for offset 10, whatever the cursor was before the reset. |
| `ModelProperties.BeginKeepsCursor` | Controller.swift:17-18 | The assumed `begin()`'s success publishes the page and keeps the cursor. A following `next()` requests the same offset again. |
| `ModelProperties.OverlappingNextsFetchTheSamePage` | Model.swift:70-82 | Two `next()` calls issued before either completes request the same offset. Each success advances the cursor, and the completion applied last decides the state. |
| `ModelProperties.ReleasedModelIgnoresEverything` | Model.swift:72-73 | Once the model is released, no sequence of events changes it. |
| `ControllerSpec.OnlyReadyRenders` | Controller.swift:35-53 | Delivering `Ready(items)` appends exactly `items`. Delivering `Empty`, `Loading` or `Error` changes nothing. |
| `ControllerSpec.SubscribedRendersEveryReadyPage` | Controller.swift:35-53 | While subscribed, a sequence of deliveries renders the items of its `Ready` states, each page once, in delivery order. This is checked against an independent concatenation. |
| `ControllerSpec.UnsubscribedRendersNothing` | Controller.swift:20-25 | Without a live subscription, no sequence of deliveries changes the controller. |
| `ControllerSpec.TraceFrozenAfterDidEndDisplay` | Controller.swift:23-25 | After `didEndDisplay()`, later deliveries leave the render trace unchanged. Without a prior subscription, `didEndDisplay()` is a no-op. |
| `ControllerSpec.SecondWillDisplayKeepsOneSubscription` | Controller.swift:17-21 | A second `willDisplay()` still leaves a single subscription, so a later `Ready` page is rendered once. |
| `Presentation.Controller.constructor` | Controller.swift:12-15 | A new controller holds the given model, has no subscription and has rendered nothing. |
| `Presentation.Controller.WillDisplay` | Controller.swift:17-21 | The model takes its `begin` step. The controller becomes subscribed and at once receives the current value (`Loading`), so nothing is rendered. |
| `Presentation.Controller.DidEndDisplay` | Controller.swift:23-25 | The subscription is cancelled and the trace is unchanged. |
| `Presentation.Controller.Refresh` | Controller.swift:27-29 | The model takes exactly its `reset` step, with a request at offset 0. No controller field changes. |
| `Presentation.Controller.LoadNextPage` | Controller.swift:31-33 | The model takes exactly its `next` step. No controller field changes. |
| `Presentation.Controller.Deliver` | Controller.swift:20 | A published state changes the trace only while subscribed, and then by exactly its rendered items. |
| `Presentation.Controller.Update` | Controller.swift:35-46 | `Ready(items)` appends `items`. Every other state appends nothing. |
| `Presentation.Controller.DisplayItems` | Controller.swift:48-53 | Renders every item once, in sequence order: the trace grows by exactly `items`. |
| `Presentation.Controller.Render` | Model.swift:45-49 | One `render(item:)` call appends its item to the trace. |
| `Presentation.Controller.DisplayError` | Controller.swift:55-58 | Changes no controller field and renders nothing. |
| `Presentation.Controller.DisplayLoading` | Controller.swift:60-62 | Changes no controller field and renders nothing. |
| `Presentation.Controller.DisplayEmpty` | Controller.swift:64-66 | Changes no controller field and renders nothing. |

## Left out

- `EntryPoint.swift` is not part of this model. It is a demonstration driver built on sleeps, dispatch queues and console output.
- The data provider is not modelled as an object. Its callback-style `retrieve` is the `PendingFetch` that `Next`, `Begin` and `Reset` return. The environment answers it by calling `Answer`. The `async` variant of `retrieve` and any thread or executor scheduling are left out. Concurrency shows only in the order in which `Answer` is called.
- The Combine machinery is abstracted to one current-state field and one `subscribed` flag. This covers the publisher, `sink`, `Cancellable` and the latest-value subject. Apart from the two deliveries `WillDisplay` makes itself, a publication reaches the controller only when the environment calls `Presentation.Controller.Deliver` with the state the model has just published. The model keeps no subscriber list.
- The printing of `localizedDescription` in `displayError` is not modelled (console output). A failure is an opaque `Cause` carrying a description.
- Reference counting is reduced to the `alive` flag. Commands on a released model are excluded by `requires alive`, since no reference remains to call them through.
- `page * loadCount` is computed on unbounded integers. The model does not capture the trap that Swift raises on `Int` overflow.
- The stored `dataProvider` reference and the `Identifiable` identity of items are not modelled.
- `ModelAction` upserts and deletions are not modelled. The code never performs them, so `Handle` accepts and drops every action.
- Model.ModelImpl.Answer: assumes the provider answers every fetch exactly once, and only after `retrieve` has returned (`requires fetch in outstanding`; `ModelSpec.Answer` ignores an answer with no pending fetch). The Swift closure can be called any number of times, and each success runs `page += 1` again. The model does not capture this: after `next()` and two successful answers to it, the model's page is 1, where the source's is 2.
- ControllerSpec.SecondWillDisplayKeepsOneSubscription: holds only under the same assumption, that `Begin`'s fetch cannot complete before `WillDisplay` delivers. In the source, a provider that calls back synchronously inside `retrieve` during a second `willDisplay()` gets `Ready(data)` rendered twice: once by the old subscription, and once by the new subscription's latest-value replay. Under that reading, `ControllerSpec.WillDisplay(View(true, tr), Ready(p)).trace == tr + p + p`.
