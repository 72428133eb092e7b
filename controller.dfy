/** `Controller`: subscribes to the model's state while displayed and turns
    every delivered state into renderer calls. The renderer is its trace of
    rendered items; the stored subscription is the `subscribed` flag. */
module Presentation {
  import opened ModelTypes
  import ModelSpec
  import opened Model
  import Spec = ControllerSpec

  class Controller<T> {
    const model: ModelImpl<T>
    /** True while the stored subscription is live (not cancelled). */
    var subscribed: bool
    /** Every item handed to the renderer, in call order. */
    var trace: seq<T>

    ghost function View(): Spec.View<T>
      reads this
    {
      Spec.View(subscribed, trace)
    }

    constructor (model: ModelImpl<T>)
      ensures this.model == model
      ensures !subscribed && trace == []
    {
      this.model := model;
      subscribed := false;
      trace := [];
    }

    /** Begin loading, then subscribe; the new subscription replaces any
        stored one and at once receives the model's current state. */
    method WillDisplay() returns (fetch: PendingFetch)
      requires model.Valid() && model.alive
      modifies this, model
      ensures model.Snapshot() == ModelSpec.Step(old(model.Snapshot()), ModelSpec.BeginCall)
      ensures model.Valid()
      ensures fetch == PendingFetch(Refetching, Request(RequestCount, old(model.page) * LoadCount))
      ensures subscribed && model.state == Loading
      ensures trace == old(trace)
      ensures View() == Spec.WillDisplay(old(View()), model.state)
    {
      fetch := model.Begin();
      Deliver(model.state);
      subscribed := true;
      Deliver(model.state);
    }

    /** Cancel the stored subscription; with none live this changes nothing. */
    method DidEndDisplay()
      modifies this
      ensures !subscribed && trace == old(trace)
      ensures View() == Spec.DidEndDisplay(old(View()))
    {
      subscribed := false;
    }

    /** Forward to the model's `reset()`; no controller field changes. */
    method Refresh() returns (fetch: PendingFetch)
      requires model.Valid() && model.alive
      modifies model
      ensures model.Snapshot() == ModelSpec.Step(old(model.Snapshot()), ModelSpec.ResetCall)
      ensures model.Valid()
      ensures fetch == PendingFetch(Advancing, Request(RequestCount, 0))
      ensures View() == old(View())
    {
      fetch := model.Reset();
    }

    /** Forward to the model's `next()`; no controller field changes. */
    method LoadNextPage() returns (fetch: PendingFetch)
      requires model.Valid() && model.alive
      modifies model
      ensures model.Snapshot() == ModelSpec.Step(old(model.Snapshot()), ModelSpec.NextCall)
      ensures model.Valid()
      ensures fetch == PendingFetch(Advancing, Request(RequestCount, old(model.page) * LoadCount))
      ensures View() == old(View())
    {
      fetch := model.Next();
    }

    /** A state published by the model, as the stored subscription sees it:
        handled only while the subscription is live. */
    method Deliver(s: ModelState<T>)
      modifies this
      ensures subscribed == old(subscribed)
      ensures trace == if old(subscribed) then old(trace) + Spec.Rendered(s) else old(trace)
      ensures View() == Spec.Deliver(old(View()), s)
    {
      if subscribed {
        Update(s);
      }
    }

    /** The subscription's callback: a `Ready` page is rendered item by item;
        the other states only reach the non-rendering display helpers. */
    method Update(s: ModelState<T>)
      modifies this
      ensures subscribed == old(subscribed)
      ensures s.Ready? ==> trace == old(trace) + s.items
      ensures !s.Ready? ==> trace == old(trace)
    {
      match s
      case Empty => DisplayEmpty();
      case Ready(items) => DisplayItems(items);
      case Loading => DisplayLoading();
      case Error(e) => DisplayError(e);
    }

    /** Render every item once, in order. */
    method DisplayItems(items: seq<T>)
      modifies this
      ensures subscribed == old(subscribed)
      ensures trace == old(trace) + items
    {
      for i := 0 to |items|
        invariant subscribed == old(subscribed)
        invariant trace == old(trace) + items[..i]
      {
        Render(items[i]);
      }
    }

    /** The renderer's `render(item:)`, recorded in the trace. */
    method Render(item: T)
      modifies this
      ensures subscribed == old(subscribed)
      ensures trace == old(trace) + [item]
    {
      trace := trace + [item];
    }

    /** Reports the failure outside the renderer (console output is not modelled). */
    method DisplayError(e: Cause)
      ensures View() == old(View())
    {
    }

    method DisplayLoading()
      ensures View() == old(View())
    {
    }

    method DisplayEmpty()
      ensures View() == old(View())
    {
    }
  }
}
