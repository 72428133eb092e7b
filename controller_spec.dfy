/** The controller as a value: whether it holds a live subscription to the
    model's state, and the trace of items handed to the renderer so far.
    The class in module Presentation is proved to follow these functions. */
module ControllerSpec {
  import opened ModelTypes

  datatype View<T> = View(subscribed: bool, trace: seq<T>)

  /** The items one delivered state sends to the renderer. */
  function Rendered<T>(s: ModelState<T>): (r: seq<T>)
  {
    match s
    case Ready(items) => items
    case _ => []
  }

  /** A state published by the model reaches the controller only through a
      live subscription. */
  function Deliver<T>(v: View<T>, s: ModelState<T>): (w: View<T>)
  {
    if v.subscribed then v.(trace := v.trace + Rendered(s)) else v
  }

  function DeliverAll<T>(v: View<T>, states: seq<ModelState<T>>): (w: View<T>)
    decreases |states|
  {
    if states == [] then v else DeliverAll(Deliver(v, states[0]), states[1..])
  }

  /** `willDisplay()`: the model publishes `current` as it begins (seen by
      the subscription already held, if any); the new subscription replaces
      the stored one and at once receives the current value. */
  function WillDisplay<T>(v: View<T>, current: ModelState<T>): (w: View<T>)
  {
    Deliver(Deliver(v, current).(subscribed := true), current)
  }

  /** `didEndDisplay()`: cancel the stored subscription, if any. */
  function DidEndDisplay<T>(v: View<T>): (w: View<T>)
  {
    v.(subscribed := false)
  }

  /** Reference reading of a delivery sequence: the items of its `Ready`
      states, concatenated in delivery order. */
  function ReadyItems<T>(states: seq<ModelState<T>>): (r: seq<T>)
    decreases |states|
  {
    if states == [] then []
    else match states[0]
      case Ready(items) => items + ReadyItems(states[1..])
      case _ => ReadyItems(states[1..])
  }

  /** Only a `Ready` state renders anything, and then exactly its items, in order. */
  lemma OnlyReadyRenders<T>(v: View<T>, s: ModelState<T>)
    requires v.subscribed
    ensures Deliver(v, s).subscribed
    ensures s.Ready? ==> Deliver(v, s).trace == v.trace + s.items
    ensures !s.Ready? ==> Deliver(v, s) == v
  {
  }

  /** While subscribed, the renderer receives exactly the items of every
      `Ready` state delivered, each page once, in delivery order; `Empty`,
      `Loading` and `Error` add nothing. */
  lemma {:induction false} SubscribedRendersEveryReadyPage<T>(v: View<T>, states: seq<ModelState<T>>)
    requires v.subscribed
    ensures DeliverAll(v, states) == View(true, v.trace + ReadyItems(states))
    decreases |states|
  {
    if states == [] {
      assert v.trace + [] == v.trace;
    } else {
      var w := Deliver(v, states[0]);
      SubscribedRendersEveryReadyPage(w, states[1..]);
      assert w.trace + ReadyItems(states[1..]) == v.trace + ReadyItems(states);
    }
  }

  /** Without a subscription no delivery reaches the renderer. */
  lemma {:induction false} UnsubscribedRendersNothing<T>(v: View<T>, states: seq<ModelState<T>>)
    requires !v.subscribed
    ensures DeliverAll(v, states) == v
    decreases |states|
  {
    if states != [] {
      UnsubscribedRendersNothing(Deliver(v, states[0]), states[1..]);
    }
  }

  /** After `didEndDisplay()` the render trace is frozen, whatever the model
      publishes afterwards; from a controller that never subscribed it
      changes nothing at all. */
  lemma TraceFrozenAfterDidEndDisplay<T>(v: View<T>, states: seq<ModelState<T>>)
    ensures DeliverAll(DidEndDisplay(v), states).trace == v.trace
    ensures !DeliverAll(DidEndDisplay(v), states).subscribed
    ensures !v.subscribed ==> DidEndDisplay(v) == v
  {
    UnsubscribedRendersNothing(DidEndDisplay(v), states);
  }

  /** A second `willDisplay()` leaves one subscription: while the model's
      current state is `Loading` (as right after it begins), displaying
      again changes nothing, and a later `Ready` page is rendered once. */
  lemma SecondWillDisplayKeepsOneSubscription<T>(v: View<T>, items: seq<T>)
    ensures WillDisplay(WillDisplay(v, Loading), Loading) == WillDisplay(v, Loading)
    ensures WillDisplay(v, Loading) == View(true, v.trace)
    ensures Deliver(WillDisplay(WillDisplay(v, Loading), Loading), Ready(items)).trace == v.trace + items
  {
  }
}
