/** The model's behaviour as a state machine over values: what a `ModelImpl`
    holds at one instant, and how each command and each provider callback
    changes it. The class in module Model is proved to follow these steps;
    module ModelProperties proves what sequences of steps do. */
module ModelSpec {
  import opened ModelTypes

  /** Everything the model holds: the page cursor, the latest published
      state, every request sent to the provider so far, the completions the
      provider has not answered yet, and whether the model is still alive
      (the `[weak self]` guard of the completion closure). */
  datatype ModelSnapshot<T> = ModelSnapshot(
    page: nat,
    state: ModelState<T>,
    requests: seq<Request>,
    outstanding: multiset<PendingFetch>,
    alive: bool)

  /** A freshly constructed model. */
  function Initial<T>(): (s: ModelSnapshot<T>)
  {
    ModelSnapshot(0, Empty, [], multiset{}, true)
  }

  /** The fetch issued for the page the cursor stands on. */
  function FetchFor(kind: Kind, page: nat): (f: PendingFetch)
  {
    PendingFetch(kind, Request(RequestCount, page * LoadCount))
  }

  /** Publish `Loading`, then hand the fetch for the current page to the provider. */
  function Issue<T>(s: ModelSnapshot<T>, kind: Kind): (t: ModelSnapshot<T>)
  {
    var f := FetchFor(kind, s.page);
    s.(state := Loading,
       requests := s.requests + [f.request],
       outstanding := s.outstanding + multiset{f})
  }

  function Next<T>(s: ModelSnapshot<T>): (t: ModelSnapshot<T>)
  {
    Issue(s, Advancing)
  }

  function Begin<T>(s: ModelSnapshot<T>): (t: ModelSnapshot<T>)
  {
    Issue(s, Refetching)
  }

  function Reset<T>(s: ModelSnapshot<T>): (t: ModelSnapshot<T>)
  {
    Next(s.(page := 0))
  }

  /** The provider answers fetch `f`. A released model ignores the answer;
      otherwise a success publishes the fetched page (advancing the cursor
      when `f` came from `next()`) and a failure publishes the error. */
  function Answer<T>(s: ModelSnapshot<T>, f: PendingFetch, result: FetchResult<T>): (t: ModelSnapshot<T>)
  {
    if !s.alive || f !in s.outstanding then s
    else
      var rest := s.outstanding - multiset{f};
      match result
      case Success(data) =>
        s.(page := if f.kind.Advancing? then s.page + 1 else s.page,
           state := Ready(data),
           outstanding := rest)
      case Failure(e) =>
        s.(state := Error(e), outstanding := rest)
  }

  function Release<T>(s: ModelSnapshot<T>): (t: ModelSnapshot<T>)
  {
    s.(alive := false)
  }

  /** One thing that can happen to the model: a command from its owner, a
      provider callback, or the owner dropping its last reference. */
  datatype Event<T> =
    | NextCall
    | BeginCall
    | ResetCall
    | Completion(fetch: PendingFetch, result: FetchResult<T>)
    | Released

  /** Commands reach only a live model; nothing can call a released one. */
  function Step<T>(s: ModelSnapshot<T>, e: Event<T>): (t: ModelSnapshot<T>)
  {
    match e
    case NextCall => if s.alive then Next(s) else s
    case BeginCall => if s.alive then Begin(s) else s
    case ResetCall => if s.alive then Reset(s) else s
    case Completion(f, result) => Answer(s, f, result)
    case Released => Release(s)
  }

  function Run<T>(s: ModelSnapshot<T>, events: seq<Event<T>>): (t: ModelSnapshot<T>)
    decreases |events|
  {
    if events == [] then s else Run(Step(s, events[0]), events[1..])
  }
}
