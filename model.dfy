/** `ModelImpl`: the object that owns the page cursor and the latest-value
    state. The asynchronous completion of a fetch is its own method,
    `Answer`, which the environment calls on the provider's behalf, so
    fetches that overlap are expressible. */
module Model {
  import opened ModelTypes
  import Spec = ModelSpec
  import ModelProperties

  class ModelImpl<T> {
    /** Pagination cursor. */
    var page: nat
    /** The value held by the latest-value subject. */
    var state: ModelState<T>
    /** False once the owner has released the model. */
    var alive: bool
    /** Every request sent to the provider, in order. */
    ghost var requests: seq<Request>
    /** Completions handed to the provider and not yet answered. */
    ghost var outstanding: multiset<PendingFetch>

    ghost function Snapshot(): Spec.ModelSnapshot<T>
      reads this
    {
      Spec.ModelSnapshot(page, state, requests, outstanding, alive)
    }

    /** Object invariant: every request sent is a whole page at a multiple of
        the page size, and every pending completion answers a sent request. */
    ghost predicate Valid()
      reads this
    {
      ModelProperties.Aligned(Snapshot())
    }

    constructor ()
      ensures page == 0 && state == Empty && alive
      ensures requests == [] && outstanding == multiset{}
      ensures Snapshot() == Spec.Initial()
      ensures Valid()
    {
      page := 0;
      state := Empty;
      alive := true;
      requests := [];
      outstanding := multiset{};
    }

    /** Publish `Loading` and fetch the page under the cursor; the returned
        value is what is handed to the provider. */
    method Next() returns (fetch: PendingFetch)
      requires Valid() && alive
      modifies this
      ensures state == Loading && page == old(page) && alive
      ensures fetch == PendingFetch(Advancing, Request(RequestCount, old(page) * LoadCount))
      ensures requests == old(requests) + [fetch.request]
      ensures outstanding == old(outstanding) + multiset{fetch}
      ensures Snapshot() == Spec.Step(old(Snapshot()), Spec.NextCall)
      ensures Valid()
    {
      ModelProperties.StepKeepsAligned(Snapshot(), Spec.NextCall);
      state := Loading;
      fetch := PendingFetch(Advancing, Request(RequestCount, page * LoadCount));
      requests := requests + [fetch.request];
      outstanding := outstanding + multiset{fetch};
    }

    /** Assumed operation (the controller calls it, the model does not
        declare it): like `Next`, but its completion keeps the cursor. */
    method Begin() returns (fetch: PendingFetch)
      requires Valid() && alive
      modifies this
      ensures state == Loading && page == old(page) && alive
      ensures fetch == PendingFetch(Refetching, Request(RequestCount, old(page) * LoadCount))
      ensures requests == old(requests) + [fetch.request]
      ensures outstanding == old(outstanding) + multiset{fetch}
      ensures Snapshot() == Spec.Step(old(Snapshot()), Spec.BeginCall)
      ensures Valid()
    {
      ModelProperties.StepKeepsAligned(Snapshot(), Spec.BeginCall);
      state := Loading;
      fetch := PendingFetch(Refetching, Request(RequestCount, page * LoadCount));
      requests := requests + [fetch.request];
      outstanding := outstanding + multiset{fetch};
    }

    /** Rewind the cursor to the first page, then behave as `Next`: the
        request asks for offset 0 whatever the cursor was. */
    method Reset() returns (fetch: PendingFetch)
      requires Valid() && alive
      modifies this
      ensures state == Loading && page == 0 && alive
      ensures fetch == PendingFetch(Advancing, Request(RequestCount, 0))
      ensures requests == old(requests) + [fetch.request]
      ensures outstanding == old(outstanding) + multiset{fetch}
      ensures Snapshot() == Spec.Step(old(Snapshot()), Spec.ResetCall)
      ensures Valid()
    {
      ModelProperties.StepKeepsAligned(Snapshot(), Spec.ResetCall);
      page := 0;
      fetch := Next();
    }

    /** The provider answers `fetch`. A released model does nothing. A
        success publishes exactly the fetched page and, for a completion
        created by `Next`, advances the cursor by one; a failure publishes
        the error and keeps the cursor. */
    method Answer(fetch: PendingFetch, result: FetchResult<T>)
      requires Valid() && fetch in outstanding
      modifies this
      ensures !old(alive) ==> Snapshot() == old(Snapshot())
      ensures old(alive) ==> outstanding == old(outstanding) - multiset{fetch}
      ensures old(alive) && result.Success? ==>
                state == Ready(result.data) &&
                page == (if fetch.kind.Advancing? then old(page) + 1 else old(page))
      ensures old(alive) && result.Failure? ==> state == Error(result.error) && page == old(page)
      ensures requests == old(requests) && alive == old(alive)
      ensures Snapshot() == Spec.Step(old(Snapshot()), Spec.Completion(fetch, result))
      ensures Valid()
    {
      ModelProperties.StepKeepsAligned(Snapshot(), Spec.Completion(fetch, result));
      if !alive {
        return;
      }
      outstanding := outstanding - multiset{fetch};
      match result
      case Success(data) =>
        if fetch.kind.Advancing? {
          page := page + 1;
        }
        state := Ready(data);
      case Failure(e) =>
        state := Error(e);
    }

    /** The owner drops its last reference: later completions are ignored. */
    method Release()
      requires Valid()
      modifies this
      ensures !alive
      ensures page == old(page) && state == old(state)
      ensures requests == old(requests) && outstanding == old(outstanding)
      ensures Snapshot() == Spec.Step(old(Snapshot()), Spec.Released)
      ensures Valid()
    {
      ModelProperties.StepKeepsAligned(Snapshot(), Spec.Released);
      alive := false;
    }

    /** Item actions are accepted and dropped: nothing changes and the
        completion is never invoked (`None`). */
    method Handle(action: ModelAction<T>) returns (completion: Option<ModelActionResult>)
      ensures completion.None?
    {
      completion := None;
    }
  }
}
