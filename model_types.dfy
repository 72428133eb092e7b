/** Values shared by the model and the controller: the published state,
    the declared (but unwired) item actions, and what travels to and from
    the data provider. */
module ModelTypes {

  /** Page size used to turn the page cursor into a fetch offset (`loadCount`). */
  const LoadCount: nat := 10

  /** Number of items asked for by every fetch (a literal at the call site). */
  const RequestCount: nat := 10

  /** An error reported by the data provider; only its description is kept. */
  datatype Cause = Cause(description: string)

  /** The single current state the model publishes. */
  datatype ModelState<T> =
    | Empty
    | Loading
    | Ready(items: seq<T>)
    | Error(cause: Cause)

  /** Item mutations declared by the model's interface. */
  datatype ModelAction<T> = Upsert(item: T) | Delete(item: T)

  /** Outcome a `handle` completion would report. */
  datatype ModelActionResult = Complete | Failed(error: Cause)

  /** What the data provider hands back to a completion. */
  datatype FetchResult<T> = Success(data: seq<T>) | Failure(error: Cause)

  /** The arguments of one `retrieve(count:offset:)` call. */
  datatype Request = Request(count: nat, offset: nat)

  /** Which operation created a completion: `next()` advances the cursor on
      success, `begin()` re-fetches the current page and does not. */
  datatype Kind = Advancing | Refetching

  /** A fetch handed to the data provider: its request together with the
      kind of completion closure waiting for the answer. */
  datatype PendingFetch = PendingFetch(kind: Kind, request: Request)

  datatype Option<T> = None | Some(value: T)

  /** The state a completion publishes for a given provider result. */
  function Published<T>(result: FetchResult<T>): ModelState<T>
  {
    match result
    case Success(data) => Ready(data)
    case Failure(e) => Error(e)
  }
}
