/** What sequences of model steps do: every request asks for a whole page at
    a multiple of the page size, consecutive successful `next()` calls walk
    the pages one by one, `reset()` restarts from offset 0, overlapping
    `next()` calls fetch the same page twice, and a released model ignores
    everything. */
module ModelProperties {
  import opened ModelTypes
  import opened ModelSpec

  /** Every request logged asks for `RequestCount` items at a multiple of
      `LoadCount`, and every unanswered completion belongs to a logged request. */
  ghost predicate Aligned<T>(s: ModelSnapshot<T>)
  {
    && (forall r :: r in s.requests ==> r.count == RequestCount && r.offset % LoadCount == 0)
    && (forall f :: f in s.outstanding ==> f.request in s.requests)
  }

  lemma StepKeepsAligned<T>(s: ModelSnapshot<T>, e: Event<T>)
    requires Aligned(s)
    ensures Aligned(Step(s, e))
  {
    match e
    case Completion(f, result) =>
      var t := Step(s, e);
      forall g | g in t.outstanding
        ensures g.request in t.requests
      {
        assert g in s.outstanding;
      }
    case _ =>
  }

  lemma {:induction false} RunKeepsAligned<T>(s: ModelSnapshot<T>, events: seq<Event<T>>)
    requires Aligned(s)
    ensures Aligned(Run(s, events))
    decreases |events|
  {
    if events != [] {
      StepKeepsAligned(s, events[0]);
      RunKeepsAligned(Step(s, events[0]), events[1..]);
    }
  }

  /** Whatever the owner and the provider do, starting from a fresh model,
      every request is for `RequestCount` items at a non-negative multiple
      of `LoadCount`, and every pending completion answers such a request. */
  lemma EveryRequestIsAWholePage<T>(events: seq<Event<T>>)
    ensures forall r :: r in Run(Initial<T>(), events).requests ==>
              r.count == RequestCount && r.offset % LoadCount == 0
    ensures forall f :: f in Run(Initial<T>(), events).outstanding ==>
              f.request in Run(Initial<T>(), events).requests
  {
    RunKeepsAligned(Initial<T>(), events);
  }

  lemma {:induction false} RunAppend<T>(s: ModelSnapshot<T>, a: seq<Event<T>>, b: seq<Event<T>>)
    ensures Run(s, a + b) == Run(Run(s, a), b)
    decreases |a|
  {
    if a == [] {
      assert a + b == b;
    } else {
      assert (a + b)[0] == a[0];
      assert (a + b)[1..] == a[1..] + b;
      RunAppend(Step(s, a[0]), a[1..], b);
    }
  }

  /** A run of two events is the two steps, in order. */
  lemma RunTwo<T>(s: ModelSnapshot<T>, e1: Event<T>, e2: Event<T>)
    ensures Run(s, [e1, e2]) == Step(Step(s, e1), e2)
  {
    assert [e1, e2][1..] == [e2];
    assert [e2][1..] == [];
    assert Run(Step(s, e1), [e2]) == Run(Step(Step(s, e1), e2), []);
  }

  /** `next()` followed by the provider's answer to it, once per page. */
  function PagingRun<T>(page: nat, pages: seq<seq<T>>): (events: seq<Event<T>>)
    decreases |pages|
  {
    if pages == [] then []
    else [NextCall, Completion(FetchFor(Advancing, page), Success(pages[0]))]
         + PagingRun(page + 1, pages[1..])
  }

  /** The requests of `n` consecutive pages starting at `page`. */
  function PageRequests(page: nat, n: nat): (r: seq<Request>)
  {
    seq(n, j requires 0 <= j => Request(RequestCount, (page + j) * LoadCount))
  }

  lemma {:induction false} PagingRunSteps<T>(s: ModelSnapshot<T>, pages: seq<seq<T>>)
    requires s.alive
    ensures Run(s, PagingRun(s.page, pages)).page == s.page + |pages|
    ensures Run(s, PagingRun(s.page, pages)).requests == s.requests + PageRequests(s.page, |pages|)
    ensures Run(s, PagingRun(s.page, pages)).outstanding == s.outstanding
    ensures Run(s, PagingRun(s.page, pages)).alive
    ensures pages != [] ==> Run(s, PagingRun(s.page, pages)).state == Ready(pages[|pages| - 1])
    ensures pages == [] ==> Run(s, PagingRun(s.page, pages)).state == s.state
    decreases |pages|
  {
    if pages != [] {
      var f := FetchFor(Advancing, s.page);
      var head: seq<Event<T>> := [NextCall, Completion(f, Success(pages[0]))];
      var t := Step(Step(s, NextCall), Completion(f, Success(pages[0])));
      assert f in Step(s, NextCall).outstanding;
      assert t.outstanding == s.outstanding;
      assert t.page == s.page + 1;
      RunTwo(s, NextCall, Completion(f, Success(pages[0])));
      RunAppend(s, head, PagingRun(s.page + 1, pages[1..]));
      PagingRunSteps(t, pages[1..]);
      var n := |pages|;
      assert PageRequests(s.page, n) == [f.request] + PageRequests(s.page + 1, n - 1);
    }
  }

  /** Sequential paging: when each `next()` completes successfully before
      the following one is issued, the i-th new request asks for the page at
      `(page + i) * LoadCount`, the cursor ends `|pages|` further on, the
      published state is exactly the last page fetched, and no completion
      is left pending. */
  lemma SequentialPagesAdvanceOneEach<T>(s: ModelSnapshot<T>, pages: seq<seq<T>>)
    requires s.alive
    ensures Run(s, PagingRun(s.page, pages)).page == s.page + |pages|
    ensures |Run(s, PagingRun(s.page, pages)).requests| == |s.requests| + |pages|
    ensures Run(s, PagingRun(s.page, pages)).requests[..|s.requests|] == s.requests
    ensures forall j :: |s.requests| <= j < |s.requests| + |pages| ==>
              Run(s, PagingRun(s.page, pages)).requests[j]
              == Request(RequestCount, (s.page + j - |s.requests|) * LoadCount)
    ensures Run(s, PagingRun(s.page, pages)).outstanding == s.outstanding
    ensures Run(s, PagingRun(s.page, pages)).alive
    ensures pages != [] ==> Run(s, PagingRun(s.page, pages)).state == Ready(pages[|pages| - 1])
    ensures pages == [] ==> Run(s, PagingRun(s.page, pages)).state == s.state
  {
    PagingRunSteps(s, pages);
    var r := Run(s, PagingRun(s.page, pages)).requests;
    var tail := PageRequests(s.page, |pages|);
    assert r == s.requests + tail;
    assert r[..|s.requests|] == s.requests;
    forall j | |s.requests| <= j < |s.requests| + |pages|
      ensures r[j] == Request(RequestCount, (s.page + j - |s.requests|) * LoadCount)
    {
      assert r[j] == tail[j - |s.requests|];
    }
  }

  /** `reset()` rewinds to page 0 and asks for offset 0, whatever the cursor was. */
  lemma ResetRequestsFirstPage<T>(s: ModelSnapshot<T>)
    requires s.alive
    ensures Step(s, ResetCall).page == 0
    ensures Step(s, ResetCall).state == Loading
    ensures Step(s, ResetCall).requests == s.requests + [Request(RequestCount, 0)]
  {
  }

  /** After `reset()` succeeds the cursor stands on page 1, so the following
      `next()` asks for offset `LoadCount`, not for the page where the cursor
      was before the reset. */
  lemma RefreshThenLoadNextFetchesSecondPage<T>(s: ModelSnapshot<T>, first: seq<T>)
    requires s.alive
    ensures Run(s, [ResetCall, Completion(FetchFor(Advancing, 0), Success(first)), NextCall]).requests
            == s.requests + [Request(RequestCount, 0), Request(RequestCount, LoadCount)]
  {
    var f := FetchFor(Advancing, 0);
    var events: seq<Event<T>> := [ResetCall, Completion(f, Success(first)), NextCall];
    var t := Step(Step(s, ResetCall), Completion(f, Success(first)));
    assert f in Step(s, ResetCall).outstanding;
    assert t.page == 1 && t.alive;
    RunTwo(s, ResetCall, Completion(f, Success(first)));
    assert events == [ResetCall, Completion(f, Success(first))] + [NextCall];
    RunAppend(s, [ResetCall, Completion(f, Success(first))], [NextCall]);
    assert Run(t, [NextCall]) == Step(t, NextCall);
  }

  /** The (assumed) `begin()` re-fetches the page under the cursor and its
      success keeps the cursor, so a `next()` right after it asks for the
      same offset again. */
  lemma BeginKeepsCursor<T>(s: ModelSnapshot<T>, data: seq<T>)
    requires s.alive
    ensures var t := Run(s, [BeginCall, Completion(FetchFor(Refetching, s.page), Success(data))]);
            && t.page == s.page
            && t.state == Ready(data)
            && t.outstanding == s.outstanding
            && Step(t, NextCall).requests
               == s.requests + [Request(RequestCount, s.page * LoadCount), Request(RequestCount, s.page * LoadCount)]
  {
    var f := FetchFor(Refetching, s.page);
    assert f in Step(s, BeginCall).outstanding;
    RunTwo(s, BeginCall, Completion(f, Success(data)));
  }

  /** Two `next()` calls issued before either completes read the same cursor
      and so request the same offset. Each success still advances the cursor,
      so two successes move it by two, and whichever completion is applied
      last decides the published state. */
  lemma OverlappingNextsFetchTheSamePage<T>(s: ModelSnapshot<T>, first: FetchResult<T>, second: FetchResult<T>)
    requires s.alive
    ensures var f := FetchFor(Advancing, s.page);
            var t := Run(s, [NextCall, NextCall, Completion(f, first), Completion(f, second)]);
            && t.requests == s.requests + [f.request, f.request]
            && f.request.offset == s.page * LoadCount
            && t.page == s.page + (if first.Success? then 1 else 0) + (if second.Success? then 1 else 0)
            && t.state == Published(second)
            && t.outstanding == s.outstanding
  {
    var f := FetchFor(Advancing, s.page);
    var a, b := Completion(f, first), Completion(f, second);
    var s1 := Step(s, NextCall);
    var s2 := Step(s1, NextCall);
    assert s1.page == s.page && s1.alive;
    assert s2.requests == s.requests + [f.request, f.request];
    assert s2.outstanding == s.outstanding + multiset{f, f};
    assert s2.page == s.page && s2.alive;
    var s3 := Step(s2, a);
    assert s3.outstanding == s.outstanding + multiset{f};
    assert f in s3.outstanding;
    assert s3.page == s.page + (if first.Success? then 1 else 0);
    var s4 := Step(s3, b);
    assert s4.outstanding == s.outstanding;
    assert s4.state == Published(second);
    RunTwo(s, NextCall, NextCall);
    RunTwo(s2, a, b);
    RunAppend(s, [NextCall, NextCall], [a, b]);
    assert [NextCall, NextCall] + [a, b] == [NextCall, NextCall, a, b];
  }

  /** Once the model is released nothing changes it any more: its completion
      closures return at once and no one can send it commands. */
  lemma {:induction false} ReleasedModelIgnoresEverything<T>(s: ModelSnapshot<T>, events: seq<Event<T>>)
    requires !s.alive
    ensures Run(s, events) == s
    decreases |events|
  {
    if events != [] {
      assert Step(s, events[0]) == s;
      ReleasedModelIgnoresEverything(s, events[1..]);
    }
  }
}
