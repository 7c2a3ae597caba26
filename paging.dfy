/**
 The paginated retrieval of identification histories, shared by both
 `get_id_histories` functions: which page requests are issued (the page plan),
 what a run of requests yields from a given server, and the order of requests
 and delays it produces.

 The observations endpoint is a parameter: a `Server` maps the query string of
 one request to its reply. The delay between requests is kept only as a `Wait`
 event in a trace.
 */
module Paging {
  import opened Records

  /** How a request names the taxon: by API id (`taxon_id`) or by name (`taxon_name`). */
  datatype Query = ByTaxonId(taxonId: int) | ByTaxonName(taxonName: string)

  /** The query string of one request to the observations endpoint. */
  datatype PageRequest = PageRequest(query: Query, perPage: int, page: int, identified: bool, qualityGrade: string)

  /** Every request asks for research-grade observations only. */
  const RESEARCH_GRADE := "research"

  /** The default `obs_per_page`. */
  const DEFAULT_OBS_PER_PAGE := 200

  /** An observable step of a retrieval: a request issued, or a delay served. */
  datatype Event = Get(request: PageRequest) | Wait

  /** The observations endpoint: the reply to each possible request. */
  type Server = PageRequest -> Result<seq<Observation>>

  /** Python's `min` on two integers. */
  function Min(a: int, b: int): int
  {
    if b < a then b else a
  }

  // ----- The page plan -----

  /** The number of loop iterations, `n_obs // obs_per_page + 1`: the number c
      with (c - 1) * obs_per_page <= n_obs < c * obs_per_page. This is one more
      than the ceiling of n_obs / obs_per_page when obs_per_page divides n_obs. */
  function PageCount(nObs: nat, obsPerPage: int): (c: nat)
    requires obsPerPage > 0
    ensures (c - 1) * obsPerPage <= nObs < c * obsPerPage
  {
    var q := nObs / obsPerPage;
    assert (q + 1) * obsPerPage == q * obsPerPage + obsPerPage;
    q + 1
  }

  /** The `per_page` of iteration `pageId`: every page but the last is full, and
      the last asks for the remainder, which is 0 when obs_per_page divides n_obs. */
  function PerPage(nObs: nat, obsPerPage: int, pageId: nat): (k: int)
    requires obsPerPage > 0
    requires pageId < PageCount(nObs, obsPerPage)
    ensures 0 <= k <= obsPerPage
    ensures pageId < PageCount(nObs, obsPerPage) - 1 ==> k == obsPerPage
    ensures pageId == PageCount(nObs, obsPerPage) - 1 ==> k == nObs % obsPerPage
  {
    FullPagesFit(nObs, obsPerPage, pageId);
    Min(obsPerPage, nObs - pageId * obsPerPage)
  }

  /** Before the last iteration, a full page still fits in what is left. */
  lemma FullPagesFit(nObs: nat, obsPerPage: int, pageId: nat)
    requires obsPerPage > 0
    ensures pageId < nObs / obsPerPage ==> obsPerPage <= nObs - pageId * obsPerPage
  {
    if pageId < nObs / obsPerPage {
      MulMonotone(pageId + 1, nObs / obsPerPage, obsPerPage);
      assert (pageId + 1) * obsPerPage == pageId * obsPerPage + obsPerPage;
    }
  }

  lemma MulMonotone(a: int, b: int, c: int)
    requires a <= b && c >= 0
    ensures a * c <= b * c
  {
    assert b * c - a * c == (b - a) * c;
  }

  /** The request of iteration `pageId`. */
  function RequestFor(query: Query, nObs: nat, obsPerPage: int, pageId: nat): (req: PageRequest)
    requires obsPerPage > 0
    requires pageId < PageCount(nObs, obsPerPage)
    ensures req.query == query && req.page == pageId + 1
    ensures req.identified && req.qualityGrade == RESEARCH_GRADE
    ensures 0 <= req.perPage <= obsPerPage
    ensures req.perPage == Min(obsPerPage, nObs - pageId * obsPerPage)
  {
    PageRequest(query, PerPage(nObs, obsPerPage, pageId), pageId + 1, true, RESEARCH_GRADE)
  }

  /** The requests of the first `k` iterations, in the order they are issued. */
  function PlanPrefix(query: Query, nObs: nat, obsPerPage: int, k: nat): (reqs: seq<PageRequest>)
    requires obsPerPage > 0
    requires k <= PageCount(nObs, obsPerPage)
    ensures |reqs| == k
    ensures forall i :: 0 <= i < k ==> reqs[i] == RequestFor(query, nObs, obsPerPage, i)
  {
    if k == 0 then [] else PlanPrefix(query, nObs, obsPerPage, k - 1) + [RequestFor(query, nObs, obsPerPage, k - 1)]
  }

  /** All requests of one retrieval, in the order they are issued. */
  function Plan(query: Query, nObs: nat, obsPerPage: int): (reqs: seq<PageRequest>)
    requires obsPerPage > 0
    ensures |reqs| == nObs / obsPerPage + 1
    ensures forall i :: 0 <= i < |reqs| ==>
      && reqs[i].query == query
      && reqs[i].page == i + 1
      && reqs[i].identified
      && reqs[i].qualityGrade == RESEARCH_GRADE
      && 0 <= reqs[i].perPage <= obsPerPage
    ensures forall i, j :: 0 <= i < j < |reqs| ==> reqs[i].page < reqs[j].page
    ensures forall i :: 0 <= i < |reqs| - 1 ==> reqs[i].perPage == obsPerPage
    ensures reqs[|reqs| - 1].perPage == nObs % obsPerPage
  {
    PlanPrefix(query, nObs, obsPerPage, PageCount(nObs, obsPerPage))
  }

  /** Request `pageId` of the plan, written the way the loop body builds it. */
  lemma PlanRequest(query: Query, nObs: nat, obsPerPage: int, pageId: nat)
    requires obsPerPage > 0
    requires pageId < nObs / obsPerPage + 1
    ensures Plan(query, nObs, obsPerPage)[pageId]
         == PageRequest(query, Min(obsPerPage, nObs - pageId * obsPerPage), pageId + 1, true, RESEARCH_GRADE)
  {
  }

  /** The sum of the `per_page` values of a run of requests. */
  function TotalPerPage(reqs: seq<PageRequest>): int
  {
    if reqs == [] then 0 else TotalPerPage(reqs[..|reqs| - 1]) + reqs[|reqs| - 1].perPage
  }

  /** A run of requests that all ask for `p` asks for |reqs| * p in total. */
  lemma {:induction false} TotalOfFull(reqs: seq<PageRequest>, p: int)
    requires forall i :: 0 <= i < |reqs| ==> reqs[i].perPage == p
    ensures TotalPerPage(reqs) == |reqs| * p
  {
    if reqs != [] {
      var init := reqs[..|reqs| - 1];
      assert forall i :: 0 <= i < |init| ==> init[i] == reqs[i];
      TotalOfFull(init, p);
      assert (|init| + 1) * p == |init| * p + p;
    }
  }

  /** The full pages before the last ask for k * obs_per_page in total. */
  lemma PlanPrefixTotal(query: Query, nObs: nat, obsPerPage: int, k: nat)
    requires obsPerPage > 0
    requires k <= nObs / obsPerPage
    ensures TotalPerPage(PlanPrefix(query, nObs, obsPerPage, k)) == k * obsPerPage
  {
    var reqs := PlanPrefix(query, nObs, obsPerPage, k);
    forall i | 0 <= i < k
      ensures reqs[i].perPage == obsPerPage
    {
      assert reqs[i] == RequestFor(query, nObs, obsPerPage, i);
    }
    TotalOfFull(reqs, obsPerPage);
  }

  /** The `per_page` values of all requests add up to exactly n_obs. */
  lemma PlanTotal(query: Query, nObs: nat, obsPerPage: int)
    requires obsPerPage > 0
    ensures TotalPerPage(Plan(query, nObs, obsPerPage)) == nObs
  {
    var q := nObs / obsPerPage;
    var reqs := Plan(query, nObs, obsPerPage);
    assert reqs[..q] == PlanPrefix(query, nObs, obsPerPage, q);
    PlanPrefixTotal(query, nObs, obsPerPage, q);
  }

  /** The number of requests is the ceiling of n_obs / obs_per_page, plus one
      when obs_per_page divides n_obs; that extra last request asks for 0
      observations. */
  lemma PlanVersusCeiling(query: Query, nObs: nat, obsPerPage: int)
    requires obsPerPage > 0
    ensures nObs % obsPerPage != 0 ==> |Plan(query, nObs, obsPerPage)| == (nObs + obsPerPage - 1) / obsPerPage
    ensures nObs % obsPerPage == 0 ==> |Plan(query, nObs, obsPerPage)| == (nObs + obsPerPage - 1) / obsPerPage + 1
    ensures nObs % obsPerPage == 0 ==> Plan(query, nObs, obsPerPage)[nObs / obsPerPage].perPage == 0
  {
    var q, r := nObs / obsPerPage, nObs % obsPerPage;
    assert nObs == q * obsPerPage + r;
    if r == 0 {
      DivUnique(nObs + obsPerPage - 1, obsPerPage, q);
    } else {
      assert (q + 1) * obsPerPage == q * obsPerPage + obsPerPage;
      DivUnique(nObs + obsPerPage - 1, obsPerPage, q + 1);
    }
  }

  /** Integer division is the unique quotient. */
  lemma DivUnique(a: nat, b: int, q: int)
    requires b > 0
    requires q * b <= a < (q + 1) * b
    ensures a / b == q
  {
    var d := a / b;
    assert a == d * b + a % b;
    if d < q {
      assert (d + 1) * b == d * b + b;
      MulMonotone(d + 1, q, b);
    } else if d > q {
      assert (q + 1) * b == q * b + b;
      MulMonotone(q + 1, d, b);
    }
  }

  /** 450 observations at 200 per page give three requests, of 200, 200 and 50. */
  lemma PlanExample450(query: Query)
    ensures |Plan(query, 450, DEFAULT_OBS_PER_PAGE)| == 3
    ensures Plan(query, 450, DEFAULT_OBS_PER_PAGE)[0].perPage == 200
    ensures Plan(query, 450, DEFAULT_OBS_PER_PAGE)[1].perPage == 200
    ensures Plan(query, 450, DEFAULT_OBS_PER_PAGE)[2].perPage == 50
  {
    assert 450 / 200 == 2 && 450 % 200 == 50;
  }

  /** 400 observations at 200 per page also give three requests, the first
      full and the last asking for no observations. */
  lemma PlanExample400(query: Query)
    ensures |Plan(query, 400, DEFAULT_OBS_PER_PAGE)| == 3
    ensures Plan(query, 400, DEFAULT_OBS_PER_PAGE)[0].perPage == 200
    ensures Plan(query, 400, DEFAULT_OBS_PER_PAGE)[2].perPage == 0
  {
    assert 400 / 200 == 2 && 400 % 200 == 0;
  }

  // ----- What a run of requests yields -----

  /** Every request of the run gets a successful reply. */
  predicate AllOk(server: Server, reqs: seq<PageRequest>)
  {
    forall i :: 0 <= i < |reqs| ==> server(reqs[i]).Ok?
  }

  /** The observations of every successful reply, concatenated in request order. */
  function Received(server: Server, reqs: seq<PageRequest>): seq<Observation>
  {
    if reqs == [] then []
    else
      var reply := server(reqs[|reqs| - 1]);
      Received(server, reqs[..|reqs| - 1]) + (if reply.Ok? then reply.value else [])
  }

  /** What one retrieval returns when every observation is turned into its
      history by `extract` and each page's histories are appended to the running
      list: the first failing reply aborts the whole retrieval; otherwise the
      result is the history of every returned observation, in request order and
      within a page in the order the server gave them. */
  function Fetched<T>(server: Server, reqs: seq<PageRequest>, extract: Observation -> T): (r: Result<seq<T>>)
    ensures r.Ok? <==> AllOk(server, reqs)
    ensures r.Ok? ==> r.value == MapEach(extract, Received(server, reqs))
    decreases |reqs|
  {
    if reqs == [] then Ok([])
    else
      var init, last := reqs[..|reqs| - 1], reqs[|reqs| - 1];
      assert AllOk(server, reqs) ==> AllOk(server, init) by {
        forall i | 0 <= i < |init| ensures init[i] == reqs[i] { }
      }
      match Fetched(server, init, extract)
      case Err(e) => Err(e)
      case Ok(acc) =>
        match server(last)
        case Err(e) => Err(e)
        case Ok(page) =>
          MapEachAppend(extract, Received(server, init), page);
          Ok(acc + MapEach(extract, page))
  }

  /** The trace of one retrieval: each request is followed by a delay once its
      reply is in hand; a failing reply ends the trace. */
  function Events(server: Server, reqs: seq<PageRequest>): (e: seq<Event>)
    ensures |e| <= 2 * |reqs|
    ensures AllOk(server, reqs) ==> |e| == 2 * |reqs|
    ensures forall i :: 0 <= i < |e| ==> (e[i].Wait? <==> i % 2 == 1)
  {
    if reqs == [] then []
    else
      var init, last := reqs[..|reqs| - 1], reqs[|reqs| - 1];
      assert AllOk(server, reqs) ==> AllOk(server, init) by {
        forall i | 0 <= i < |init| ensures init[i] == reqs[i] { }
      }
      if !AllOk(server, init) then Events(server, init)
      else Events(server, init) + [Get(last)] + (if server(last).Ok? then [Wait] else [])
  }

  /** One more request of a run of requests: its reply decides how the result
      and the trace of the longer run extend those of the shorter one. */
  lemma FetchStep<T>(server: Server, reqs: seq<PageRequest>, extract: Observation -> T, k: nat, acc: seq<T>)
    requires k < |reqs|
    requires Fetched(server, reqs[..k], extract) == Ok(acc)
    ensures server(reqs[k]).Err? ==> Fetched(server, reqs[..k + 1], extract) == Err(server(reqs[k]).error)
    ensures server(reqs[k]).Ok? ==> Fetched(server, reqs[..k + 1], extract) == Ok(acc + MapEach(extract, server(reqs[k]).value))
    ensures Events(server, reqs[..k + 1]) == Events(server, reqs[..k]) + [Get(reqs[k])] + (if server(reqs[k]).Ok? then [Wait] else [])
  {
    assert reqs[..k + 1][..k] == reqs[..k];
    assert reqs[..k + 1][k] == reqs[k];
  }

  /** Each request of the run immediately followed by exactly one delay. */
  function Schedule(reqs: seq<PageRequest>): (s: seq<Event>)
    ensures |s| == 2 * |reqs|
    ensures forall i :: 0 <= i < |reqs| ==> s[2 * i] == Get(reqs[i]) && s[2 * i + 1] == Wait
  {
    if reqs == [] then [] else Schedule(reqs[..|reqs| - 1]) + [Get(reqs[|reqs| - 1]), Wait]
  }

  /** A retrieval whose replies all succeed issues every request in order and
      serves one delay after each, the last included. */
  lemma {:induction false} EventsWhenAllOk(server: Server, reqs: seq<PageRequest>)
    requires AllOk(server, reqs)
    ensures Events(server, reqs) == Schedule(reqs)
  {
    if reqs != [] {
      var init := reqs[..|reqs| - 1];
      assert AllOk(server, init) by {
        forall i | 0 <= i < |init| ensures init[i] == reqs[i] { }
      }
      EventsWhenAllOk(server, init);
    }
  }

  /** When reply k is the first to fail, the retrieval fails with that reply's
      error, nothing is returned, and the trace is the first k requests each
      followed by its delay, then request k and nothing after it. */
  lemma {:induction false} FirstFailureAborts<T>(server: Server, reqs: seq<PageRequest>, extract: Observation -> T, k: nat)
    requires k < |reqs|
    requires AllOk(server, reqs[..k])
    requires server(reqs[k]).Err?
    ensures Fetched(server, reqs, extract) == Err(server(reqs[k]).error)
    ensures Events(server, reqs) == Schedule(reqs[..k]) + [Get(reqs[k])]
  {
    var init := reqs[..|reqs| - 1];
    if k == |reqs| - 1 {
      assert init == reqs[..k];
      EventsWhenAllOk(server, init);
    } else {
      assert init[..k] == reqs[..k];
      assert init[k] == reqs[k];
      FirstFailureAborts(server, init, extract, k);
      assert !AllOk(server, init);
    }
  }

  /** The number of observations received never exceeds the sum of the
      `per_page` values asked for, when the server honours `per_page`. */
  lemma {:induction false} ReceivedAtMostAskedFor(server: Server, reqs: seq<PageRequest>)
    requires forall req: PageRequest :: req.perPage >= 0 && server(req).Ok? ==> |server(req).value| <= req.perPage
    requires forall i :: 0 <= i < |reqs| ==> reqs[i].perPage >= 0
    ensures |Received(server, reqs)| <= TotalPerPage(reqs)
  {
    if reqs != [] {
      var init := reqs[..|reqs| - 1];
      assert forall i :: 0 <= i < |init| ==> init[i] == reqs[i];
      ReceivedAtMostAskedFor(server, init);
    }
  }

  /** A retrieval against a server that honours `per_page` returns at most
      n_obs histories. */
  lemma FetchedAtMostNObs<T>(server: Server, query: Query, nObs: nat, obsPerPage: int, extract: Observation -> T)
    requires obsPerPage > 0
    requires forall req: PageRequest :: req.perPage >= 0 && server(req).Ok? ==> |server(req).value| <= req.perPage
    ensures Fetched(server, Plan(query, nObs, obsPerPage), extract).Ok? ==>
      |Fetched(server, Plan(query, nObs, obsPerPage), extract).value| <= nObs
  {
    var reqs := Plan(query, nObs, obsPerPage);
    ReceivedAtMostAskedFor(server, reqs);
    PlanTotal(query, nObs, obsPerPage);
  }
}
