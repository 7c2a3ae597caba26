/**
 The one-off script's retrieval of identification histories: the same page plan
 and loop as `InatApi.GetIdHistories`, but the taxon is named by `taxon_name`,
 each history is a bare list of names, and the delay is fixed at one second.
 */
module ConfmatInat {
  import opened Records
  import opened Paging

  /** `get_id_histories(taxon, n_obs, obs_per_page)`: the result is that of
      `Fetched` on the plan for `taxon_name`, with each observation turned into
      its list of identification names, and the trace that of `Events`. */
  method GetIdHistories(server: Server, taxon: string, nObs: nat, obsPerPage: int)
    returns (idHistories: Result<seq<seq<string>>>, ghost trace: seq<Event>)
    requires obsPerPage > 0
    ensures idHistories == Fetched(server, Plan(ByTaxonName(taxon), nObs, obsPerPage), IdentificationNames)
    ensures trace == Events(server, Plan(ByTaxonName(taxon), nObs, obsPerPage))
  {
    ghost var plan := Plan(ByTaxonName(taxon), nObs, obsPerPage);
    var histories: seq<seq<string>> := [];
    trace := [];
    for pageId := 0 to nObs / obsPerPage + 1
      invariant Fetched(server, plan[..pageId], IdentificationNames) == Ok(histories)
      invariant trace == Events(server, plan[..pageId])
    {
      var request := PageRequest(ByTaxonName(taxon), Min(obsPerPage, nObs - pageId * obsPerPage), pageId + 1, true, RESEARCH_GRADE);
      PlanRequest(ByTaxonName(taxon), nObs, obsPerPage, pageId);
      FetchStep(server, plan, IdentificationNames, pageId, histories);
      trace := trace + [Get(request)];
      var reply := server(request);
      if reply.Err? {
        FirstFailureAborts(server, plan, IdentificationNames, pageId);
        EventsWhenAllOk(server, plan[..pageId]);
        idHistories := Err(reply.error);
        return;
      }
      histories := histories + MapEach(IdentificationNames, reply.value);
      trace := trace + [Wait];
    }
    assert plan[..|plan|] == plan;
    idHistories := Ok(histories);
  }
}
