/**
 The reusable iNaturalist API helpers: taxon resolution by taking the first
 search result, the batch version of it, the similar-species listing and the
 parameterised retrieval of identification histories.

 Every HTTP call is a parameter: a function from what the code puts in the URL
 to the reply, whose `Ok` value is the JSON `results` list.
 */
module InatApi {
  import opened Records
  import opened Paging

  /** The `taxa` search endpoint, queried with `q` = a scientific name. */
  type TaxonSearch = string -> Result<seq<TaxonRecord>>

  /** The `taxa/{id}` endpoint. */
  type TaxonLookup = int -> Result<seq<TaxonRecord>>

  /** The `identifications/similar_species` endpoint, queried with `taxon_id`. */
  type SimilarSpeciesEndpoint = int -> Result<seq<SimilarSpecies>>

  /** One element of the list `get_id_histories` returns: `{'history': [...]}`. */
  datatype IdHistory = IdHistory(history: seq<string>)

  /** Taking element 0 of the `results` list of a reply: defined exactly when the
      reply succeeded with a non-empty list, and an `IndexError` on an empty one.
      Later results are ignored, however many there are. */
  function First<R>(reply: Result<seq<R>>): (r: Result<R>)
    ensures r.Ok? <==> reply.Ok? && |reply.value| > 0
    ensures r.Ok? ==> r.value == reply.value[0]
    ensures reply.Err? ==> r.error == reply.error
    ensures reply.Ok? && |reply.value| == 0 ==> r.error == IndexError
  {
    match reply
    case Err(e) => Err(e)
    case Ok(results) => if |results| == 0 then Err(IndexError) else Ok(results[0])
  }

  /** `get_taxon_id`: the `id` of the first search result for the name. */
  function TaxonId(search: TaxonSearch, taxon: string): (r: Result<int>)
    ensures r.Ok? <==> search(taxon).Ok? && |search(taxon).value| > 0
    ensures r.Ok? ==> r.value == search(taxon).value[0].id
    ensures search(taxon).Ok? && |search(taxon).value| == 0 ==> r == Err(IndexError)
    ensures search(taxon).Err? ==> r == Err(search(taxon).error)
  {
    match First(search(taxon))
    case Err(e) => Err(e)
    case Ok(record) => Ok(record.id)
  }

  /** `get_taxon_ids`: the id of every name, position by position; the first name
      that fails makes the whole batch fail. */
  function TaxonIds(search: TaxonSearch, taxa: seq<string>): (r: Result<seq<int>>)
    ensures r.Ok? <==> forall i :: 0 <= i < |taxa| ==> TaxonId(search, taxa[i]).Ok?
    ensures r.Ok? ==> |r.value| == |taxa|
    ensures r.Ok? ==> forall i :: 0 <= i < |taxa| ==> r.value[i] == TaxonId(search, taxa[i]).value
  {
    if taxa == [] then Ok([])
    else
      match TaxonId(search, taxa[0])
      case Err(e) => Err(e)
      case Ok(id) =>
        match TaxonIds(search, taxa[1..])
        case Err(e) =>
          assert forall i :: 1 <= i < |taxa| ==> taxa[i] == taxa[1..][i - 1];
          Err(e)
        case Ok(ids) =>
          assert forall i :: 1 <= i < |taxa| ==> taxa[i] == taxa[1..][i - 1];
          Ok([id] + ids)
  }

  /** The batch fails with the error of the first name that fails, so no partial
      list of ids is ever returned. */
  lemma {:induction false} TaxonIdsFirstFailure(search: TaxonSearch, taxa: seq<string>, k: nat)
    requires k < |taxa|
    requires forall i :: 0 <= i < k ==> TaxonId(search, taxa[i]).Ok?
    requires TaxonId(search, taxa[k]).Err?
    ensures TaxonIds(search, taxa) == Err(TaxonId(search, taxa[k]).error)
  {
    if k > 0 {
      assert taxa[1..][k - 1] == taxa[k];
      assert forall i :: 0 <= i < k - 1 ==> taxa[1..][i] == taxa[i + 1];
      TaxonIdsFirstFailure(search, taxa[1..], k - 1);
    }
  }

  /** `get_taxon_name`: the `name` of the first record for the id. */
  function TaxonName(lookup: TaxonLookup, taxonId: int): (r: Result<string>)
    ensures r.Ok? <==> lookup(taxonId).Ok? && |lookup(taxonId).value| > 0
    ensures r.Ok? ==> r.value == lookup(taxonId).value[0].name
    ensures lookup(taxonId).Ok? && |lookup(taxonId).value| == 0 ==> r == Err(IndexError)
    ensures lookup(taxonId).Err? ==> r == Err(lookup(taxonId).error)
  {
    match First(lookup(taxonId))
    case Err(e) => Err(e)
    case Ok(record) => Ok(record.name)
  }

  /** `get_obs_n`: the `observations_count` of the first record for the id. */
  function ObsCount(lookup: TaxonLookup, taxonId: int): (r: Result<int>)
    ensures r.Ok? <==> lookup(taxonId).Ok? && |lookup(taxonId).value| > 0
    ensures r.Ok? ==> r.value == lookup(taxonId).value[0].observationsCount
    ensures lookup(taxonId).Ok? && |lookup(taxonId).value| == 0 ==> r == Err(IndexError)
    ensures lookup(taxonId).Err? ==> r == Err(lookup(taxonId).error)
  {
    match First(lookup(taxonId))
    case Err(e) => Err(e)
    case Ok(record) => Ok(record.observationsCount)
  }

  /** `get_sim_spp`: one `(taxon id, count)` pair per similar-species record,
      position by position. */
  function SimSpp(similar: SimilarSpeciesEndpoint, taxonId: int): (r: Result<seq<(int, int)>>)
    ensures r.Ok? <==> similar(taxonId).Ok?
    ensures similar(taxonId).Err? ==> r == Err(similar(taxonId).error)
    ensures r.Ok? ==> |r.value| == |similar(taxonId).value|
    ensures r.Ok? ==> forall i :: 0 <= i < |r.value| ==>
      r.value[i] == (similar(taxonId).value[i].taxon.id, similar(taxonId).value[i].count)
  {
    match similar(taxonId)
    case Err(e) => Err(e)
    case Ok(results) => Ok(MapEach((sp: SimilarSpecies) => (sp.taxon.id, sp.count), results))
  }

  /** The history record of one observation. */
  function HistoryOf(o: Observation): (h: IdHistory)
    ensures |h.history| == |o.identifications|
    ensures forall j :: 0 <= j < |h.history| ==> h.history[j] == o.identifications[j].taxon.name
  {
    IdHistory(IdentificationNames(o))
  }

  /** `get_id_histories`, with `n_obs` given: requests the pages of the plan for
      `taxon_id` one after the other, appends the history record of every
      returned observation to the running list, and serves the delay after every
      request. The result is that of `Fetched` on the plan and the trace that of
      `Events`; `Paging` proves what those are. */
  method GetIdHistories(server: Server, taxonId: int, nObs: nat, obsPerPage: int)
    returns (idHistories: Result<seq<IdHistory>>, ghost trace: seq<Event>)
    requires obsPerPage > 0
    ensures idHistories == Fetched(server, Plan(ByTaxonId(taxonId), nObs, obsPerPage), HistoryOf)
    ensures trace == Events(server, Plan(ByTaxonId(taxonId), nObs, obsPerPage))
  {
    ghost var plan := Plan(ByTaxonId(taxonId), nObs, obsPerPage);
    var histories: seq<IdHistory> := [];
    trace := [];
    for pageId := 0 to nObs / obsPerPage + 1
      invariant Fetched(server, plan[..pageId], HistoryOf) == Ok(histories)
      invariant trace == Events(server, plan[..pageId])
    {
      var request := PageRequest(ByTaxonId(taxonId), Min(obsPerPage, nObs - pageId * obsPerPage), pageId + 1, true, RESEARCH_GRADE);
      PlanRequest(ByTaxonId(taxonId), nObs, obsPerPage, pageId);
      FetchStep(server, plan, HistoryOf, pageId, histories);
      trace := trace + [Get(request)];
      var reply := server(request);
      if reply.Err? {
        FirstFailureAborts(server, plan, HistoryOf, pageId);
        EventsWhenAllOk(server, plan[..pageId]);
        idHistories := Err(reply.error);
        return;
      }
      histories := histories + MapEach(HistoryOf, reply.value);
      trace := trace + [Wait];
    }
    assert plan[..|plan|] == plan;
    idHistories := Ok(histories);
  }
}
