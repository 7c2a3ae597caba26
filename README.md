# Identification-history retrieval from the iNaturalist API, in Dafny

This project models the helpers in `common_scripts/inat_api.py` and the one-off
script `confmat_inat.py`, both of which read data from the iNaturalist web API.
Its centre is `get_id_histories`. That function pages through the research-grade,
identified observations of a taxon. For every observation it collects the taxon
names of its identifications, in the order they were given. It waits after every
request. Alongside it sit the taxon resolvers, which take the first search result
(`get_taxon_id`, `get_taxon_name`, `get_obs_n`), the batch resolver
`get_taxon_ids`, and `get_sim_spp`, which turns the similar-species listing into
`(taxon id, count)` pairs.

Layout:

- `records.dfy` (module `Records`): the API records the code reads, the
  `Result`/`Error` type standing for Python's raise-or-return, and the extraction
  of one observation's identification names.
- `paging.dfy` (module `Paging`): the page plan (which `per_page`/`page`
  requests are issued), the specification of what a run of requests returns
  (`Fetched`) and of its request/wait trace (`Events`), and the lemmas about them.
- `inat_api.dfy` (module `InatApi`): the reusable helpers and the parameterised
  `get_id_histories` as a method with a loop.
- `confmat_inat.dfy` (module `ConfmatInat`): the script's own `get_id_histories`.
  It queries by `taxon_name` and returns bare name lists.

Every HTTP call is a parameter. It is a function from what the code puts in
the request to the reply: `Ok` with the JSON `results` list, or `Err` when the
call raises. The sleep between requests becomes a `Wait` event in a ghost trace.
Both `get_id_histories` methods are proved to return exactly `Fetched` of the
page plan and to produce exactly `Events` of it. The lemmas in `Paging` then say
what those are.

The page plan follows the code, not a ceiling division. The loop runs
`n_obs // obs_per_page + 1` times. So when `obs_per_page` divides `n_obs`
(including `n_obs = 0`), one more request is issued than the ceiling of
`n_obs / obs_per_page`, and that request asks for `per_page = 0`. For 400
observations at 200 per page that is three requests: 200, 200 and 0.
`Paging.PlanVersusCeiling` and `Paging.PlanExample400` state this. The per-page
sizes still add up to exactly `n_obs` (`Paging.PlanTotal`).

A first search result that is missing raises `IndexError` in the code. It is
modelled as `Err(IndexError)`, not as a dedicated "not found" error.

## Model

| member | source | states |
|---|---|---|
| `Records.IdentificationNames` | common_scripts/inat_api.py:143-148 | an observation's history has one entry per identification, equal to that identification's taxon name, in the given order, with nothing filtered or merged |
| `Paging.PageCount` | common_scripts/inat_api.py:131 | the number of loop iterations c satisfies (c-1)·obs_per_page ≤ n_obs < c·obs_per_page, i.e. floor division plus one |
| `Paging.PerPage` | common_scripts/inat_api.py:136 | each `per_page` lies in [0, obs_per_page]; every iteration but the last asks for a full page; the last asks for n_obs mod obs_per_page |
| `Paging.RequestFor` | common_scripts/inat_api.py:133-139 | the request of iteration i queries the given taxon for page i+1, identified and research-grade only, with per_page = min(obs_per_page, n_obs − i·obs_per_page), which lies in [0, obs_per_page] |
| `Paging.PlanPrefix` | common_scripts/inat_api.py:131-137 | the first k iterations issue, in order, exactly the request of iteration i at position i |
| `Paging.Plan` | common_scripts/inat_api.py:131-140 | there are n_obs // obs_per_page + 1 requests; request i asks for page i+1 of the given taxon, identified and research-grade only, with 0 ≤ per_page ≤ obs_per_page; pages strictly increase; all but the last are full; the last asks for n_obs mod obs_per_page |
| `Paging.TotalOfFull` | common_scripts/inat_api.py:136 | requests that each ask for a full page of p ask for (number of requests)·p observations in total |
| `Paging.PlanTotal` | common_scripts/inat_api.py:131-136 | the `per_page` values of all requests sum to exactly n_obs |
| `Paging.PlanVersusCeiling` | common_scripts/inat_api.py:131 | the request count is ceil(n_obs / obs_per_page) when obs_per_page does not divide n_obs, and one more when it does, in which case the last request asks for 0 |
| `Paging.PlanExample450` | confmat_inat.py:21-27 | 450 observations at 200 per page give three requests of 200, 200, 50 |
| `Paging.PlanExample400` | confmat_inat.py:21-27 | 400 observations at 200 per page also give three requests, the first of 200 and the last of 0 (the middle one is full by `Paging.Plan`) |
| `Paging.Fetched` | common_scripts/inat_api.py:129-156 | a run of requests succeeds iff every reply succeeds, and then returns the extraction of every returned observation, concatenated in request order |
| `Paging.Events` | common_scripts/inat_api.py:131-154 | the trace of a run has at most two events per request, exactly two when every reply succeeds, and waits sit exactly at the odd positions, each right after a request; `Paging.EventsWhenAllOk` and `Paging.FirstFailureAborts` describe it fully |
| `Paging.Schedule` | common_scripts/inat_api.py:154 | the schedule of n requests has 2n events: request i at position 2i, immediately followed by one wait |
| `Paging.EventsWhenAllOk` | common_scripts/inat_api.py:131-154 | when all replies succeed, the trace is every request in order, each followed by exactly one wait, the last included |
| `Paging.FirstFailureAborts` | common_scripts/inat_api.py:133-140 | when reply k is the first to fail, the retrieval fails with that error and returns nothing; the trace is the first k requests with their waits, then request k with no wait after it |
| `Paging.FetchedAtMostNObs` | common_scripts/inat_api.py:131-151 | against a server that returns at most `per_page` observations for every request with a non-negative `per_page` (which covers every request the plan issues), a successful retrieval returns at most n_obs histories |
| `InatApi.First` | common_scripts/inat_api.py:38-39 | taking the first result is defined iff the reply succeeded with a non-empty list, yields element 0, and is an IndexError on an empty list |
| `InatApi.TaxonId` | common_scripts/inat_api.py:21-40 | the id of the first search result for the name; the search's own error when it fails, IndexError when it finds nothing |
| `InatApi.TaxonIds` | common_scripts/inat_api.py:42-54 | succeeds iff every name resolves; then has the same length as the input and holds at position i the id of name i |
| `InatApi.TaxonIdsFirstFailure` | common_scripts/inat_api.py:54 | the batch fails with the error of the first name that fails to resolve |
| `InatApi.TaxonName` | common_scripts/inat_api.py:56-72 | the name of the first record for the id; the lookup's own error when it fails, IndexError when it returns nothing |
| `InatApi.ObsCount` | common_scripts/inat_api.py:85-101 | the observation count of the first record for the id; the lookup's own error when it fails, IndexError when it returns nothing |
| `InatApi.SimSpp` | common_scripts/inat_api.py:158-181 | succeeds iff the request does, and otherwise fails with the request's error; on success holds one pair per result, at position i the taxon id and count of result i |
| `InatApi.HistoryOf` | common_scripts/inat_api.py:144-146 | the `history` of an observation's record has one entry per identification, equal to that identification's taxon name, in order |
| `InatApi.GetIdHistories` | common_scripts/inat_api.py:104-156 | the loop that requests each page, appends `{'history': ...}` records and waits returns exactly `Fetched` of the plan for `taxon_id` and produces exactly its `Events` trace |
| `ConfmatInat.GetIdHistories` | confmat_inat.py:6-46 | the same loop, querying by `taxon_name` and appending bare name lists, returns exactly `Fetched` of its plan and produces exactly its `Events` trace |

## Left out

- The HTTP requests (`rq.get(...).json()['results']`) are function parameters. Nothing about the remote service is modelled. A reply either yields its `results` list or fails. A transport error, a body that is not JSON and a missing key all fail the same way.
- `time.sleep`, the `delay` argument and `INAT_DELAY`: only the order of requests and waits is kept, not the duration.
- `get_id_histories`: when `n_obs` is omitted, the code first calls `get_obs_n`. That is I/O, so the model takes `n_obs` as a given number (`InatApi.ObsCount` models `get_obs_n` itself).
- InatApi.GetIdHistories: `obs_per_page` must be positive and `n_obs` a natural number. With `obs_per_page = 0` the code raises `ZeroDivisionError` before any request. With a negative `n_obs` and a positive `obs_per_page` the loop runs zero times, so the code returns `[]` without any request or wait; every caller passes a non-negative count (confmat_inat.py:48, `get_obs_n`). Negative page sizes are not modelled. Python default arguments are not modelled either: the default page size is the constant `DEFAULT_OBS_PER_PAGE`.
- ConfmatInat.GetIdHistories: same restriction on `obs_per_page` and `n_obs` as above.
- `get_taxon_names` (common_scripts/inat_api.py:74-83) has a docstring and no body, so it always returns `None`. It is not modelled.
- The script's top-level call, its JSON file output (confmat_inat.py:48-51) and its progress `print` (confmat_inat.py:42).
- Aggregating histories into confusion counts: no code in these files does it.
