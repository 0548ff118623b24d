/**
 * src/tools/datasources.py: `get_data_sources` picks the endpoint, fetches the
 * list, removes `repositoryIds` from every Workspace entry in place and renders
 * the list as text. The request and `json.dumps` are parameters.
 */
module DataSources {
  import opened Json
  import opened Errors

  /** One decoded entry of the list: a JSON object the loop edits in place. */
  class DataSource {
    var fields: map<string, Json>
  }

  const AliveEndpoint: string := "/api/datasources/alive"
  const AllEndpoint: string := "/api/datasources/all"

  const NoDataSourcesMessage: string :=
    "No data sources found. Please add a repository or workspace to CodeAlive before using this API."

  const Header: string := "Available data sources:\n"

  const UsageHint: string :=
    "\n\nYou can use these data source names with the codebase_search and codebase_consultant functions."

  /** The key removed from workspaces. */
  const RepositoryIds: string := "repositoryIds"

  /** The endpoint queried: only ready data sources unless all are asked for. */
  function Endpoint(aliveOnly: bool): (e: string)
    ensures aliveOnly <==> e == AliveEndpoint
    ensures !aliveOnly <==> e == AllEndpoint
  {
    if aliveOnly then AliveEndpoint else AllEndpoint
  }

  /** Is the entry a workspace (`data_source.get("type") == "Workspace"`)? */
  predicate IsWorkspace(fields: map<string, Json>) {
    "type" in fields && fields["type"] == JString("Workspace")
  }

  /** An entry after the loop: a workspace loses its `repositoryIds`, everything else stays. */
  function Stripped(fields: map<string, Json>): (r: map<string, Json>)
    ensures IsWorkspace(fields) ==> RepositoryIds !in r
    ensures !IsWorkspace(fields) ==> r == fields
    ensures forall k :: k != RepositoryIds ==> (k in r <==> k in fields)
    ensures forall k :: k in r ==> k in fields && r[k] == fields[k]
    ensures IsWorkspace(r) <==> IsWorkspace(fields)
  {
    if IsWorkspace(fields) && RepositoryIds in fields then fields - {RepositoryIds} else fields
  }

  /** Stripping twice is stripping once, so an entry listed twice ends up as if listed once. */
  lemma StrippedIdempotent(fields: map<string, Json>)
    ensures Stripped(Stripped(fields)) == Stripped(fields)
  {
    if IsWorkspace(fields) {
      assert RepositoryIds !in Stripped(fields);
    }
  }

  /** A workspace without `repositoryIds` passes through untouched. */
  lemma WorkspaceWithoutIds(fields: map<string, Json>)
    requires RepositoryIds !in fields
    ensures Stripped(fields) == fields
  {
  }

  /** The objects of the list. */
  function Objects(sources: seq<DataSource>): set<DataSource> {
    set s | s in sources
  }

  /** The `for data_source in data_sources` loop: each workspace loses its `repositoryIds` key, in place. */
  method RemoveRepositoryIds(sources: seq<DataSource>)
    modifies Objects(sources)
    ensures forall k :: 0 <= k < |sources| ==> sources[k].fields == Stripped(old(sources[k].fields))
  {
    for i := 0 to |sources|
      invariant forall k :: 0 <= k < i ==> sources[k].fields == Stripped(old(sources[k].fields))
      invariant forall k :: 0 <= k < |sources| ==>
        sources[k].fields == old(sources[k].fields) || sources[k].fields == Stripped(old(sources[k].fields))
    {
      var dataSource := sources[i];
      StrippedIdempotent(old(dataSource.fields));
      if IsWorkspace(dataSource.fields) && RepositoryIds in dataSource.fields {
        dataSource.fields := dataSource.fields - {RepositoryIds};
      }
    }
  }

  /** The entries as values, in list order. */
  function Contents(sources: seq<DataSource>): (cs: seq<map<string, Json>>)
    reads Objects(sources)
    ensures |cs| == |sources| && forall k :: 0 <= k < |sources| ==> cs[k] == sources[k].fields
  {
    seq(|sources|, k requires 0 <= k < |sources| reads Objects(sources) => sources[k].fields)
  }

  /** What the request produced. */
  datatype SourcesExchange =
    | SourcesFailed(error: ApiError)              // the call, `raise_for_status` or `response.json()` raised
    | Listed(sources: seq<DataSource>)            // the decoded list; empty also for a null body

  /** The objects a successful fetch hands over, which the tool may edit. */
  function Fetched(x: SourcesExchange): set<DataSource> {
    if x.Listed? then Objects(x.sources) else {}
  }

  /** `get_data_sources(ctx, alive_only)`, without the `ctx` notifications. */
  method GetDataSources(aliveOnly: bool, fetch: string -> SourcesExchange, dumps: seq<map<string, Json>> -> string)
    returns (answer: string)
    modifies Fetched(fetch(Endpoint(aliveOnly)))
    ensures fetch(Endpoint(aliveOnly)).SourcesFailed? ==>
      answer == HandleApiError(fetch(Endpoint(aliveOnly)).error, "retrieving data sources")
    ensures fetch(Endpoint(aliveOnly)).Listed? && fetch(Endpoint(aliveOnly)).sources == [] ==>
      answer == NoDataSourcesMessage
    ensures fetch(Endpoint(aliveOnly)).Listed? && fetch(Endpoint(aliveOnly)).sources != [] ==>
      var sources := fetch(Endpoint(aliveOnly)).sources;
      && (forall k :: 0 <= k < |sources| ==> sources[k].fields == Stripped(old(sources[k].fields)))
      && answer == Header + dumps(Contents(sources)) + UsageHint
  {
    var endpoint := if aliveOnly then AliveEndpoint else AllEndpoint;
    var response := fetch(endpoint);
    match response
    case SourcesFailed(e) =>
      answer := HandleApiError(e, "retrieving data sources");
    case Listed(dataSources) =>
      if |dataSources| == 0 {
        return NoDataSourcesMessage;
      }
      RemoveRepositoryIds(dataSources);
      var formattedData := dumps(Contents(dataSources));
      var result := Header + formattedData;
      result := result + UsageHint;
      answer := result;
  }
}
