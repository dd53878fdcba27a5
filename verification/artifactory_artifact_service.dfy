/** The Artifactory artifact service: for every configured search it builds
    an AQL query over the fields `repo`, `name` and `path`, sends it, and
    turns the result rows into canonical artifacts; `getArtifactVersions`
    concatenates their versions across searches and `getArtifact` takes the
    first artifact of that concatenation. The remote service and the row
    conversion are parameters (`Backend`). */
module ArtifactoryArtifactService {
  import opened Wrappers
  import opened ArtifactoryModel

  /** One AQL criterion: plain equality, or a `$match` glob pattern. */
  datatype Pred = Eq(field: string, value: string) | Match(field: string, pattern: string)

  /** An AQL `items.find` query: its criteria in builder order and the
      fields it includes in the result rows. */
  datatype AqlQuery = AqlQuery(items: seq<Pred>, includes: seq<string>)

  /** What one query to one search yields: a success response with its
      parsed result rows, a non-success HTTP response, or an IOException. */
  datatype AqlResponse =
    | SuccessResponse(results: seq<ArtifactoryItem>)
    | ErrorResponse(statusCode: int, rawBody: string)
    | IOException

  /** The collaborators the service calls but does not define: the AQL POST
      to a search's endpoint, and the conversion of a result row into an
      artifact for the search's repository type and base URL. */
  datatype Backend = Backend(
    query: (ArtifactorySearch, AqlQuery) -> AqlResponse,
    toMatchableArtifact: (ArtifactoryItem, RepoType, string) -> Artifact)

  /** The exception `List.get(0)` throws on an empty list. */
  datatype IndexOutOfBoundsException = IndexOutOfBoundsException(index: int, length: int)

  const Includes: seq<string> := ["path", "repo", "name"]

  // ---------------------------------------------------------------------------
  // Query construction.
  // ---------------------------------------------------------------------------

  /** `name.replaceAll(":", "/")`: artifact names use ':' between levels,
      repository paths use '/'. */
  function ReplaceColons(name: string): (r: string)
    ensures |r| == |name|
    ensures forall i :: 0 <= i < |name| ==> r[i] == (if name[i] == ':' then '/' else name[i])
    ensures ':' !in r
  {
    if |name| == 0 then "" else [if name[0] == ':' then '/' else name[0]] + ReplaceColons(name[1..])
  }

  function RepoPred(search: ArtifactorySearch): Pred {
    Eq("repo", search.repo)
  }

  function NamePred(artifactType: string): Pred {
    Match("name", "*" + artifactType)
  }

  /** The query listing every version of `name` in the search's repository:
      the repository by equality, file names ending in the type, and a path
      that is the name with each ':' turned into '/' and every other
      character kept, then a single '*'. */
  function VersionsQuery(search: ArtifactorySearch, artifactType: string, name: string): (q: AqlQuery)
    ensures |q.items| == 3 && q.includes == ["path", "repo", "name"]
    ensures q.items[0] == Eq("repo", search.repo) && q.items[1] == Match("name", "*" + artifactType)
    ensures q.items[2].Match? && q.items[2].field == "path"
    ensures var p := q.items[2].pattern;
      && |p| == |name| + 1
      && p[|name|] == '*'
      && ':' !in p
      && forall i :: 0 <= i < |name| ==> p[i] == (if name[i] == ':' then '/' else name[i])
  {
    AqlQuery([RepoPred(search), NamePred(artifactType), Match("path", ReplaceColons(name) + "*")], Includes)
  }

  /** The query for one version of `name` in the search's repository: the
      same repository and name criteria, and a path that is the slash form of
      the name, '/', and the exact version, with no wildcard of its own. */
  function ArtifactQuery(search: ArtifactorySearch, artifactType: string, name: string, version: string): (q: AqlQuery)
    ensures |q.items| == 3 && q.includes == ["path", "repo", "name"]
    ensures q.items[0] == Eq("repo", search.repo) && q.items[1] == Match("name", "*" + artifactType)
    ensures q.items[2].Match? && q.items[2].field == "path"
    ensures var p := q.items[2].pattern;
      && |p| == |name| + 1 + |version|
      && (forall i :: 0 <= i < |name| ==> p[i] == (if name[i] == ':' then '/' else name[i]))
      && p[|name|] == '/'
      && p[|name| + 1..] == version
      && ('*' !in name && '*' !in version ==> '*' !in p)
  {
    AqlQuery([RepoPred(search), NamePred(artifactType), Match("path", ReplaceColons(name) + "/" + version)], Includes)
  }

  /** The two queries of one search agree on every criterion but the path,
      and the lookup path extends the listing path's slash form of the name. */
  lemma QueryShapes(search: ArtifactorySearch, artifactType: string, name: string, version: string)
    ensures var vq := VersionsQuery(search, artifactType, name);
            var aq := ArtifactQuery(search, artifactType, name, version);
            && vq.items[..2] == aq.items[..2]
            && vq.includes == aq.includes
            && vq.items[2].pattern[..|name|] == aq.items[2].pattern[..|name|]
  {
  }

  /** Listing versions of "org:team:app" searches the path "org/team/app*". */
  lemma VersionsPathExample(search: ArtifactorySearch, name: string)
    requires name == "org:team:app"
    ensures VersionsQuery(search, "deb", name).items[2] == Match("path", "org/team/app*")
  {
  }

  // ---------------------------------------------------------------------------
  // One search's contribution.
  // ---------------------------------------------------------------------------

  /** Converts result rows one for one, in order. */
  function ConvertAll(items: seq<ArtifactoryItem>, search: ArtifactorySearch, backend: Backend): (r: seq<Artifact>)
    ensures |r| == |items|
    ensures forall j :: 0 <= j < |items| ==>
      r[j] == backend.toMatchableArtifact(items[j], search.repoType, search.baseUrl)
  {
    if |items| == 0 then []
    else [backend.toMatchableArtifact(items[0], search.repoType, search.baseUrl)] + ConvertAll(items[1..], search, backend)
  }

  /** The artifacts a search contributes for a response: one per result row
      of a success response, and none for a non-success response or an
      IOException. */
  function Contribution(search: ArtifactorySearch, response: AqlResponse, backend: Backend): (r: seq<Artifact>)
    ensures response.SuccessResponse? ==> |r| == |response.results|
    ensures response.SuccessResponse? ==> forall j :: 0 <= j < |r| ==>
      r[j] == backend.toMatchableArtifact(response.results[j], search.repoType, search.baseUrl)
    ensures !response.SuccessResponse? ==> r == []
  {
    match response
    case SuccessResponse(items) => ConvertAll(items, search, backend)
    case _ => []
  }

  /** The versions of a list of artifacts, in order. */
  function Versions(artifacts: seq<Artifact>): (r: seq<string>)
    ensures |r| == |artifacts|
    ensures forall j :: 0 <= j < |artifacts| ==> r[j] == artifacts[j].version
  {
    if |artifacts| == 0 then [] else [artifacts[0].version] + Versions(artifacts[1..])
  }

  function VersionsResponse(search: ArtifactorySearch, artifactType: string, name: string, backend: Backend): AqlResponse {
    backend.query(search, VersionsQuery(search, artifactType, name))
  }

  function ArtifactResponse(search: ArtifactorySearch, artifactType: string, name: string, version: string, backend: Backend): AqlResponse {
    backend.query(search, ArtifactQuery(search, artifactType, name, version))
  }

  /** What one search adds to the version listing. */
  function VersionsContribution(search: ArtifactorySearch, artifactType: string, name: string, backend: Backend): seq<string> {
    Versions(Contribution(search, VersionsResponse(search, artifactType, name, backend), backend))
  }

  /** What one search adds to the artifact lookup. */
  function ArtifactContribution(search: ArtifactorySearch, artifactType: string, name: string, version: string, backend: Backend): seq<Artifact> {
    Contribution(search, ArtifactResponse(search, artifactType, name, version, backend), backend)
  }

  // ---------------------------------------------------------------------------
  // getArtifactVersions.
  // ---------------------------------------------------------------------------

  /** The number of result rows over the searches whose listing query
      succeeded. */
  function SuccessfulRowCount(searches: seq<ArtifactorySearch>, artifactType: string, name: string, backend: Backend): nat {
    if |searches| == 0 then 0
    else
      var rows := match VersionsResponse(searches[0], artifactType, name, backend)
                  case SuccessResponse(items) => |items|
                  case _ => 0;
      rows + SuccessfulRowCount(searches[1..], artifactType, name, backend)
  }

  /** `getArtifactVersions`: each search's versions, concatenated in
      configuration order. The result has one entry per result row of every
      successful search (no deduplication), and no search's failure reaches
      the caller. `releaseStatuses` is accepted and never read. */
  function GetArtifactVersions(
    searches: seq<ArtifactorySearch>, artifactType: string, name: string,
    releaseStatuses: seq<string>, backend: Backend): (r: seq<string>)
    ensures |r| == SuccessfulRowCount(searches, artifactType, name, backend)
  {
    if |searches| == 0 then []
    else
      VersionsContribution(searches[0], artifactType, name, backend)
        + GetArtifactVersions(searches[1..], artifactType, name, releaseStatuses, backend)
  }

  /** Listing over two groups of searches is the listing over the first
      followed by the listing over the second. */
  lemma {:induction false} VersionsAppend(
    s1: seq<ArtifactorySearch>, s2: seq<ArtifactorySearch>, artifactType: string, name: string,
    releaseStatuses: seq<string>, backend: Backend)
    ensures GetArtifactVersions(s1 + s2, artifactType, name, releaseStatuses, backend)
         == GetArtifactVersions(s1, artifactType, name, releaseStatuses, backend)
          + GetArtifactVersions(s2, artifactType, name, releaseStatuses, backend)
    decreases |s1|
  {
    if |s1| == 0 {
      assert s1 + s2 == s2;
    } else {
      var rest := s1[1..];
      assert (s1 + s2)[0] == s1[0];
      assert (s1 + s2)[1..] == rest + s2;
      VersionsAppend(rest, s2, artifactType, name, releaseStatuses, backend);
    }
  }

  /** The contribution of the i-th search sits between those of the searches
      before it and those after it. */
  lemma VersionsDecompose(
    searches: seq<ArtifactorySearch>, i: nat, artifactType: string, name: string,
    releaseStatuses: seq<string>, backend: Backend)
    requires i < |searches|
    ensures GetArtifactVersions(searches, artifactType, name, releaseStatuses, backend)
         == GetArtifactVersions(searches[..i], artifactType, name, releaseStatuses, backend)
          + VersionsContribution(searches[i], artifactType, name, backend)
          + GetArtifactVersions(searches[i + 1..], artifactType, name, releaseStatuses, backend)
  {
    assert searches == searches[..i] + searches[i..];
    VersionsAppend(searches[..i], searches[i..], artifactType, name, releaseStatuses, backend);
    assert searches[i..][1..] == searches[i + 1..];
  }

  /** The j-th row of a successful i-th search yields the version found right
      after all versions of the searches before it, at offset j. */
  lemma VersionsPosition(
    searches: seq<ArtifactorySearch>, i: nat, j: nat, artifactType: string, name: string,
    releaseStatuses: seq<string>, backend: Backend)
    requires i < |searches|
    requires VersionsResponse(searches[i], artifactType, name, backend).SuccessResponse?
    requires j < |VersionsResponse(searches[i], artifactType, name, backend).results|
    ensures var r := GetArtifactVersions(searches, artifactType, name, releaseStatuses, backend);
            var offset := |GetArtifactVersions(searches[..i], artifactType, name, releaseStatuses, backend)|;
            var row := VersionsResponse(searches[i], artifactType, name, backend).results[j];
            && offset + j < |r|
            && r[offset + j] == backend.toMatchableArtifact(row, searches[i].repoType, searches[i].baseUrl).version
  {
    VersionsDecompose(searches, i, artifactType, name, releaseStatuses, backend);
  }

  /** A search that contributes nothing can be dropped from anywhere in the
      list without changing the listing. */
  lemma {:induction false} VersionsSkip(
    pre: seq<ArtifactorySearch>, x: ArtifactorySearch, post: seq<ArtifactorySearch>,
    artifactType: string, name: string, releaseStatuses: seq<string>, backend: Backend)
    requires VersionsContribution(x, artifactType, name, backend) == []
    ensures GetArtifactVersions(pre + [x] + post, artifactType, name, releaseStatuses, backend)
         == GetArtifactVersions(pre + post, artifactType, name, releaseStatuses, backend)
  {
    assert [x][1..] == [];
    assert GetArtifactVersions([x], artifactType, name, releaseStatuses, backend) == [];
    VersionsAppend(pre + [x], post, artifactType, name, releaseStatuses, backend);
    VersionsAppend(pre, [x], artifactType, name, releaseStatuses, backend);
    VersionsAppend(pre, post, artifactType, name, releaseStatuses, backend);
  }

  /** A search whose response is non-success or an IOException adds nothing:
      the listing equals the listing without that search. */
  lemma FailedSearchContributesNothing(
    searches: seq<ArtifactorySearch>, i: nat, artifactType: string, name: string,
    releaseStatuses: seq<string>, backend: Backend)
    requires i < |searches|
    requires !VersionsResponse(searches[i], artifactType, name, backend).SuccessResponse?
    ensures GetArtifactVersions(searches, artifactType, name, releaseStatuses, backend)
         == GetArtifactVersions(searches[..i] + searches[i + 1..], artifactType, name, releaseStatuses, backend)
  {
    assert searches == searches[..i] + [searches[i]] + searches[i + 1..];
    VersionsSkip(searches[..i], searches[i], searches[i + 1..], artifactType, name, releaseStatuses, backend);
  }

  /** The release statuses never change the listing. */
  lemma ReleaseStatusesIgnored(
    searches: seq<ArtifactorySearch>, artifactType: string, name: string,
    rs1: seq<string>, rs2: seq<string>, backend: Backend)
    ensures GetArtifactVersions(searches, artifactType, name, rs1, backend)
         == GetArtifactVersions(searches, artifactType, name, rs2, backend)
  {
  }

  /** Two searches answering ["1.0", "1.1"] and ["2.0"] list
      ["1.0", "1.1", "2.0"]. */
  lemma AggregationExample(
    a: ArtifactorySearch, b: ArtifactorySearch, artifactType: string, name: string,
    releaseStatuses: seq<string>, backend: Backend, x: ArtifactoryItem, y: ArtifactoryItem, z: ArtifactoryItem)
    requires VersionsResponse(a, artifactType, name, backend) == SuccessResponse([x, y])
    requires VersionsResponse(b, artifactType, name, backend) == SuccessResponse([z])
    requires backend.toMatchableArtifact(x, a.repoType, a.baseUrl).version == "1.0"
    requires backend.toMatchableArtifact(y, a.repoType, a.baseUrl).version == "1.1"
    requires backend.toMatchableArtifact(z, b.repoType, b.baseUrl).version == "2.0"
    ensures GetArtifactVersions([a, b], artifactType, name, releaseStatuses, backend) == ["1.0", "1.1", "2.0"]
  {
  }

  /** A failing search followed by one answering ["3.0"] lists ["3.0"]. */
  lemma PartialFailureExample(
    a: ArtifactorySearch, b: ArtifactorySearch, artifactType: string, name: string,
    releaseStatuses: seq<string>, backend: Backend, z: ArtifactoryItem)
    requires VersionsResponse(a, artifactType, name, backend).ErrorResponse?
    requires VersionsResponse(b, artifactType, name, backend) == SuccessResponse([z])
    requires backend.toMatchableArtifact(z, b.repoType, b.baseUrl).version == "3.0"
    ensures GetArtifactVersions([a, b], artifactType, name, releaseStatuses, backend) == ["3.0"]
  {
  }

  // ---------------------------------------------------------------------------
  // getArtifact.
  // ---------------------------------------------------------------------------

  /** Every search's lookup artifacts, concatenated in configuration order
      (all searches are queried). It is empty exactly when every search
      contributes nothing, and otherwise starts with the artifact the
      short-circuit scan `FirstHit` stops at. */
  function ArtifactHits(
    searches: seq<ArtifactorySearch>, artifactType: string, name: string, version: string,
    backend: Backend): (r: seq<Artifact>)
    ensures |r| == 0 <==> forall i :: 0 <= i < |searches| ==>
      ArtifactContribution(searches[i], artifactType, name, version, backend) == []
    ensures FirstHit(searches, artifactType, name, version, backend)
         == if |r| == 0 then None else Some(r[0])
    decreases |searches|
  {
    if |searches| == 0 then []
    else
      assert forall i :: 1 <= i < |searches| ==> searches[1..][i - 1] == searches[i];
      ArtifactContribution(searches[0], artifactType, name, version, backend)
        + ArtifactHits(searches[1..], artifactType, name, version, backend)
  }

  /** `getArtifact`: the first element of the concatenated lookups, or the
      exception of `get(0)` when that concatenation is empty. It fails
      exactly when every search either failed or answered with no rows, and
      taking the first of all hits is the same as stopping at the first
      search that has one. */
  function GetArtifact(
    searches: seq<ArtifactorySearch>, artifactType: string, name: string, version: string,
    backend: Backend): (r: Result<Artifact, IndexOutOfBoundsException>)
    ensures r.Failure? <==> forall i :: 0 <= i < |searches| ==>
      ArtifactContribution(searches[i], artifactType, name, version, backend) == []
    ensures r == match FirstHit(searches, artifactType, name, version, backend)
                 case Some(a) => Success(a)
                 case None => Failure(IndexOutOfBoundsException(0, 0))
  {
    var hits := ArtifactHits(searches, artifactType, name, version, backend);
    if |hits| == 0 then Failure(IndexOutOfBoundsException(0, 0)) else Success(hits[0])
  }

  /** Reference definition: scan the searches in order and stop at the first
      one whose lookup yields an artifact. */
  function FirstHit(
    searches: seq<ArtifactorySearch>, artifactType: string, name: string, version: string,
    backend: Backend): Option<Artifact>
  {
    if |searches| == 0 then None
    else
      var here := ArtifactContribution(searches[0], artifactType, name, version, backend);
      if |here| > 0 then Some(here[0]) else FirstHit(searches[1..], artifactType, name, version, backend)
  }

  /** When the scan finds an artifact, it is the first row, converted, of the
      first search in configuration order whose lookup is non-empty; every
      search before it contributed nothing. By the contract of `GetArtifact`
      this is the artifact `getArtifact` returns. */
  lemma {:induction false} FirstHitFirstNonEmpty(
    searches: seq<ArtifactorySearch>, artifactType: string, name: string, version: string,
    backend: Backend)
    requires FirstHit(searches, artifactType, name, version, backend).Some?
    ensures exists i ::
      && 0 <= i < |searches|
      && (forall j :: 0 <= j < i ==> ArtifactContribution(searches[j], artifactType, name, version, backend) == [])
      && ArtifactResponse(searches[i], artifactType, name, version, backend).SuccessResponse?
      && |ArtifactResponse(searches[i], artifactType, name, version, backend).results| > 0
      && FirstHit(searches, artifactType, name, version, backend).value
         == backend.toMatchableArtifact(
              ArtifactResponse(searches[i], artifactType, name, version, backend).results[0],
              searches[i].repoType, searches[i].baseUrl)
    decreases |searches|
  {
    var here := ArtifactContribution(searches[0], artifactType, name, version, backend);
    if |here| > 0 {
      assert ArtifactResponse(searches[0], artifactType, name, version, backend).SuccessResponse?;
    } else {
      var rest := searches[1..];
      FirstHitFirstNonEmpty(rest, artifactType, name, version, backend);
      var k :| 0 <= k < |rest|
        && (forall j :: 0 <= j < k ==> ArtifactContribution(rest[j], artifactType, name, version, backend) == [])
        && ArtifactResponse(rest[k], artifactType, name, version, backend).SuccessResponse?
        && |ArtifactResponse(rest[k], artifactType, name, version, backend).results| > 0
        && FirstHit(rest, artifactType, name, version, backend).value
           == backend.toMatchableArtifact(
                ArtifactResponse(rest[k], artifactType, name, version, backend).results[0],
                rest[k].repoType, rest[k].baseUrl);
      assert rest[k] == searches[k + 1];
      assert forall j :: 0 <= j < k + 1 ==>
        ArtifactContribution(searches[j], artifactType, name, version, backend) == [] by {
        forall j | 0 <= j < k + 1
          ensures ArtifactContribution(searches[j], artifactType, name, version, backend) == []
        {
          if j > 0 { assert searches[j] == rest[j - 1]; }
        }
      }
    }
  }
}
