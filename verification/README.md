# Artifactory poll cache and artifact service, modelled in Dafny

This project models two small pieces of Igor's Artifactory support as pure
functions over values:

- **ArtifactoryCache**: Redis bookkeeping for the Artifactory poller. It
  stores the last poll-cycle timestamp of each search under
  `<prefix>:artifactory:publish:queue:<partitionName>:<groupId>`, in the hash
  field `lastPollCycleTimestamp`, as the decimal text `Long.toString` writes.
  It stores artifact location markers under
  `<prefix>:<repoTypeString>:artifactory:<provenance>:<reference>`, in the
  field `location`. The Redis keyspace is a `map<string, map<string, string>>`,
  and `HSET`/`HGET` are a pure transformer and a query over it
  (`HashStore`). `Long.toString`/`Long.parseLong` are modelled digit by digit
  (`JavaLong`).
- **ArtifactoryArtifactService**: for every configured search, it builds an
  AQL query with three criteria: `repo` equals the search's repository,
  `name` `$match` `"*" + type`, and `path` `$match` the name with ':' turned
  into '/', followed by `"*"` (listing) or `"/" + version` (lookup). It then
  sends the query and converts the result rows into artifacts.
  `getArtifactVersions` concatenates the versions in configuration order.
  A non-success response or an IOException contributes nothing.
  `getArtifact` takes element 0 of the concatenated artifacts.

The remote AQL service and the row-to-artifact conversion are not defined
here. They are the two function-valued fields of `Backend`, so every property
holds for every way the service might answer (one answer per search and
query; see "Left out"). Each search's answer is an
`AqlResponse`: `SuccessResponse(rows)`, `ErrorResponse(status, body)` or
`IOException`.

Three behaviours of the code are kept as written, although a cleaner design
would change them:
- `getArtifact` with no hits in any search throws `IndexOutOfBoundsException`
  from `get(0)`. There is no dedicated not-found error, and the model returns
  that exception (`GetArtifact`).
- Cache keys are joined with ':' without escaping, so distinct identities can
  share a key. The model proves when keys can be read back and shows a
  collision (`PollingKeyCollision`, `ArtifactKeyCollision`).
- All searches are queried even after one has answered. The model's
  `ArtifactHits` concatenates every search's contribution. `FirstHit` is the
  short-circuit reading, and the contracts of `ArtifactHits` and `GetArtifact`
  state that the two agree.

Modules: `Wrappers` (Option, Result), `JavaLong`, `HashStore`,
`ArtifactoryModel` (the records: search, repository type, result row,
artifact), `ArtifactoryCache`, `ArtifactoryArtifactService`.

## Model

| member | source | states |
|---|---|---|
| `JavaLong.LongToString` | igor-monitor-artifactory/src/main/java/com/netflix/spinnaker/igor/artifactory/ArtifactoryCache.java:45 | the stored text of a timestamp is canonical decimal (no leading zero, no '+', no "-0") and starts with '-' exactly for negative values |
| `JavaLong.NatToDigits` | igor-monitor-artifactory/src/main/java/com/netflix/spinnaker/igor/artifactory/ArtifactoryCache.java:45 | the magnitude's digits are canonical, denote exactly the magnitude, and are "0" only for zero |
| `JavaLong.ParseLong` | igor-monitor-artifactory/src/main/java/com/netflix/spinnaker/igor/artifactory/ArtifactoryCache.java:61 | a rejected text raises NumberFormatException carrying that text |
| `JavaLong.ParseLongToString` | igor-monitor-artifactory/src/main/java/com/netflix/spinnaker/igor/artifactory/ArtifactoryCache.java:41-63 | parsing the text written for any long, negatives and both extremes included, gives that long back |
| `JavaLong.LongToStringInjective` | igor-monitor-artifactory/src/main/java/com/netflix/spinnaker/igor/artifactory/ArtifactoryCache.java:45 | two longs get the same text exactly when they are equal |
| `JavaLong.LongToStringOfParse` | igor-monitor-artifactory/src/main/java/com/netflix/spinnaker/igor/artifactory/ArtifactoryCache.java:61 | re-encoding the parsed value of a canonical text reproduces that text |
| `JavaLong.CanonicalTextReencodes` | igor-monitor-artifactory/src/main/java/com/netflix/spinnaker/igor/artifactory/ArtifactoryCache.java:61 | any text that is canonical and parses re-encodes from its parsed value to itself |
| `JavaLong.ParseLongRejects` | igor-monitor-artifactory/src/main/java/com/netflix/spinnaker/igor/artifactory/ArtifactoryCache.java:61 | the empty text, a lone sign, letters and trailing junk are all rejected |
| `JavaLong.DigitsValueLowerBound` | igor-monitor-artifactory/src/main/java/com/netflix/spinnaker/igor/artifactory/ArtifactoryCache.java:61 | a digit run is worth at least its leading digit times ten to its length minus one |
| `JavaLong.LongDigitRunsOverflow` | igor-monitor-artifactory/src/main/java/com/netflix/spinnaker/igor/artifactory/ArtifactoryCache.java:61 | every run of more than nineteen digits without a leading zero is rejected as out of range, unsigned, with '+' and with '-' |
| `HashStore.HGet` | igor-monitor-artifactory/src/main/java/com/netflix/spinnaker/igor/artifactory/ArtifactoryCache.java:60 | HGET is a plain lookup with nil for a missing key or field; its meaning is stated by `HashStore.HSet` (a written pair reads back, every other pair reads as before) and `HashStore.ReplayReadsLastWrite` (after any writes it returns the last value written to the pair) |
| `HashStore.HSet` | igor-monitor-artifactory/src/main/java/com/netflix/spinnaker/igor/artifactory/ArtifactoryCache.java:45 | after HSET the pair reads back the written value, every other (key, field) pair reads as before, and only the written key may be added |
| `HashStore.HSetOverwrites` | igor-monitor-artifactory/src/main/java/com/netflix/spinnaker/igor/artifactory/ArtifactoryCache.java:45 | two writes to one field leave the same store as the second write alone |
| `HashStore.HSetIdempotent` | igor-monitor-artifactory/src/main/java/com/netflix/spinnaker/igor/artifactory/ArtifactoryCache.java:53 | repeating a write leaves the store as one write |
| `HashStore.ReplaySnoc` | igor-monitor-artifactory/src/main/java/com/netflix/spinnaker/igor/artifactory/ArtifactoryCache.java:45 | running one more HSET after a sequence of writes applies it on top of the store they leave |
| `HashStore.ReplayReadsLastWrite` | igor-monitor-artifactory/src/main/java/com/netflix/spinnaker/igor/artifactory/ArtifactoryCache.java:41-63 | after any sequence of HSETs, HGET of a key and field returns the value of the last write to that pair, or what the store held before when no write touched it |
| `ArtifactoryCache.PollingPrefix` | igor-monitor-artifactory/src/main/java/com/netflix/spinnaker/igor/artifactory/ArtifactoryCache.java:81-83 | the polling namespace is the artifact namespace followed by ':' and `artifactory:publish:queue` |
| `ArtifactoryCache.ArtifactPrefix` | igor-monitor-artifactory/src/main/java/com/netflix/spinnaker/igor/artifactory/ArtifactoryCache.java:85-87 | the artifact namespace is the configured prefix itself; what follows from that is stated by `PollingPrefix`, `PollingAndArtifactKeysDisjoint` and `MakeArtifactKey` |
| `ArtifactoryCache.MakePollingKey` | igor-monitor-artifactory/src/main/java/com/netflix/spinnaker/igor/artifactory/ArtifactoryCache.java:65-67 | every polling key is `<prefix>:artifactory:publish:queue:` followed by partition, ':' and group, and partition and group can be read back from it whenever the partition holds no ':' |
| `ArtifactoryCache.MakeArtifactKey` | igor-monitor-artifactory/src/main/java/com/netflix/spinnaker/igor/artifactory/ArtifactoryCache.java:69-79 | every marker key is `<prefix>:` followed by type string, `artifactory`, provenance and reference joined with ':'; repository type, provenance and reference can be read back from a marker key whenever the type string and provenance hold no ':' |
| `ArtifactoryCache.IndexOf` | igor-monitor-artifactory/src/main/java/com/netflix/spinnaker/igor/artifactory/ArtifactoryCache.java:66 | the position found holds the delimiter (when in range) and no earlier position does; this is the reading-back side of the colon join |
| `ArtifactoryCache.SplitJoin` | igor-monitor-artifactory/src/main/java/com/netflix/spinnaker/igor/artifactory/ArtifactoryCache.java:66 | a colon-free segment joined with ':' to any tail splits back into that segment and tail |
| `ArtifactoryCache.PollingKeyDeterministic` | igor-monitor-artifactory/src/main/java/com/netflix/spinnaker/igor/artifactory/ArtifactoryCache.java:65-67 | searches that agree on partition and group get the same key, whatever their other settings |
| `ArtifactoryCache.PollingKeyInjective` | igor-monitor-artifactory/src/main/java/com/netflix/spinnaker/igor/artifactory/ArtifactoryCache.java:66 | under one prefix, two searches with colon-free partitions share a key exactly when they share partition and group |
| `ArtifactoryCache.PollingKeyCollision` | igor-monitor-artifactory/src/main/java/com/netflix/spinnaker/igor/artifactory/ArtifactoryCache.java:66 | ("a:b", "c") and ("a", "b:c") are different identities with the same polling key |
| `ArtifactoryCache.ArtifactKeyInjective` | igor-monitor-artifactory/src/main/java/com/netflix/spinnaker/igor/artifactory/ArtifactoryCache.java:69-79 | under that proviso, markers share a key exactly when they share type string, provenance and reference |
| `ArtifactoryCache.ArtifactKeyCollision` | igor-monitor-artifactory/src/main/java/com/netflix/spinnaker/igor/artifactory/ArtifactoryCache.java:76-78 | provenance "p:q" with reference "r" and provenance "p" with reference "q:r" share a marker key |
| `ArtifactoryCache.JoinsDisjoint` | igor-monitor-artifactory/src/main/java/com/netflix/spinnaker/igor/artifactory/ArtifactoryCache.java:65-87 | the polling join and the marker join of any parts differ when the type string holds no ':', because after the shared prefix one goes on with "artifactory:publish" and the other with the type string and "artifactory" |
| `ArtifactoryCache.PollingAndArtifactKeysDisjoint` | igor-monitor-artifactory/src/main/java/com/netflix/spinnaker/igor/artifactory/ArtifactoryCache.java:65-87 | no polling key equals any marker key when the repository type string holds no ':' |
| `ArtifactoryCache.SetLastPollCycleTimestamp` | igor-monitor-artifactory/src/main/java/com/netflix/spinnaker/igor/artifactory/ArtifactoryCache.java:41-47 | the search's `lastPollCycleTimestamp` field then holds the timestamp's decimal text, no other (key, field) pair changes, and at most the polling key is added |
| `ArtifactoryCache.SetArtifactKey` | igor-monitor-artifactory/src/main/java/com/netflix/spinnaker/igor/artifactory/ArtifactoryCache.java:49-55 | only the `location` field of the marker key changes, it then holds the artifact's location, and at most that one key is added |
| `ArtifactoryCache.GetLastPollCycleTimestamp` | igor-monitor-artifactory/src/main/java/com/netflix/spinnaker/igor/artifactory/ArtifactoryCache.java:57-63 | the read is absent exactly when the field is missing, fails with NumberFormatException for the stored text exactly when that text is not a long, and otherwise returns exactly the value `Long.parseLong` reads from the stored text, whose canonical text is the stored one when that text is canonical |
| `ArtifactoryCache.NonCanonicalStampsRead` | igor-monitor-artifactory/src/main/java/com/netflix/spinnaker/igor/artifactory/ArtifactoryCache.java:61 | stored texts the cache never writes are read as `Long.parseLong` reads them: "007" as 7 and "+5" as 5 |
| `ArtifactoryCache.TimestampRoundTrip` | igor-monitor-artifactory/src/main/java/com/netflix/spinnaker/igor/artifactory/ArtifactoryCache.java:41-63 | after recording any long T for a search, reading that search returns exactly T |
| `ArtifactoryCache.LastWriterWins` | igor-monitor-artifactory/src/main/java/com/netflix/spinnaker/igor/artifactory/ArtifactoryCache.java:45 | recording T1 and then T2 leaves the store as recording T2 alone, and the read returns T2 |
| `ArtifactoryCache.NeverPolledIsAbsent` | igor-monitor-artifactory/src/main/java/com/netflix/spinnaker/igor/artifactory/ArtifactoryCache.java:60-61 | a missing key or field reads as absent (null), which differs from a recorded 0 |
| `ArtifactoryCache.SetTimestampIsolated` | igor-monitor-artifactory/src/main/java/com/netflix/spinnaker/igor/artifactory/ArtifactoryCache.java:41-47 | recording a time leaves the reading of every search with another polling key unchanged |
| `ArtifactoryCache.ArtifactMarkerKeepsPollStamps` | igor-monitor-artifactory/src/main/java/com/netflix/spinnaker/igor/artifactory/ArtifactoryCache.java:49-55 | writing a marker changes no `lastPollCycleTimestamp` field of any key, so no search's reading changes |
| `ArtifactoryCache.SetArtifactKeyIdempotent` | igor-monitor-artifactory/src/main/java/com/netflix/spinnaker/igor/artifactory/ArtifactoryCache.java:49-55 | writing the same marker twice leaves the store as writing it once |
| `ArtifactoryCache.OperationsKeepStampsReadable` | igor-monitor-artifactory/src/main/java/com/netflix/spinnaker/igor/artifactory/ArtifactoryCache.java:41-55 | both writes keep every poll-cycle field parseable as a long |
| `ArtifactoryCache.ReadableStoreNeverCorrupt` | igor-monitor-artifactory/src/main/java/com/netflix/spinnaker/igor/artifactory/ArtifactoryCache.java:57-63 | in such a store the read never throws, so only foreign writes can corrupt a timestamp |
| `ArtifactoryArtifactService.ReplaceColons` | igor-web/src/main/java/com/netflix/spinnaker/igor/artifacts/artifactory/ArtifactoryArtifactService.java:73 | `replaceAll(":", "/")` keeps the length, turns each ':' into '/', keeps every other character, and leaves no ':' |
| `ArtifactoryArtifactService.VersionsQuery` | igor-web/src/main/java/com/netflix/spinnaker/igor/artifacts/artifactory/ArtifactoryArtifactService.java:67-74 | three criteria: `repo` equal to the search's repo, `name` matching `"*" + type`, and a path pattern that is the name with ':' turned into '/', then exactly one trailing '*'; the rows include path, repo and name |
| `ArtifactoryArtifactService.ArtifactQuery` | igor-web/src/main/java/com/netflix/spinnaker/igor/artifacts/artifactory/ArtifactoryArtifactService.java:106-115 | the same repo and name criteria and included fields, and a path pattern that is the slash form of the name, then '/' and the exact version; the code adds no wildcard to it |
| `ArtifactoryArtifactService.QueryShapes` | igor-web/src/main/java/com/netflix/spinnaker/igor/artifacts/artifactory/ArtifactoryArtifactService.java:67-74 | the listing and lookup queries of one search agree on every criterion but the path, and both paths begin with the same slash form of the name (lines 106-115 build the second) |
| `ArtifactoryArtifactService.VersionsPathExample` | igor-web/src/main/java/com/netflix/spinnaker/igor/artifacts/artifactory/ArtifactoryArtifactService.java:73 | listing "org:team:app" searches the path pattern "org/team/app*" |
| `ArtifactoryArtifactService.ConvertAll` | igor-web/src/main/java/com/netflix/spinnaker/igor/artifacts/artifactory/ArtifactoryArtifactService.java:121-125 | one artifact per result row, in row order, each converted with the search's repository type and base URL |
| `ArtifactoryArtifactService.Contribution` | igor-web/src/main/java/com/netflix/spinnaker/igor/artifacts/artifactory/ArtifactoryArtifactService.java:117-135 | a success response contributes its converted rows one for one; a non-success response or an IOException contributes the empty list |
| `ArtifactoryArtifactService.Versions` | igor-web/src/main/java/com/netflix/spinnaker/igor/artifacts/artifactory/ArtifactoryArtifactService.java:80-85 | the versions are projected one per artifact, in order |
| `ArtifactoryArtifactService.GetArtifactVersions` | igor-web/src/main/java/com/netflix/spinnaker/igor/artifacts/artifactory/ArtifactoryArtifactService.java:62-98 | the listing has exactly as many entries as there are result rows over the successful searches, so nothing is deduplicated |
| `ArtifactoryArtifactService.VersionsAppend` | igor-web/src/main/java/com/netflix/spinnaker/igor/artifacts/artifactory/ArtifactoryArtifactService.java:97 | the listing over two groups of searches is the listing over the first followed by the listing over the second |
| `ArtifactoryArtifactService.VersionsDecompose` | igor-web/src/main/java/com/netflix/spinnaker/igor/artifacts/artifactory/ArtifactoryArtifactService.java:64-97 | each search's versions sit between those of the searches configured before it and those after it |
| `ArtifactoryArtifactService.VersionsPosition` | igor-web/src/main/java/com/netflix/spinnaker/igor/artifacts/artifactory/ArtifactoryArtifactService.java:80-85 | the j-th row of a successful search yields the listing entry at the number of earlier searches' versions plus j |
| `ArtifactoryArtifactService.VersionsSkip` | igor-web/src/main/java/com/netflix/spinnaker/igor/artifacts/artifactory/ArtifactoryArtifactService.java:97 | a search that contributes no versions can be dropped from any position without changing the listing |
| `ArtifactoryArtifactService.FailedSearchContributesNothing` | igor-web/src/main/java/com/netflix/spinnaker/igor/artifacts/artifactory/ArtifactoryArtifactService.java:87-95 | a search answered by a non-success response or an IOException can be removed without changing the listing; nothing is raised to the caller |
| `ArtifactoryArtifactService.ReleaseStatusesIgnored` | igor-web/src/main/java/com/netflix/spinnaker/igor/artifacts/artifactory/ArtifactoryArtifactService.java:62-63 | the listing is the same for any release statuses |
| `ArtifactoryArtifactService.AggregationExample` | igor-web/src/main/java/com/netflix/spinnaker/igor/artifacts/artifactory/ArtifactoryArtifactService.java:64-97 | searches answering ["1.0", "1.1"] and ["2.0"] list ["1.0", "1.1", "2.0"] |
| `ArtifactoryArtifactService.PartialFailureExample` | igor-web/src/main/java/com/netflix/spinnaker/igor/artifacts/artifactory/ArtifactoryArtifactService.java:87-97 | a failing search followed by one answering ["3.0"] lists ["3.0"] |
| `ArtifactoryArtifactService.ArtifactHits` | igor-web/src/main/java/com/netflix/spinnaker/igor/artifacts/artifactory/ArtifactoryArtifactService.java:103-137 | the concatenated lookups of all searches are empty exactly when every search contributes nothing, and otherwise begin with the artifact that a scan stopping at the first non-empty search finds |
| `ArtifactoryArtifactService.GetArtifact` | igor-web/src/main/java/com/netflix/spinnaker/igor/artifacts/artifactory/ArtifactoryArtifactService.java:100-139 | `getArtifact` throws from `get(0)` exactly when every search contributes nothing, and otherwise returns the first hit found by scanning the searches in order and stopping at the first non-empty one |
| `ArtifactoryArtifactService.FirstHitFirstNonEmpty` | igor-web/src/main/java/com/netflix/spinnaker/igor/artifacts/artifactory/ArtifactoryArtifactService.java:120-138 | when the in-order scan that `getArtifact` agrees with finds an artifact, it is the converted first row of the first search, in configuration order, whose successful response has rows; every earlier search contributed nothing |

## Left out

- `artifactoryQuery` (client construction, credentials, TLS flag, the POST to
  `api/search/aql`) is network I/O. It is the `Backend.query` parameter.
- `Backend.query`: is a function of the search and the query, so two
  identical entries in the configured search list get the same answer. In
  the code each entry is a separate network call (ArtifactoryArtifactService.java
  lines 77-78 and 118-119) and the two could differ. No property here relates
  two such entries.
- `AqlQueryBuilder.build()` serialisation and Artifactory's `$match` glob
  semantics belong to the client library and the server. Criteria are data
  here, and which paths a pattern matches is not modelled. In particular, the
  model does not show that version "1.2.3" fails to match a path ending in
  "1.2.30".
- JSON parsing (`parseBody`) and the body of `toMatchableArtifact` with its
  version derivation are not shown. `SuccessResponse` carries the parsed rows,
  and `Backend.toMatchableArtifact` is the conversion. An IOException raised
  while parsing falls into the same `IOException` outcome.
- Runtime exceptions other than IOException from the query or the conversion
  would escape the stream. They are not modelled.
- `RedisClientDelegate` transport, connection failures and concurrent writers
  are left out; the store is a value. So are Redis type errors (a key holding
  a non-hash).
- Java `null` values of search, artifact or repository-type properties are not
  represented. Java string concatenation would render them as "null", and
  `hset` would reject a null location.
- `JavaLong.ParseLong`: accepts only ASCII digits '0'-'9'. `Long.parseLong`
  also accepts other Unicode decimal digits through `Character.digit`. This
  only matters for text that this cache did not write.
- `ArtifactorySearch`, `ArtifactoryRepositoryType`, `Artifact` and the AQL
  result item are modelled only by the getters the core reads, kept as
  record fields. The other behaviour of those classes is not modelled. The
  configured Redis prefix is the `prefix` parameter.
- Logging, Spring and Lombok annotations, `artifactServiceProvider()` and
  configuration loading.
