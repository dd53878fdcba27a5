/** The Artifactory poll-state cache: poll-cycle timestamps keyed by search
    partition and group, and artifact-location markers keyed by repository
    type, provenance and reference, both kept in a Redis keyspace of hashes.
    Keys are colon-joined without escaping. */
module ArtifactoryCache {
  import opened Wrappers
  import opened JavaLong
  import opened HashStore
  import opened ArtifactoryModel

  const PollingId: string := "artifactory:publish:queue"
  const PollStamp: string := "lastPollCycleTimestamp"
  const Location: string := "location"
  const ArtifactRepoName: string := "artifactory"

  // ---------------------------------------------------------------------------
  // Key construction. `prefix` is the configured Redis key prefix.
  // ---------------------------------------------------------------------------

  /** Namespace of the poll-cycle hashes: a branch of the artifact namespace,
      so the two share the configured prefix and differ right after it. */
  function PollingPrefix(prefix: string): (r: string)
    ensures StripPrefix(r, ArtifactPrefix(prefix) + ":") == Some(PollingId)
  {
    prefix + ":" + PollingId
  }

  /** Namespace of the artifact-location markers: the configured prefix itself. */
  function ArtifactPrefix(prefix: string): string {
    prefix
  }

  /** Key of the poll-cycle hash of one search. Every key lies in the polling
      namespace, followed by partition and group; both can be read back
      whenever the partition name holds no ':' (the group id may). */
  function MakePollingKey(prefix: string, search: ArtifactorySearch): (r: string)
    ensures StripPrefix(r, PollingPrefix(prefix) + ":") == Some(search.partitionName + ":" + search.groupId)
    ensures ':' !in search.partitionName
        ==> ParsePollingKey(prefix, r) == Some((search.partitionName, search.groupId))
  {
    PollingJoinParses(prefix, search.partitionName, search.groupId);
    PollingPrefix(prefix) + ":" + search.partitionName + ":" + search.groupId
  }

  /** Key of the location marker of one artifact. Every key lies in the
      artifact namespace; it names the repository type, provenance and
      reference, and all three can be read back whenever the first two hold
      no ':' (the reference may). */
  function MakeArtifactKey(prefix: string, item: Artifact, repoType: RepoType): (r: string)
    ensures StripPrefix(r, ArtifactPrefix(prefix) + ":")
         == Some(repoType.repoTypeString + ":" + ArtifactRepoName + ":" + item.provenance + ":" + item.reference)
    ensures ':' !in repoType.repoTypeString && ':' !in item.provenance
        ==> ParseArtifactKey(prefix, r) == Some((repoType.repoTypeString, item.provenance, item.reference))
  {
    ArtifactJoinParses(prefix, repoType.repoTypeString, item.provenance, item.reference);
    ArtifactPrefix(prefix) + ":" + repoType.repoTypeString + ":" + ArtifactRepoName
      + ":" + item.provenance + ":" + item.reference
  }

  // ---------------------------------------------------------------------------
  // Reading keys back: the inverse of the colon join, used to state which
  // keys can and cannot be told apart.
  // ---------------------------------------------------------------------------

  /** Position of the first `c` in `s`, or |s| when there is none. */
  function IndexOf(s: string, c: char): (i: nat)
    ensures i <= |s|
    ensures i < |s| ==> s[i] == c
    ensures forall j :: 0 <= j < i ==> s[j] != c
  {
    if |s| == 0 then 0 else if s[0] == c then 0 else 1 + IndexOf(s[1..], c)
  }

  /** Splits at the first ':' into the segment before it and everything after. */
  function SplitAtColon(s: string): Option<(string, string)> {
    var i := IndexOf(s, ':');
    if i < |s| then Some((s[..i], s[i + 1..])) else None
  }

  function StripPrefix(s: string, head: string): Option<string> {
    if |head| <= |s| && s[..|head|] == head then Some(s[|head|..]) else None
  }

  /** Recovers (partitionName, groupId) from a polling key. */
  function ParsePollingKey(prefix: string, key: string): Option<(string, string)> {
    match StripPrefix(key, PollingPrefix(prefix) + ":")
    case None => None
    case Some(rest) => SplitAtColon(rest)
  }

  /** Recovers (repoTypeString, provenance, reference) from an artifact key. */
  function ParseArtifactKey(prefix: string, key: string): Option<(string, string, string)> {
    match StripPrefix(key, ArtifactPrefix(prefix) + ":")
    case None => None
    case Some(rest) =>
      match SplitAtColon(rest)
      case None => None
      case Some((repoTypeString, rest')) =>
        match StripPrefix(rest', ArtifactRepoName + ":")
        case None => None
        case Some(rest'') =>
          match SplitAtColon(rest'')
          case None => None
          case Some((provenance, reference)) => Some((repoTypeString, provenance, reference))
  }

  /** Joining a colon-free segment to any tail and splitting again gives both
      back. */
  lemma SplitJoin(head: string, tail: string)
    requires ':' !in head
    ensures SplitAtColon(head + ":" + tail) == Some((head, tail))
  {
    var s := head + ":" + tail;
    assert s[|head|] == ':';
    assert IndexOf(s, ':') == |head|;
    assert s[..|head|] == head;
    assert s[|head| + 1..] == tail;
  }

  /** A fixed head followed by any tail strips back to that tail. */
  lemma StripJoin(head: string, tail: string)
    ensures StripPrefix(head + tail, head) == Some(tail)
  {
  }

  /** The colon join of a polling key strips back to partition and group
      after the polling namespace, and parses back into them when the
      partition holds no ':'. */
  lemma PollingJoinParses(prefix: string, partitionName: string, groupId: string)
    ensures StripPrefix(PollingPrefix(prefix) + ":" + partitionName + ":" + groupId, PollingPrefix(prefix) + ":")
         == Some(partitionName + ":" + groupId)
    ensures ':' !in partitionName
        ==> (ParsePollingKey(prefix, PollingPrefix(prefix) + ":" + partitionName + ":" + groupId)
             == Some((partitionName, groupId)))
  {
    var head := PollingPrefix(prefix) + ":";
    var tail := partitionName + ":" + groupId;
    assert PollingPrefix(prefix) + ":" + partitionName + ":" + groupId == head + tail;
    StripJoin(head, tail);
    if ':' !in partitionName {
      SplitJoin(partitionName, groupId);
    }
  }

  /** The colon join of an artifact key strips back to its parts after the
      artifact namespace, and parses back into its three parts when the
      first two hold no ':'. */
  lemma ArtifactJoinParses(prefix: string, repoTypeString: string, provenance: string, reference: string)
    ensures StripPrefix(ArtifactPrefix(prefix) + ":" + repoTypeString + ":" + ArtifactRepoName
                          + ":" + provenance + ":" + reference, ArtifactPrefix(prefix) + ":")
         == Some(repoTypeString + ":" + ArtifactRepoName + ":" + provenance + ":" + reference)
    ensures ':' !in repoTypeString && ':' !in provenance
        ==> (ParseArtifactKey(prefix, ArtifactPrefix(prefix) + ":" + repoTypeString + ":" + ArtifactRepoName
                                        + ":" + provenance + ":" + reference)
             == Some((repoTypeString, provenance, reference)))
  {
    var head := ArtifactPrefix(prefix) + ":";
    var inner := provenance + ":" + reference;
    var rest' := ArtifactRepoName + ":" + inner;
    var rest := repoTypeString + ":" + rest';
    assert ArtifactPrefix(prefix) + ":" + repoTypeString + ":" + ArtifactRepoName
             + ":" + provenance + ":" + reference == head + rest;
    assert rest == repoTypeString + ":" + ArtifactRepoName + ":" + provenance + ":" + reference;
    StripJoin(head, rest);
    if ':' !in repoTypeString && ':' !in provenance {
      SplitJoin(repoTypeString, rest');
      StripJoin(ArtifactRepoName + ":", inner);
      SplitJoin(provenance, reference);
    }
  }

  /** The polling key depends on the prefix, the partition and the group
      only: credentials, endpoint and repository do not enter it. */
  lemma PollingKeyDeterministic(prefix: string, a: ArtifactorySearch, b: ArtifactorySearch)
    requires a.partitionName == b.partitionName && a.groupId == b.groupId
    ensures MakePollingKey(prefix, a) == MakePollingKey(prefix, b)
  {
  }

  /** Under one prefix, searches share a polling key exactly when they share
      partition and group, provided the partition names hold no ':'. */
  lemma PollingKeyInjective(prefix: string, a: ArtifactorySearch, b: ArtifactorySearch)
    requires ':' !in a.partitionName && ':' !in b.partitionName
    ensures MakePollingKey(prefix, a) == MakePollingKey(prefix, b)
        <==> a.partitionName == b.partitionName && a.groupId == b.groupId
  {
  }

  /** Without that proviso keys collide: partition "a:b" with group "c" and
      partition "a" with group "b:c" write the same hash. */
  lemma PollingKeyCollision(prefix: string, a: ArtifactorySearch, b: ArtifactorySearch)
    requires a.partitionName == "a:b" && a.groupId == "c"
    requires b.partitionName == "a" && b.groupId == "b:c"
    ensures (a.partitionName, a.groupId) != (b.partitionName, b.groupId)
    ensures MakePollingKey(prefix, a) == MakePollingKey(prefix, b)
  {
  }

  /** Under one prefix, markers share a key exactly when they share
      repository type, provenance and reference, provided the type strings
      and provenances hold no ':'. */
  lemma ArtifactKeyInjective(prefix: string, a: Artifact, ta: RepoType, b: Artifact, tb: RepoType)
    requires ':' !in ta.repoTypeString && ':' !in a.provenance
    requires ':' !in tb.repoTypeString && ':' !in b.provenance
    ensures MakeArtifactKey(prefix, a, ta) == MakeArtifactKey(prefix, b, tb)
        <==> ta.repoTypeString == tb.repoTypeString && a.provenance == b.provenance
             && a.reference == b.reference
  {
  }

  /** Without that proviso markers collide: provenance "p:q" with reference
      "r" and provenance "p" with reference "q:r" share a key. */
  lemma ArtifactKeyCollision(prefix: string, a: Artifact, b: Artifact, repoType: RepoType)
    requires a.provenance == "p:q" && a.reference == "r"
    requires b.provenance == "p" && b.reference == "q:r"
    ensures MakeArtifactKey(prefix, a, repoType) == MakeArtifactKey(prefix, b, repoType)
  {
  }

  /** The two colon joins differ after the shared prefix: the polling join
      continues with "artifactory:publish", the artifact join with a
      colon-free type string and then "artifactory". */
  lemma JoinsDisjoint(
    prefix: string, partitionName: string, groupId: string,
    repoTypeString: string, provenance: string, reference: string)
    requires ':' !in repoTypeString
    ensures PollingPrefix(prefix) + ":" + partitionName + ":" + groupId
         != ArtifactPrefix(prefix) + ":" + repoTypeString + ":" + ArtifactRepoName + ":" + provenance + ":" + reference
  {
    var head := prefix + ":";
    var artifactTail := ArtifactRepoName + ":" + provenance + ":" + reference;
    var pollingTail := "publish:queue:" + partitionName + ":" + groupId;
    var artifactRest := repoTypeString + ":" + artifactTail;
    var pollingRest := "artifactory" + ":" + pollingTail;
    assert ArtifactPrefix(prefix) + ":" + repoTypeString + ":" + ArtifactRepoName + ":" + provenance + ":" + reference
        == head + artifactRest;
    assert PollingPrefix(prefix) + ":" + partitionName + ":" + groupId == head + pollingRest;
    SplitJoin(repoTypeString, artifactTail);
    SplitJoin("artifactory", pollingTail);
    assert artifactTail[0] == 'a' && pollingTail[0] == 'p';
    assert artifactRest != pollingRest;
    StripJoin(head, artifactRest);
    StripJoin(head, pollingRest);
  }

  /** Poll-cycle hashes and artifact markers live in separate keys whenever
      the repository type string holds no ':'. */
  lemma PollingAndArtifactKeysDisjoint(prefix: string, search: ArtifactorySearch, item: Artifact, repoType: RepoType)
    requires ':' !in repoType.repoTypeString
    ensures MakePollingKey(prefix, search) != MakeArtifactKey(prefix, item, repoType)
  {
    JoinsDisjoint(prefix, search.partitionName, search.groupId,
                  repoType.repoTypeString, item.provenance, item.reference);
  }

  // ---------------------------------------------------------------------------
  // Cache operations over the store.
  // ---------------------------------------------------------------------------

  /** Records the last poll-cycle time of `search` as its decimal text. */
  function SetLastPollCycleTimestamp(store: Store, prefix: string, search: ArtifactorySearch, timestamp: Long): (r: Store)
    ensures HGet(r, MakePollingKey(prefix, search), PollStamp) == Some(LongToString(timestamp))
    ensures forall k, f :: k != MakePollingKey(prefix, search) || f != PollStamp ==> HGet(r, k, f) == HGet(store, k, f)
    ensures r.Keys == store.Keys + {MakePollingKey(prefix, search)}
  {
    HSet(store, MakePollingKey(prefix, search), PollStamp, LongToString(timestamp))
  }

  /** Records the location marker of `item` under its artifact key. */
  function SetArtifactKey(store: Store, prefix: string, item: Artifact, repoType: RepoType): (r: Store)
    ensures HGet(r, MakeArtifactKey(prefix, item, repoType), Location) == Some(item.location)
    ensures forall k, f :: k != MakeArtifactKey(prefix, item, repoType) || f != Location ==> HGet(r, k, f) == HGet(store, k, f)
    ensures r.Keys == store.Keys + {MakeArtifactKey(prefix, item, repoType)}
  {
    HSet(store, MakeArtifactKey(prefix, item, repoType), Location, item.location)
  }

  /** The last recorded poll-cycle time of `search`: None exactly when
      nothing was recorded, the NumberFormatException of `Long.parseLong`
      exactly when the stored text is not a long, and otherwise the value
      `Long.parseLong` reads from it, whose canonical text is the stored
      one when that text is canonical. */
  function GetLastPollCycleTimestamp(store: Store, prefix: string, search: ArtifactorySearch): (r: Result<Option<Long>, NumberFormatException>)
    ensures var stored := HGet(store, MakePollingKey(prefix, search), PollStamp);
      && (r == Success(None) <==> stored.None?)
      && (r.Failure? <==> stored.Some? && ParseLong(stored.value).Failure?)
      && (r.Failure? ==> r.error == NumberFormatException(stored.value))
      && (r.Success? && r.value.Some? ==> ParseLong(stored.value) == Success(r.value.value))
      && (r.Success? && r.value.Some? && CanonicalDecimal(stored.value) ==> LongToString(r.value.value) == stored.value)
  {
    match HGet(store, MakePollingKey(prefix, search), PollStamp)
    case None => Success(None)
    case Some(ts) =>
      CanonicalTextReencodes(ts);
      match ParseLong(ts)
      case Success(v) => Success(Some(v))
      case Failure(e) => Failure(e)
  }

  // ---------------------------------------------------------------------------
  // Properties of the operations.
  // ---------------------------------------------------------------------------

  /** Reading back a recorded time yields it exactly, for every long. */
  lemma TimestampRoundTrip(store: Store, prefix: string, search: ArtifactorySearch, t: Long)
    ensures GetLastPollCycleTimestamp(SetLastPollCycleTimestamp(store, prefix, search, t), prefix, search)
         == Success(Some(t))
  {
  }

  /** The later of two writes to the same search wins, both for reads and for
      the store as a whole. */
  lemma LastWriterWins(store: Store, prefix: string, search: ArtifactorySearch, t1: Long, t2: Long)
    ensures SetLastPollCycleTimestamp(SetLastPollCycleTimestamp(store, prefix, search, t1), prefix, search, t2)
         == SetLastPollCycleTimestamp(store, prefix, search, t2)
    ensures GetLastPollCycleTimestamp(
              SetLastPollCycleTimestamp(SetLastPollCycleTimestamp(store, prefix, search, t1), prefix, search, t2),
              prefix, search)
         == Success(Some(t2))
  {
    HSetOverwrites(store, MakePollingKey(prefix, search), PollStamp, LongToString(t1), LongToString(t2));
    TimestampRoundTrip(store, prefix, search, t2);
  }

  /** A search whose key or field was never written reads as absent, which
      differs from a recorded time of 0. */
  lemma NeverPolledIsAbsent(store: Store, prefix: string, search: ArtifactorySearch)
    requires HGet(store, MakePollingKey(prefix, search), PollStamp).None?
    ensures GetLastPollCycleTimestamp(store, prefix, search) == Success(None)
    ensures GetLastPollCycleTimestamp(store, prefix, search)
         != GetLastPollCycleTimestamp(SetLastPollCycleTimestamp(store, prefix, search, 0), prefix, search)
  {
  }

  /** Stored texts the cache would not write are still read as
      `Long.parseLong` reads them: "007" as 7 and "+5" as 5. */
  lemma NonCanonicalStampsRead(store: Store, prefix: string, a: ArtifactorySearch, b: ArtifactorySearch)
    requires HGet(store, MakePollingKey(prefix, a), PollStamp) == Some("007")
    requires HGet(store, MakePollingKey(prefix, b), PollStamp) == Some("+5")
    ensures GetLastPollCycleTimestamp(store, prefix, a) == Success(Some(7))
    ensures GetLastPollCycleTimestamp(store, prefix, b) == Success(Some(5))
  {
    assert DigitsValue("007") == 7 by {
      assert "007"[..2] == "00" && "00"[..1] == "0" && "0"[..0] == [];
    }
    assert "+5"[1..] == "5" && "5"[..0] == [];
  }

  /** Recording a time for one search leaves the reading of every search with
      a different polling key unchanged. */
  lemma SetTimestampIsolated(store: Store, prefix: string, written: ArtifactorySearch, other: ArtifactorySearch, t: Long)
    requires MakePollingKey(prefix, written) != MakePollingKey(prefix, other)
    ensures GetLastPollCycleTimestamp(SetLastPollCycleTimestamp(store, prefix, written, t), prefix, other)
         == GetLastPollCycleTimestamp(store, prefix, other)
  {
  }

  /** Writing an artifact marker disturbs no poll-cycle field of any key, so
      no search's reading changes. */
  lemma ArtifactMarkerKeepsPollStamps(store: Store, prefix: string, item: Artifact, repoType: RepoType, search: ArtifactorySearch)
    ensures forall k :: HGet(SetArtifactKey(store, prefix, item, repoType), k, PollStamp) == HGet(store, k, PollStamp)
    ensures GetLastPollCycleTimestamp(SetArtifactKey(store, prefix, item, repoType), prefix, search)
         == GetLastPollCycleTimestamp(store, prefix, search)
  {
  }

  /** Writing the same marker twice leaves the store as writing it once. */
  lemma SetArtifactKeyIdempotent(store: Store, prefix: string, item: Artifact, repoType: RepoType)
    ensures SetArtifactKey(SetArtifactKey(store, prefix, item, repoType), prefix, item, repoType)
         == SetArtifactKey(store, prefix, item, repoType)
  {
    HSetIdempotent(store, MakeArtifactKey(prefix, item, repoType), Location, item.location);
  }

  /** Every poll-cycle field in the store holds the text of a long. */
  ghost predicate PollStampsReadable(store: Store) {
    forall k :: HGet(store, k, PollStamp).Some? ==> ParseLong(HGet(store, k, PollStamp).value).Success?
  }

  /** The operations of this cache keep every poll-cycle field readable. */
  lemma OperationsKeepStampsReadable(store: Store, prefix: string, search: ArtifactorySearch, t: Long, item: Artifact, repoType: RepoType)
    requires PollStampsReadable(store)
    ensures PollStampsReadable(SetLastPollCycleTimestamp(store, prefix, search, t))
    ensures PollStampsReadable(SetArtifactKey(store, prefix, item, repoType))
  {
  }

  /** So in a store written only through this cache, a read never fails. */
  lemma ReadableStoreNeverCorrupt(store: Store, prefix: string, search: ArtifactorySearch)
    requires PollStampsReadable(store)
    ensures GetLastPollCycleTimestamp(store, prefix, search).Success?
  {
  }
}
