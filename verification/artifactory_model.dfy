/** The records both components read: one configured Artifactory search, the
    repository type tag, the raw AQL result item and the canonical artifact.
    Only the properties the core reads are kept; Java `null` values of these
    properties are not represented. */
module ArtifactoryModel {

  /** The repository type of a search; the core reads only its string form
      (`getRepoTypeString`). */
  datatype RepoType = RepoType(repoTypeString: string)

  /** One configured Artifactory search (endpoint plus the coordinates that
      namespace its poll bookkeeping). */
  datatype ArtifactorySearch = ArtifactorySearch(
    partitionName: string,
    groupId: string,
    baseUrl: string,
    repo: string,
    repoType: RepoType,
    username: string,
    password: string,
    accessToken: string,
    ignoreSslIssues: bool)

  /** One row of an AQL result, with the included fields `repo`, `path` and
      `name`. */
  datatype ArtifactoryItem = ArtifactoryItem(repo: string, path: string, name: string)

  /** The canonical artifact record (the fields the core reads or that a
      conversion can fill in). */
  datatype Artifact = Artifact(
    artifactType: string,
    name: string,
    version: string,
    location: string,
    reference: string,
    provenance: string)
}
