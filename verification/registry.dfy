/**
 * The registry's data model: repositories keyed by "namespace/name", each
 * owning its builds keyed by commit hash, each build owning its tags.
 * The Build record carries the union of the fields of the two revisions
 * of the handlers (api.go and main.go).
 */
module Registry {
  import opened Strconv
  import opened JsonTime

  /** A release tag attached to a build. */
  datatype Tag = Tag(ready: bool, version: string, releaseDate: Time)

  /** `Tag{}`, what a missing tag reads as. */
  const ZeroTag: Tag := Tag(false, "", Zero)

  /**
   * A build of one commit: the CI engine's build id, the commit title,
   * the push date, the artifact directory relative to the storage root
   * ("" when nothing was uploaded), the CI link, the tags, the branch and
   * the date of the last upload.
   */
  datatype Build = Build(
    id: Int64,
    name: string,
    date: Time,
    files: string,
    link: string,
    tags: map<string, Tag>,
    branch: string,
    dateChanged: Time)

  /** `Build{}`, what a missing commit reads as. */
  const ZeroBuild: Build := Build(0, "", Zero, "", "", map[], "", Zero)

  /** A repository mirrored from the CI engine, with its signing secret. */
  datatype Repo = Repo(
    namespace: string,
    name: string,
    link: string,
    builds: map<string, Build>,
    secret: string,
    branches: seq<string>,
    latestBuild: string,
    latestNonEmptyBuild: string)

  /** The in-memory database, keyed by "namespace/name". */
  type Storage = map<string, Repo>

  /** The storage key of a repository. */
  function RepoId(namespace: string, name: string): string {
    namespace + "/" + name
  }

  /** A build record as the CI engine lists it. */
  datatype CiBuild = CiBuild(id: Int64, title: string, updated: Int64, link: string, after: string)

  /** A repository record as the CI engine lists it. */
  datatype CiRepo = CiRepo(namespace: string, name: string, link: string, active: bool)

  /** One entry of an artifact directory: its name and its size in bytes. */
  datatype FileInfo = FileInfo(name: string, size: Int64)

  /**
   * The artifact directories, keyed by their path relative to the storage
   * root, each with its entries in listing order; a path that is absent
   * cannot be read.
   */
  type Listing = map<string, seq<FileInfo>>
}
