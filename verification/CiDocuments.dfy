/**
  Typed views of the TeamCity JSON documents the model handler reads through `dynamic`.
  A property that is missing from a document is `None`; a document the request returned
  as `null` is `None` at the use site.
 */
module CiDocuments {
  import opened Wrappers

  /** The outcome of an HTTP GET: a document (possibly `null`), or an exception the caller rethrows. */
  datatype Fetch<T> = Fetched(doc: Option<T>) | Threw

  /** One entry of the build-type catalog. */
  datatype BuildType = BuildType(id: Option<string>, name: Option<string>)

  /** The catalog: its `count` property and its `buildType` array. */
  datatype BuildTypes = BuildTypes(count: Option<int>, buildType: seq<BuildType>)

  /** One entry of the build queue. */
  datatype QueuedBuild = QueuedBuild(buildTypeId: Option<string>, state: Option<string>)

  /** The build queue: its `count` property and its `build` array. */
  datatype BuildQueue = BuildQueue(count: Option<int>, build: seq<QueuedBuild>)

  /** A user object (`triggered.user`, `change.user`). */
  datatype User = User(name: Option<string>)

  /** The `triggered` object of a status document. */
  datatype Trigger = Trigger(kind: Option<string>, user: Option<User>)

  /** One entry of `lastChanges.change`. */
  datatype Change = Change(username: Option<string>)

  /** The detail document of a change, fetched from the change's own href. */
  datatype ChangeDetail = ChangeDetail(user: Option<User>)

  /** The latest status document of a build type. `lastChanges` holds the `change` array. */
  datatype StatusDoc = StatusDoc(
    status: Option<string>,
    branchName: Option<string>,
    triggered: Option<Trigger>,
    lastChanges: Option<seq<Change>>)

  /** The detail document of a running build; `None` stands for the empty string stored when its fetch gave nothing. */
  datatype RunningDoc = RunningDoc(branchName: Option<string>, percentageComplete: Option<string>)

  /** The running builds, keyed by build type id. */
  type RunningBuilds = map<string, Option<RunningDoc>>
}
