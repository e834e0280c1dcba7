/**
  The status aggregation engine (Helpers/DefaultBuildMonitorModelHandler.cs): resolving a
  pipeline's statuses, branch, progress, attribution and narrative from the CI documents
  of one poll. Every CI document, the clock-dependent age of the last run, the fetched
  commit detail, the directory picture and the finished narrative endings arrive
  as inputs in a `Poll`.
 */
module ModelHandler {
  import opened Wrappers
  import opened Text
  import opened Pipelines
  import opened CiDocuments
  import opened Transitions
  import RelativeTime

  // ---------------------------------------------------------------------------
  // Status resolution

  /** The TeamCity status string that denotes a terminal status, if any. */
  function TeamCityStatusName(s: BuildStatus): Option<string> {
    match s
    case Success => Some("SUCCESS")
    case Failure => Some("FAILURE")
    case Error => Some("ERROR")
    case _ => Option.None
  }

  /**
    `GetBuildStatusEnum`: a build type with a running build is `Running` whatever its status
    document says; otherwise the document's status string decides, and a missing document or
    an unrecognised string is `None`.
   */
  function GetBuildStatusEnum(buildId: string, running: RunningBuilds, doc: Option<StatusDoc>): (s: BuildStatus)
    ensures s == Running <==> buildId in running
    ensures buildId !in running && doc.None? ==> s == BuildStatus.None
    ensures buildId !in running && doc.Some? ==>
              forall t :: TeamCityStatusName(t).Some? ==> (s == t <==> doc.value.status == TeamCityStatusName(t))
    ensures s == BuildStatus.None <==>
              buildId !in running && (doc.None? || doc.value.status !in {Some("SUCCESS"), Some("FAILURE"), Some("ERROR")})
  {
    if buildId in running then Running
    else if doc.None? then BuildStatus.None
    else
      match doc.value.status
      case Some("SUCCESS") => Success
      case Some("FAILURE") => Failure
      case Some("ERROR") => Error
      case _ => BuildStatus.None
  }

  /** Every terminal status is recovered from the string TeamCity reports for it, whatever else the document holds. */
  lemma StatusNameRoundTrip(s: BuildStatus, buildId: string, running: RunningBuilds, doc: StatusDoc)
    requires TeamCityStatusName(s).Some? && buildId !in running
    ensures GetBuildStatusEnum(buildId, running, Some(doc.(status := TeamCityStatusName(s)))) == s
  {
  }

  /** A stage with a blank build type id is `None`; any other resolves like the primary build type. */
  function StageStatusOf(stageId: Option<string>, running: RunningBuilds, doc: Option<StatusDoc>): (s: BuildStatus)
    ensures IsNullOrWhiteSpace(stageId) ==> s == BuildStatus.None
    ensures !IsNullOrWhiteSpace(stageId) ==> s == GetBuildStatusEnum(stageId.value, running, doc)
  {
    if IsNullOrWhiteSpace(stageId) then BuildStatus.None else GetBuildStatusEnum(stageId.value, running, doc)
  }

  /** `GetEnvironmentStatusCssClass`: the display class of a stage status; total over the enum. */
  function EnvironmentCssClass(s: BuildStatus): (r: string)
    ensures r == "env-status-ok" <==> s == Success
    ensures r == "env-status-broken" <==> s == Failure || s == Error
    ensures r == "env-status-running" <==> s == Running
    ensures r == "env-status-hide" <==> s == BuildStatus.None
  {
    match s
    case Success => "env-status-ok"
    case Failure => "env-status-broken"
    case Error => "env-status-broken"
    case Running => "env-status-running"
    case None => "env-status-hide"
  }

  // ---------------------------------------------------------------------------
  // Scans over the catalog and the queue

  /**
    How many array entries a `for (i = 0; i < count; i++)` scan reads before it either ends
    or indexes past the array (the exception that ends the scan with "not found").
   */
  function ScanLimit(count: int, length: nat): (n: nat)
    ensures n <= length
    ensures count >= 0 && count <= length ==> n == count
    ensures count > length ==> n == length
    ensures count < 0 ==> n == 0
  {
    if count < 0 then 0 else if count < length then count else length
  }

  /** The first build type in `types` whose id is `id`. */
  function FindBuildType(id: string, types: seq<BuildType>): (r: Option<BuildType>)
    ensures r.None? <==> forall i :: 0 <= i < |types| ==> types[i].id != Some(id)
    ensures r.Some? ==> exists i :: 0 <= i < |types| && types[i] == r.value && r.value.id == Some(id)
                                    && forall j :: 0 <= j < i ==> types[j].id != Some(id)
    decreases |types|
  {
    if types == [] then Option.None
    else if types[0].id == Some(id) then Some(types[0])
    else
      var r := FindBuildType(id, types[1..]);
      assert forall i :: 1 <= i < |types| ==> types[i] == types[1..][i - 1];
      r
  }

  /** `GetBuildTypeById`: the first catalog entry with this id among those the scan reaches. */
  function GetBuildTypeById(id: string, catalog: Option<BuildTypes>): (r: Option<BuildType>)
    ensures r.Some? ==> r.value.id == Some(id)
    ensures r.Some? <==>
              && !IsNullOrWhiteSpace(Some(id)) && catalog.Some? && catalog.value.count.Some?
              && exists i :: 0 <= i < ScanLimit(catalog.value.count.value, |catalog.value.buildType|)
                               && catalog.value.buildType[i].id == Some(id)
    ensures r.Some? ==>
              exists i :: 0 <= i < ScanLimit(catalog.value.count.value, |catalog.value.buildType|)
                          && catalog.value.buildType[i] == r.value
                          && forall j :: 0 <= j < i ==> catalog.value.buildType[j].id != Some(id)
  {
    if IsNullOrWhiteSpace(Some(id)) || catalog.None? || catalog.value.count.None? then Option.None
    else
      var n := ScanLimit(catalog.value.count.value, |catalog.value.buildType|);
      var r := FindBuildType(id, catalog.value.buildType[..n]);
      assert forall i :: 0 <= i < n ==> catalog.value.buildType[..n][i] == catalog.value.buildType[i];
      r
  }

  /**
    A queue entry for build type `id` waiting in state "queued". An entry missing either
    attribute reads as null and never matches.
   */
  function IsQueuedEntry(b: QueuedBuild, id: string): (r: bool)
    ensures r ==> b.buildTypeId.Some? && b.state.Some?
    ensures r <==> b.buildTypeId == Some(id) && b.state == Some("queued")
  {
    b.buildTypeId == Some(id) && b.state == Some("queued")
  }

  function AnyQueued(id: string, builds: seq<QueuedBuild>): (r: bool)
    ensures r <==> exists i :: 0 <= i < |builds| && IsQueuedEntry(builds[i], id)
    decreases |builds|
  {
    if builds == [] then false
    else if IsQueuedEntry(builds[0], id) then true
    else
      var r := AnyQueued(id, builds[1..]);
      assert forall i :: 1 <= i < |builds| ==> builds[i] == builds[1..][i - 1];
      r
  }

  /**
    `IsBuildQueued`: true iff an entry the scan reaches is for this build type and in state
    "queued"; a missing queue or count answers false.
   */
  function IsBuildQueued(id: string, queue: Option<BuildQueue>): (r: bool)
    ensures r <==> && queue.Some? && queue.value.count.Some?
                   && exists i :: 0 <= i < ScanLimit(queue.value.count.value, |queue.value.build|)
                                    && IsQueuedEntry(queue.value.build[i], id)
  {
    if queue.None? || queue.value.count.None? then false
    else
      var n := ScanLimit(queue.value.count.value, |queue.value.build|);
      var r := AnyQueued(id, queue.value.build[..n]);
      assert forall i :: 0 <= i < n ==> queue.value.build[..n][i] == queue.value.build[i];
      r
  }

  // ---------------------------------------------------------------------------
  // Attribution

  /** The name reported when no actor can be determined. */
  const UnknownName := "Unknown"

  /** The actor named when TeamCity itself triggered the build. */
  const CiServerName := "TeamCity"

  /** The document was triggered by a VCS change and lists changes, so the first change's detail is consulted. */
  predicate ConsultsCommit(doc: Option<StatusDoc>) {
    && doc.Some? && doc.value.triggered.Some?
    && doc.value.triggered.value.kind == Some("vcs")
    && doc.value.lastChanges.Some? && |doc.value.lastChanges.value| > 0
  }

  /**
    `GetUpdatedByAsync`: who the build is attributed to. `change` is the detail document of the
    first listed change, `None` when its fetch gave nothing or failed. A user object without a
    name gives `None` (C# `null`); every failure along the way gives "Unknown".
   */
  function GetUpdatedBy(doc: Option<StatusDoc>, change: Option<ChangeDetail>): (r: Option<string>)
    ensures doc.None? || doc.value.triggered.None? ==> r == Some(UnknownName)
    ensures doc.Some? && doc.value.triggered.Some? && doc.value.triggered.value.kind == Some("user") ==>
              r == (if doc.value.triggered.value.user.Some? then doc.value.triggered.value.user.value.name else Some(UnknownName))
    ensures ConsultsCommit(doc) ==>
              r == (if change.Some? && change.value.user.Some? then change.value.user.value.name else Some(UnknownName))
    ensures doc.Some? && doc.value.triggered.Some? && doc.value.triggered.value.kind == Some("unknown") ==>
              r == Some(CiServerName)
    ensures (doc.Some? && doc.value.triggered.Some? && !ConsultsCommit(doc)
             && doc.value.triggered.value.kind !in {Some("user"), Some("unknown")}) ==>
              r == Some(UnknownName)
    ensures r == Some(CiServerName) && !ConsultsCommit(doc) ==>
              doc.Some? && doc.value.triggered.Some? &&
              (doc.value.triggered.value.kind == Some("unknown") || doc.value.triggered.value.user == Some(User(Some(CiServerName))))
    ensures r.None? ==>
              && doc.Some? && doc.value.triggered.Some?
              && (doc.value.triggered.value.kind == Some("user") || ConsultsCommit(doc))
  {
    if doc.None? || doc.value.triggered.None? then Some(UnknownName)
    else
      var trigger := doc.value.triggered.value;
      if trigger.kind == Some("user") then
        (if trigger.user.None? then Some(UnknownName) else trigger.user.value.name)
      else if trigger.kind == Some("vcs") && doc.value.lastChanges.Some? then
        if |doc.value.lastChanges.value| == 0 then Some(UnknownName)
        else if change.None? || change.value.user.None? then Some(UnknownName)
        else change.value.user.value.name
      else if trigger.kind == Some("unknown") then Some(CiServerName)
      else Some(UnknownName)
  }

  /** The change detail is only read for a VCS-triggered build with listed changes: otherwise it cannot affect the result. */
  lemma UpdatedByIgnoresCommitUnlessConsulted(doc: Option<StatusDoc>, c1: Option<ChangeDetail>, c2: Option<ChangeDetail>)
    requires !ConsultsCommit(doc)
    ensures GetUpdatedBy(doc, c1) == GetUpdatedBy(doc, c2)
  {
  }

  /**
    `GetRunningBuildBranchAndProgress`: the running build's branch (default "default") and its
    percentage (default "0" when blank); a detail that could not be read gives both defaults.
   */
  function RunningBranchAndProgress(detail: Option<RunningDoc>): (r: (string, string))
    ensures !IsNullOrWhiteSpace(Some(r.1))
    ensures detail.Some? && detail.value.branchName.Some? ==> r.0 == detail.value.branchName.value
    ensures detail.None? || detail.value.branchName.None? ==> r.0 == "default"
    ensures detail.Some? && !IsNullOrWhiteSpace(detail.value.percentageComplete) ==> r.1 == detail.value.percentageComplete.value
    ensures detail.None? || IsNullOrWhiteSpace(detail.value.percentageComplete) ==> r.1 == "0"
  {
    assert "0"[0] == '0';
    match detail
    case None => ("default", "0")
    case Some(d) =>
      (d.branchName.GetOr("default"),
       if IsNullOrWhiteSpace(d.percentageComplete) then "0" else d.percentageComplete.value)
  }

  /** The prefix TeamCity puts on git branch names. */
  const BranchPrefix := "refs/heads/"

  /** The displayed branch: every occurrence of the prefix removed, as `string.Replace` does. */
  function DisplayBranch(raw: string): (r: string)
    ensures |r| <= |raw|
    ensures !Occurs(BranchPrefix, raw) ==> r == raw
  {
    ReplaceAll(raw, BranchPrefix, "")
  }

  /** A single leading prefix is removed and the rest of the branch name is kept. */
  lemma PrefixStrippedOnce(name: string)
    requires !Occurs(BranchPrefix, name)
    ensures DisplayBranch(BranchPrefix + name) == name
  {
    ReplaceAllLeading(BranchPrefix, name, "");
  }

  /**
    A prefix anywhere in the name is removed, the text before its first occurrence is kept,
    and the rest of the name is cleaned in turn: every occurrence goes, not only a leading one.
   */
  lemma PrefixRemovedWherever(before: string, after: string)
    requires !Occurs(BranchPrefix, before + BranchPrefix[..|BranchPrefix| - 1])
    ensures DisplayBranch(before + BranchPrefix + after) == before + DisplayBranch(after)
  {
    ReplaceAllAtFirstOccurrence(before, BranchPrefix, after, "");
  }

  /** Two leading copies of the prefix are both removed: `Replace` is not a one-time prefix strip. */
  lemma DoublePrefixStripped(x: string)
    ensures DisplayBranch(BranchPrefix + BranchPrefix + x) == DisplayBranch(x)
  {
    ReplaceAllLeadingTwice(BranchPrefix, x, "");
  }

  // ---------------------------------------------------------------------------
  // Contributors

  /** The contributor used when the status document lists no change. */
  const DefaultUser := "put default user here"

  /** The directory domain appended to a TeamCity username. */
  const UserDomain := "@some-domain************.com"

  /** Cached display data of a contributor. */
  datatype Developer = Developer(name: Option<string>, pictureData: Option<string>)

  /**
    The contributor cache, keyed by the contributor key. The source appends one fixed suffix
    to every key, which does not change which keys coincide.
   */
  type Contributors = map<string, Developer>

  /** The contributor key: the first listed change's username at the directory domain, else the default user. */
  function ContributorKey(doc: Option<StatusDoc>): (k: string)
    requires doc.Some? ==> doc.value.lastChanges.Some?
    ensures doc.Some? && |doc.value.lastChanges.value| > 0 ==>
              k == doc.value.lastChanges.value[0].username.GetOr("") + UserDomain
    ensures doc.None? || |doc.value.lastChanges.value| == 0 ==> k == DefaultUser
  {
    if doc.Some? && |doc.value.lastChanges.value| > 0 then
      doc.value.lastChanges.value[0].username.GetOr("") + UserDomain
    else DefaultUser
  }

  /**
    The contributor for `key`: a cached entry is reused as is; otherwise the attribution name
    and the freshly fetched picture are cached and used.
   */
  function ResolveContributor(cache: Contributors, key: string, updatedBy: Option<string>, picture: Option<string>)
    : (r: (Developer, Contributors))
    ensures key in r.1 && r.1[key] == r.0
    ensures forall k :: k in cache ==> k in r.1 && r.1[k] == cache[k]
    ensures r.1.Keys == cache.Keys + {key}
    ensures key !in cache ==> r.0 == Developer(updatedBy, picture)
  {
    if key in cache then (cache[key], cache)
    else
      var dev := Developer(updatedBy, picture);
      (dev, cache[key := dev])
  }

  /** Once cached, a contributor is reused unchanged, whatever name and picture later polls bring. */
  lemma ContributorIsStable(cache: Contributors, key: string, n1: Option<string>, p1: Option<string>,
                            n2: Option<string>, p2: Option<string>)
    ensures var first := ResolveContributor(cache, key, n1, p1);
            ResolveContributor(first.1, key, n2, p2) == (first.0, first.1)
  {
  }

  // ---------------------------------------------------------------------------
  // Hydrating one pipeline

  /** Everything one pipeline's resolution reads from outside during one poll. */
  datatype Poll = Poll(
    buildTypes: Fetch<BuildTypes>,
    buildQueue: Fetch<BuildQueue>,
    running: RunningBuilds,
    status: Fetch<StatusDoc>,
    elapsed: Option<int>,
    change: Option<ChangeDetail>,
    picture: Option<string>,
    award: string,
    berate: string)

  /** The process-wide state the handler keeps between polls. */
  datatype Engine = Engine(tracker: Tracker, contributors: Contributors, testModeLast: BuildStatus)

  /** The pipeline after one resolution, the state after it, and whether the resolution raised (and was logged). */
  datatype Hydration = Hydration(pipeline: Pipeline, engine: Engine, faulted: bool)

  /** All three throwing fetches returned. */
  predicate FetchesSucceeded(poll: Poll) {
    poll.buildTypes.Fetched? && poll.buildQueue.Fetched? && poll.status.Fetched?
  }

  /** The current-step label can be formed: the definition overrides it or the catalog knows the build type. */
  predicate HasStepLabel(p: Pipeline, poll: Poll)
    requires FetchesSucceeded(poll)
  {
    p.def.text.Some? || GetBuildTypeById(p.def.builderId, poll.buildTypes.doc).Some?
  }

  /** The primary status: a non-`None` override wins, otherwise it is resolved from the CI documents. */
  function PrimaryStatus(p: Pipeline, poll: Poll, override: BuildStatus): (s: BuildStatus)
    requires FetchesSucceeded(poll)
    ensures override != BuildStatus.None ==> s == override
    ensures override == BuildStatus.None ==> s == GetBuildStatusEnum(p.def.builderId, poll.running, poll.status.doc)
  {
    if override != BuildStatus.None then override
    else GetBuildStatusEnum(p.def.builderId, poll.running, poll.status.doc)
  }

  /**
    The branch before the prefix is removed, for a build that is not running: the document's
    branch name, "default" when it has none, and "unknown" without a document.
   */
  function DocumentBranch(doc: Option<StatusDoc>): (r: string)
    ensures doc.None? ==> r == "unknown"
    ensures doc.Some? && doc.value.branchName.None? ==> r == "default"
    ensures doc.Some? && doc.value.branchName.Some? ==> r == doc.value.branchName.value
  {
    match doc
    case None => "unknown"
    case Some(d) => d.branchName.GetOr("default")
  }

  /** The four stage statuses and their display classes, resolved from the same documents as the primary status. */
  function WithStages(q: Pipeline, running: RunningBuilds, doc: Option<StatusDoc>): (r: Pipeline)
    ensures r.def == q.def
    ensures r.StageStatus(QA) == StageStatusOf(q.def.StageId(QA), running, doc)
    ensures r.StageStatus(STG) == StageStatusOf(q.def.StageId(STG), running, doc)
    ensures r.StageStatus(RC) == StageStatusOf(q.def.StageId(RC), running, doc)
    ensures r.StageStatus(LIVE) == StageStatusOf(q.def.StageId(LIVE), running, doc)
    ensures forall st: Stage :: r.StageCssClass(st) == Some(EnvironmentCssClass(r.StageStatus(st)))
  {
    var qa := StageStatusOf(q.def.qaId, running, doc);
    var stg := StageStatusOf(q.def.stgId, running, doc);
    var rc := StageStatusOf(q.def.rcId, running, doc);
    var live := StageStatusOf(q.def.liveId, running, doc);
    q.(qaStatus := qa, stgStatus := stg, rcStatus := rc, liveStatus := live,
       qaCssClass := Some(EnvironmentCssClass(qa)),
       stgCssClass := Some(EnvironmentCssClass(stg)),
       rcCssClass := Some(EnvironmentCssClass(rc)),
       liveCssClass := Some(EnvironmentCssClass(live)))
  }

  /**
    `HydratePipeline`. An exception ends the resolution early and leaves every field not yet
    assigned as it was: a throwing fetch or a missing step label (the `null` dereference on
    `buildType.name`) before anything is assigned; a `Running` override for a build type with
    no running build at the running-build lookup; a status document without `lastChanges`
    at the contributor key. The tracker and the contributor cache are only written after the
    last of these points.
   */
  function HydratePipeline(p: Pipeline, poll: Poll, override: BuildStatus, e: Engine): (h: Hydration)
    ensures h.pipeline.def == p.def
    ensures h.faulted ==> h.engine == e
    ensures h.engine.testModeLast == e.testModeLast
    ensures !FetchesSucceeded(poll) ==> h == Hydration(p, e, true)
    ensures FetchesSucceeded(poll) && !HasStepLabel(p, poll) ==> h == Hydration(p, e, true)
    ensures forall k :: k in e.contributors ==> k in h.engine.contributors && h.engine.contributors[k] == e.contributors[k]
    ensures forall k :: k != p.def.builderId ==>
              (k in h.engine.tracker <==> k in e.tracker) && LastStatus(h.engine.tracker, k) == LastStatus(e.tracker, k)
  {
    if !FetchesSucceeded(poll) then Hydration(p, e, true)
    else
      var doc := poll.status.doc;
      var id := p.def.builderId;
      var buildType := GetBuildTypeById(id, poll.buildTypes.doc);
      if p.def.text.None? && buildType.None? then Hydration(p, e, true)
      else
        var status := PrimaryStatus(p, poll, override);
        var p1 := p.(
          currentStep := if p.def.text.Some? then p.def.text else buildType.value.name,
          builderStatus := status,
          branch := Some(DocumentBranch(doc)),
          updatedBy := GetUpdatedBy(doc, poll.change),
          lastRunText := Some(if doc.Some? then RelativeTime.LastRunText(poll.elapsed) else "unknown"),
          isQueued := IsBuildQueued(id, poll.buildQueue.doc));
        if status == Running && id !in poll.running then Hydration(p1, e, true)
        else
          var (rawBranch, progress) :=
            if status == Running then RunningBranchAndProgress(poll.running[id]) else (DocumentBranch(doc), "");
          var p2 := p1.(branch := Some(DisplayBranch(rawBranch)), progress := Some(progress));
          if doc.Some? && doc.value.lastChanges.None? then Hydration(p2, e, true)
          else
            var (dev, contributors) :=
              ResolveContributor(e.contributors, ContributorKey(doc), p1.updatedBy, poll.picture);
            var narrated := CreateBrokenBySpeech(e.tracker, id, dev.name, status, p.def.name, poll.award, poll.berate);
            var p3 := p2.(
              brokenByName := dev.name,
              brokenByPicData := dev.pictureData,
              showBroken := status == Failure,
              brokenBySpeech := Some(narrated.speech));
            Hydration(WithStages(p3, poll.running, doc), Engine(narrated.tracker, contributors, e.testModeLast), false)
  }

  /**
    Once the fetches returned and the step label exists, the headline fields are set from
    the documents whatever happens later in the resolution.
   */
  lemma HydratedHeadline(p: Pipeline, poll: Poll, override: BuildStatus, e: Engine)
    requires FetchesSucceeded(poll) && HasStepLabel(p, poll)
    ensures var q := HydratePipeline(p, poll, override, e).pipeline;
            && q.builderStatus == PrimaryStatus(p, poll, override)
            && q.currentStep == (if p.def.text.Some? then p.def.text
                                 else GetBuildTypeById(p.def.builderId, poll.buildTypes.doc).value.name)
            && q.isQueued == IsBuildQueued(p.def.builderId, poll.buildQueue.doc)
            && q.updatedBy == GetUpdatedBy(poll.status.doc, poll.change)
            && q.lastRunText == Some(if poll.status.doc.Some? then RelativeTime.LastRunText(poll.elapsed) else "unknown")
  {
  }

  /**
    The resolution runs to its end: the fetches returned, the step label exists, a `Running`
    status has a running build to read, and a status document lists its changes.
   */
  predicate Completes(p: Pipeline, poll: Poll, override: BuildStatus) {
    && FetchesSucceeded(poll) && HasStepLabel(p, poll)
    && (PrimaryStatus(p, poll, override) == Running ==> p.def.builderId in poll.running)
    && (poll.status.doc.Some? ==> poll.status.doc.value.lastChanges.Some?)
  }

  /** The resolution faults exactly when one of its four failure points is hit. */
  lemma FaultsExactlyWhenIncomplete(p: Pipeline, poll: Poll, override: BuildStatus, e: Engine)
    ensures HydratePipeline(p, poll, override, e).faulted <==> !Completes(p, poll, override)
  {
  }

  /** Without a `Running` override, the running-build lookup cannot fault: `Running` is only resolved for a running build. */
  lemma ResolvedRunningHasRunningBuild(p: Pipeline, poll: Poll, override: BuildStatus)
    requires FetchesSucceeded(poll) && override != Running
    ensures PrimaryStatus(p, poll, override) == Running ==> p.def.builderId in poll.running
  {
  }

  /** A completed resolution shows "broken" exactly for a `Failure`, and every stage shows its resolved status and that status's class. */
  lemma CompletedFlagsAndStages(p: Pipeline, poll: Poll, override: BuildStatus, e: Engine)
    requires Completes(p, poll, override)
    ensures var h := HydratePipeline(p, poll, override, e);
            var q := h.pipeline;
            && !h.faulted
            && (q.showBroken <==> q.builderStatus == Failure)
            && (forall st: Stage :: q.StageStatus(st) == StageStatusOf(p.def.StageId(st), poll.running, poll.status.doc)
                                    && q.StageCssClass(st) == Some(EnvironmentCssClass(q.StageStatus(st))))
  {
    var q := HydratePipeline(p, poll, override, e).pipeline;
    forall st: Stage ensures q.StageStatus(st) == StageStatusOf(p.def.StageId(st), poll.running, poll.status.doc) {
      match st
      case QA =>
      case STG =>
      case RC =>
      case LIVE =>
    }
  }

  /**
    A completed resolution shows a blank progress exactly when the build is not running,
    and the branch of the running build or of the status document with the prefix removed.
   */
  lemma CompletedBranchAndProgress(p: Pipeline, poll: Poll, override: BuildStatus, e: Engine)
    requires Completes(p, poll, override)
    ensures var q := HydratePipeline(p, poll, override, e).pipeline;
            && q.progress.Some? && (q.progress.value == "" <==> q.builderStatus != Running)
            && q.branch == Some(DisplayBranch(if q.builderStatus == Running then RunningBranchAndProgress(poll.running[p.def.builderId]).0
                                              else DocumentBranch(poll.status.doc)))
  {
  }

  /**
    A completed resolution shows the contributor cached under the contributor key; an entry
    already cached is reused as it was, and on a miss the attribution name and the fetched
    picture are shown and cached.
   */
  lemma CompletedContributor(p: Pipeline, poll: Poll, override: BuildStatus, e: Engine)
    requires Completes(p, poll, override)
    ensures var h := HydratePipeline(p, poll, override, e);
            var key := ContributorKey(poll.status.doc);
            && key in h.engine.contributors
            && h.engine.contributors[key] == Developer(h.pipeline.brokenByName, h.pipeline.brokenByPicData)
            && (key in e.contributors ==> h.engine.contributors[key] == e.contributors[key])
            && (key !in e.contributors ==>
                  && h.pipeline.brokenByName == GetUpdatedBy(poll.status.doc, poll.change)
                  && h.pipeline.brokenByPicData == poll.picture)
  {
  }

  /**
    A completed resolution speaks exactly at a Success/Failure edge against the status recorded
    before this poll, and records the new status unless the build is running.
   */
  lemma CompletedNarrative(p: Pipeline, poll: Poll, override: BuildStatus, e: Engine)
    requires Completes(p, poll, override)
    ensures var h := HydratePipeline(p, poll, override, e);
            var id := p.def.builderId;
            var status := h.pipeline.builderStatus;
            && h.pipeline.brokenBySpeech.Some?
            && (h.pipeline.brokenBySpeech.value != "" <==> Announces(LastStatus(e.tracker, id), status))
            && (Breaks(LastStatus(e.tracker, id), status) ==>
                  h.pipeline.brokenBySpeech.value == BrokeSpeech(h.pipeline.brokenByName, p.def.name, poll.berate))
            && (Fixes(LastStatus(e.tracker, id), status) ==>
                  h.pipeline.brokenBySpeech.value == FixedSpeech(h.pipeline.brokenByName, p.def.name, poll.award))
            && LastStatus(h.engine.tracker, id) == (if status == Running then LastStatus(e.tracker, id) else status)
  {
  }

  /**
    A build type that was green and now reports FAILURE, with a prefixed branch and no stage
    ids configured: the pipeline is shown broken on the plain branch name, the "broke"
    speech is produced, and every stage is hidden.
   */
  lemma BrokenBuildScenario(p: Pipeline, poll: Poll, e: Engine, branch: string)
    requires FetchesSucceeded(poll) && HasStepLabel(p, poll)
    requires p.def.builderId !in poll.running
    requires poll.status.doc.Some? && poll.status.doc.value.status == Some("FAILURE")
    requires poll.status.doc.value.lastChanges.Some?
    requires poll.status.doc.value.branchName == Some(BranchPrefix + branch) && !Occurs(BranchPrefix, branch)
    requires LastStatus(e.tracker, p.def.builderId) == Success
    requires forall st: Stage :: p.def.StageId(st).None?
    ensures var h := HydratePipeline(p, poll, BuildStatus.None, e);
            var q := h.pipeline;
            && !h.faulted
            && q.builderStatus == Failure && q.showBroken
            && q.branch == Some(branch)
            && q.brokenBySpeech == Some(BrokeSpeech(q.brokenByName, p.def.name, poll.berate))
            && (forall st: Stage :: q.StageStatus(st) == BuildStatus.None && q.StageCssClass(st) == Some("env-status-hide"))
            && LastStatus(h.engine.tracker, p.def.builderId) == Failure
  {
    HydratedHeadline(p, poll, BuildStatus.None, e);
    assert Completes(p, poll, BuildStatus.None);
    CompletedFlagsAndStages(p, poll, BuildStatus.None, e);
    CompletedBranchAndProgress(p, poll, BuildStatus.None, e);
    CompletedNarrative(p, poll, BuildStatus.None, e);
    PrefixStrippedOnce(branch);
  }

  /**
    The same failing build type, but its status document carries no `lastChanges`: the
    contributor key dereferences the missing list and the resolution faults after the
    headline and the branch are set. The pipeline is not marked broken by this poll, no
    speech is produced, and the tracker still holds Success.
   */
  lemma BrokenBuildWithoutChangesScenario(p: Pipeline, poll: Poll, e: Engine, branch: string)
    requires FetchesSucceeded(poll) && HasStepLabel(p, poll)
    requires p.def.builderId !in poll.running
    requires poll.status.doc.Some? && poll.status.doc.value.status == Some("FAILURE")
    requires poll.status.doc.value.lastChanges.None?
    requires poll.status.doc.value.branchName == Some(BranchPrefix + branch) && !Occurs(BranchPrefix, branch)
    requires LastStatus(e.tracker, p.def.builderId) == Success
    ensures var h := HydratePipeline(p, poll, BuildStatus.None, e);
            var q := h.pipeline;
            && h.faulted
            && q.builderStatus == Failure
            && q.branch == Some(branch)
            && q.showBroken == p.showBroken
            && q.brokenBySpeech == p.brokenBySpeech
            && (forall st: Stage :: q.StageStatus(st) == p.StageStatus(st))
            && h.engine == e
            && LastStatus(h.engine.tracker, p.def.builderId) == Success
  {
    HydratedHeadline(p, poll, BuildStatus.None, e);
    assert PrimaryStatus(p, poll, BuildStatus.None) == Failure;
    assert DocumentBranch(poll.status.doc) == BranchPrefix + branch;
    PrefixStrippedOnce(branch);
  }

  // ---------------------------------------------------------------------------
  // One poll over all pipelines

  /** The build type id the development host alternates between success and failure. */
  const TestBuilderId := "Put a builder id here for testing"

  /** The request's host name contains "localhost". */
  function IsDevelopmentHost(host: string): (r: bool)
    ensures r <==> exists i :: 0 <= i <= |host| && "localhost" <= host[i..]
  {
    OccursAtSomePosition("localhost", host);
    Occurs("localhost", host)
  }

  /**
    The test-mode override for one pipeline and the override to remember: on the development
    host the test build type flips between Success and Failure on every poll; elsewhere no override.
   */
  function TestModeOverride(host: string, builderId: string, last: BuildStatus): (r: (BuildStatus, BuildStatus))
    ensures !(IsDevelopmentHost(host) && builderId == TestBuilderId) ==> r == (BuildStatus.None, last)
    ensures IsDevelopmentHost(host) && builderId == TestBuilderId ==>
              && r.0 == r.1 && (r.0 == Success || r.0 == Failure)
              && (r.0 == Failure <==> last == Success)
  {
    if IsDevelopmentHost(host) && builderId == TestBuilderId then
      var next := if last == Success then Failure else Success;
      (next, next)
    else (BuildStatus.None, last)
  }

  /** `t1` and `t2` agree on build type `k`. */
  predicate SameEntry(t1: Tracker, t2: Tracker, k: string) {
    (k in t1 <==> k in t2) && LastStatus(t1, k) == LastStatus(t2, k)
  }

  /** None of the first `n` pipelines is for build type `k`. */
  predicate Untouched(pipelines: seq<Pipeline>, n: nat, k: string)
    requires n <= |pipelines|
  {
    forall j :: 0 <= j < n ==> pipelines[j].def.builderId != k
  }

  /**
    What one iteration guarantees about the pipeline it returns: the definition is kept, a
    failing fetch leaves the pipeline as it was, and off the development host the primary
    status is the one the documents give.
   */
  predicate StepOutcome(p: Pipeline, poll: Poll, host: string, q: Pipeline) {
    && q.def == p.def
    && (!FetchesSucceeded(poll) ==> q == p)
    && (!IsDevelopmentHost(host) && FetchesSucceeded(poll) && HasStepLabel(p, poll) ==>
          q.builderStatus == GetBuildStatusEnum(p.def.builderId, poll.running, poll.status.doc))
  }

  /** One iteration of `GetModelAsync`: the test-mode toggle, then the resolution. */
  function PollStep(p: Pipeline, poll: Poll, host: string, e: Engine): (h: Hydration)
    ensures StepOutcome(p, poll, host, h.pipeline)
    ensures !IsDevelopmentHost(host) ==> h.engine.testModeLast == e.testModeLast
    ensures forall k :: k in e.contributors ==> k in h.engine.contributors && h.engine.contributors[k] == e.contributors[k]
    ensures forall k :: k != p.def.builderId ==> SameEntry(h.engine.tracker, e.tracker, k)
    ensures h.engine.testModeLast == TestModeOverride(host, p.def.builderId, e.testModeLast).1
    ensures FetchesSucceeded(poll) && HasStepLabel(p, poll) ==>
              h.pipeline.builderStatus == PrimaryStatus(p, poll, TestModeOverride(host, p.def.builderId, e.testModeLast).0)
  {
    var toggled := TestModeOverride(host, p.def.builderId, e.testModeLast);
    var e' := e.(testModeLast := toggled.1);
    var h := HydratePipeline(p, poll, toggled.0, e');
    if FetchesSucceeded(poll) && HasStepLabel(p, poll) then
      HydratedHeadline(p, poll, toggled.0, e');
      h
    else h
  }

  /**
    With no running build in the poll, a step never reports `Running` and never shows
    progress: the pipeline is either left as it was or resolved to a settled status with a
    blank progress. The running-builds fetch as written always yields an empty map.
   */
  lemma NoRunningBuildsNoProgress(p: Pipeline, poll: Poll, host: string, e: Engine)
    requires poll.running == map[]
    ensures var q := PollStep(p, poll, host, e).pipeline;
            q == p || (q.builderStatus != Running && q.progress == Some(""))
  {
    var toggled := TestModeOverride(host, p.def.builderId, e.testModeLast);
    NoRunningBuildsHydration(p, poll, toggled.0, e.(testModeLast := toggled.1));
  }

  /** `NoRunningBuildsNoProgress` for one resolution under an override that is not `Running`. */
  lemma NoRunningBuildsHydration(p: Pipeline, poll: Poll, override: BuildStatus, e: Engine)
    requires poll.running == map[] && override != Running
    ensures var q := HydratePipeline(p, poll, override, e).pipeline;
            q == p || (q.builderStatus != Running && q.progress == Some(""))
  {
  }

  /**
    The pipelines of one poll resolved left to right, each `PollStep` starting from the
    engine the previous one left: the resolved pipelines and the final engine.
   */
  function Run(pipelines: seq<Pipeline>, polls: seq<Poll>, host: string, e: Engine): (r: (seq<Pipeline>, Engine))
    requires |polls| == |pipelines|
    ensures |r.0| == |pipelines|
    decreases |pipelines|
  {
    if pipelines == [] then ([], e)
    else
      var n := |pipelines| - 1;
      var prev := Run(pipelines[..n], polls[..n], host, e);
      var h := PollStep(pipelines[n], polls[n], host, prev.1);
      (prev.0 + [h.pipeline], h.engine)
  }

  /** A run over the first `m` pipelines returns the first `m` pipelines of the whole run. */
  lemma {:induction false} RunPrefix(pipelines: seq<Pipeline>, polls: seq<Poll>, host: string, e: Engine, m: nat)
    requires |polls| == |pipelines| && m <= |pipelines|
    ensures Run(pipelines[..m], polls[..m], host, e).0 == Run(pipelines, polls, host, e).0[..m]
    decreases |pipelines|
  {
    if m < |pipelines| {
      var n := |pipelines| - 1;
      var prev := Run(pipelines[..n], polls[..n], host, e);
      RunPrefix(pipelines[..n], polls[..n], host, e, m);
      assert pipelines[..n][..m] == pipelines[..m] && polls[..n][..m] == polls[..m];
      assert Run(pipelines, polls, host, e).0[..n] == prev.0;
    } else {
      assert pipelines[..m] == pipelines && polls[..m] == polls;
    }
  }

  /** Pipeline `i` of a run is resolved by its own step, from the engine the first `i` pipelines left. */
  lemma RunAt(pipelines: seq<Pipeline>, polls: seq<Poll>, host: string, e: Engine, i: nat)
    requires |polls| == |pipelines| && i < |pipelines|
    ensures Run(pipelines, polls, host, e).0[i]
            == PollStep(pipelines[i], polls[i], host, Run(pipelines[..i], polls[..i], host, e).1).pipeline
  {
    var whole := Run(pipelines, polls, host, e).0;
    var prev := Run(pipelines[..i], polls[..i], host, e);
    var h := PollStep(pipelines[i], polls[i], host, prev.1);
    RunPrefix(pipelines, polls, host, e, i + 1);
    RunStep(pipelines, polls, host, e, i);
    assert whole[..i + 1] == prev.0 + [h.pipeline];
    assert whole[i] == whole[..i + 1][i];
  }

  /** Every pipeline a run returns is the outcome of its own step. */
  lemma RunStepOutcomes(pipelines: seq<Pipeline>, polls: seq<Poll>, host: string, e: Engine)
    requires |polls| == |pipelines|
    ensures var r := Run(pipelines, polls, host, e);
            forall i :: 0 <= i < |r.0| ==> StepOutcome(pipelines[i], polls[i], host, r.0[i])
  {
    forall i | 0 <= i < |pipelines|
      ensures StepOutcome(pipelines[i], polls[i], host, Run(pipelines, polls, host, e).0[i])
    {
      RunAt(pipelines, polls, host, e, i);
    }
  }

  /**
    A run keeps the test-mode toggle off the development host, keeps every cached
    contributor, and leaves the tracker entry of every build type no pipeline is for.
   */
  lemma {:induction false} RunFrames(pipelines: seq<Pipeline>, polls: seq<Poll>, host: string, e: Engine)
    requires |polls| == |pipelines|
    ensures var r := Run(pipelines, polls, host, e);
            && (!IsDevelopmentHost(host) ==> r.1.testModeLast == e.testModeLast)
            && (forall k :: k in e.contributors ==> k in r.1.contributors && r.1.contributors[k] == e.contributors[k])
            && (forall k :: Untouched(pipelines, |pipelines|, k) ==> SameEntry(r.1.tracker, e.tracker, k))
    decreases |pipelines|
  {
    if pipelines != [] {
      var n := |pipelines| - 1;
      var prev := Run(pipelines[..n], polls[..n], host, e);
      var h := PollStep(pipelines[n], polls[n], host, prev.1);
      assert Run(pipelines, polls, host, e).1 == h.engine;
      RunFrames(pipelines[..n], polls[..n], host, e);
      forall k | Untouched(pipelines, |pipelines|, k)
        ensures SameEntry(h.engine.tracker, e.tracker, k)
      {
        assert Untouched(pipelines[..n], n, k);
        assert pipelines[n].def.builderId != k;
      }
    }
  }

  /** Running one more pipeline is one more `PollStep` from the engine the shorter run left. */
  lemma RunStep(pipelines: seq<Pipeline>, polls: seq<Poll>, host: string, e: Engine, i: nat)
    requires |polls| == |pipelines| && i < |pipelines|
    ensures var prev := Run(pipelines[..i], polls[..i], host, e);
            var h := PollStep(pipelines[i], polls[i], host, prev.1);
            Run(pipelines[..i + 1], polls[..i + 1], host, e) == (prev.0 + [h.pipeline], h.engine)
  {
    assert pipelines[..i + 1][..i] == pipelines[..i] && polls[..i + 1][..i] == polls[..i];
  }

  /**
    Two neighbouring pipelines of one poll for the same build type, both completing and both
    failing, off the development host: the second is narrated against the Failure the first
    recorded, so it stays silent, and only the first can announce the break.
   */
  lemma SharedBuildTypeAnnouncesOnce(pipelines: seq<Pipeline>, polls: seq<Poll>, host: string, e: Engine, i: nat)
    requires |polls| == |pipelines| && i + 1 < |pipelines|
    requires !IsDevelopmentHost(host) && pipelines[i].def.builderId == pipelines[i + 1].def.builderId
    requires Completes(pipelines[i], polls[i], BuildStatus.None)
    requires Completes(pipelines[i + 1], polls[i + 1], BuildStatus.None)
    requires GetBuildStatusEnum(pipelines[i].def.builderId, polls[i].running, polls[i].status.doc) == Failure
    requires GetBuildStatusEnum(pipelines[i + 1].def.builderId, polls[i + 1].running, polls[i + 1].status.doc) == Failure
    ensures var r := Run(pipelines, polls, host, e);
            var id := pipelines[i].def.builderId;
            && r.0[i + 1].brokenBySpeech == Some("")
            && (LastStatus(Run(pipelines[..i], polls[..i], host, e).1.tracker, id) == Success
                <==> r.0[i].brokenBySpeech != Some(""))
            && LastStatus(Run(pipelines[..i + 2], polls[..i + 2], host, e).1.tracker, id) == Failure
  {
    var before := Run(pipelines[..i], polls[..i], host, e).1;
    var s1 := PollStep(pipelines[i], polls[i], host, before);
    RunAt(pipelines, polls, host, e, i);
    RunStep(pipelines, polls, host, e, i);
    assert Run(pipelines[..i + 1], polls[..i + 1], host, e).1 == s1.engine;
    RunAt(pipelines, polls, host, e, i + 1);
    RunStep(pipelines, polls, host, e, i + 1);
    SharedBuildTypeSteps(pipelines[i], pipelines[i + 1], polls[i], polls[i + 1], host, before);
  }

  /** The steps behind `SharedBuildTypeAnnouncesOnce`, one after the other. */
  lemma SharedBuildTypeSteps(p1: Pipeline, p2: Pipeline, poll1: Poll, poll2: Poll, host: string, e: Engine)
    requires !IsDevelopmentHost(host) && p1.def.builderId == p2.def.builderId
    requires Completes(p1, poll1, BuildStatus.None) && Completes(p2, poll2, BuildStatus.None)
    requires GetBuildStatusEnum(p1.def.builderId, poll1.running, poll1.status.doc) == Failure
    requires GetBuildStatusEnum(p2.def.builderId, poll2.running, poll2.status.doc) == Failure
    ensures var s1 := PollStep(p1, poll1, host, e);
            var s2 := PollStep(p2, poll2, host, s1.engine);
            && s2.pipeline.brokenBySpeech == Some("")
            && (LastStatus(e.tracker, p1.def.builderId) == Success <==> s1.pipeline.brokenBySpeech != Some(""))
            && LastStatus(s2.engine.tracker, p1.def.builderId) == Failure
  {
    var h1 := HydratePipeline(p1, poll1, BuildStatus.None, e);
    CompletedNarrative(p1, poll1, BuildStatus.None, e);
    HydratedHeadline(p1, poll1, BuildStatus.None, e);
    assert PollStep(p1, poll1, host, e) == h1;
    var h2 := HydratePipeline(p2, poll2, BuildStatus.None, h1.engine);
    CompletedNarrative(p2, poll2, BuildStatus.None, h1.engine);
    HydratedHeadline(p2, poll2, BuildStatus.None, h1.engine);
    assert PollStep(p2, poll2, host, h1.engine) == h2;
  }

  /**
    `GetModelAsync`: resolves every configured pipeline in order, threading the tracker, the
    contributor cache and the test-mode toggle through. A pipeline whose resolution faults is
    returned as far as it got and does not disturb the others.
   */
  method GetModel(pipelines: seq<Pipeline>, polls: seq<Poll>, host: string, e: Engine)
    returns (model: seq<Pipeline>, after: Engine)
    requires |polls| == |pipelines|
    ensures (model, after) == Run(pipelines, polls, host, e)
    ensures |model| == |pipelines|
    ensures forall i :: 0 <= i < |model| ==> StepOutcome(pipelines[i], polls[i], host, model[i])
    ensures !IsDevelopmentHost(host) ==> after.testModeLast == e.testModeLast
    ensures forall k :: k in e.contributors ==> k in after.contributors && after.contributors[k] == e.contributors[k]
    ensures forall k :: Untouched(pipelines, |pipelines|, k) ==> SameEntry(after.tracker, e.tracker, k)
  {
    model := [];
    after := e;
    var i := 0;
    while i < |pipelines|
      invariant 0 <= i <= |pipelines|
      invariant (model, after) == Run(pipelines[..i], polls[..i], host, e)
    {
      var h := PollStep(pipelines[i], polls[i], host, after);
      RunStep(pipelines, polls, host, e, i);
      model := model + [h.pipeline];
      after := h.engine;
      i := i + 1;
    }
    assert pipelines[..i] == pipelines && polls[..i] == polls;
    RunStepOutcomes(pipelines, polls, host, e);
    RunFrames(pipelines, polls, host, e);
  }
}
