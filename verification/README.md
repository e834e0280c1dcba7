# TeamCity build monitor: status aggregation engine

A Dafny model of the core of a TeamCity wall dashboard. On every poll the model handler
resolves each configured pipeline from the CI server's documents. It works out the primary
status and the four stage statuses (QA, STG, RC, LIVE) and their display classes, plus the
branch and the progress of a running build. It also finds who triggered the build, how long
ago it ran, the contributor shown next to it, and the spoken announcement when a build
breaks or is fixed.

The model covers:

- the `StatusText` label of a pipeline;
- the order in which the controller shows pipelines: broken first, then by name, with a
  stable sort.

The model is functional:

- Every document the handler fetches is an input, and so is everything clock- or
  randomness-dependent: the age of the last run in seconds, the fetched commit detail,
  the directory picture, and the narrative endings.
- The process-wide state is threaded through as an `Engine` value. It holds the
  last-status tracker, the contributor cache and the test-mode toggle.
- C# `null` and absent JSON properties are `Option.None`.
- An exception inside the resolution is a `faulted` flag. The pipeline keeps whatever
  fields were assigned before the exception.

Modules:

- `Wrappers`: `Option`.
- `Text`: `IsNullOrWhiteSpace`, `string.Replace`, `int.ToString`, ordinal string order.
- `Pipelines`: the status enum, the pipeline record, `StatusText`.
- `CiDocuments`: typed views of the JSON documents.
- `Transitions`: the `LastBuildStatus` tracker and `CreateBrokenBySpeech`.
- `RelativeTime`: `GetLastRunText`.
- `ModelHandler`: the remainder of the handler.
- `HomeController`: `SortPipelines`.

Four behaviours of the handler are easy to miss. Line numbers below refer to
`TeamCityBuildMonitor/Helpers/DefaultBuildMonitorModelHandler.cs`.

- A build exactly 90 minutes old reads "1 hours ago", not "an hour ago". Line 497 tests
  `delta < 90 * minute`, so 90 minutes falls into the hours bucket
  (`RelativeTime.NinetyMinutesBoundary`).
- The branch prefix `refs/heads/` is removed wherever it occurs, not only once at the
  start. Line 130 calls `string.Replace`, which replaces every occurrence
  (`ModelHandler.PrefixRemovedWherever`, `ModelHandler.DoublePrefixStripped`).
- A status document without `lastChanges` makes the resolution fault. Line 134 reads
  `lastChanges.count` without a null check, unlike line 354. The pipeline then keeps its
  old broken flag, speech and stage statuses, and the tracker is not updated
  (`ModelHandler.BrokenBuildWithoutChangesScenario`).
- As written, the running-builds map is always empty. Line 433 fetches the feed through
  `GetJsonAsync<dynamic>`, which returns an already parsed JSON object. Line 435 then passes
  that object to `JsonConvert.DeserializeObject<dynamic>`, which takes a string, and the
  call fails at run time. The catch at lines 455-458 logs the error and the method returns
  the empty map. So no pipeline is ever Running, its progress is always blank, and
  `GetRunningBuildBranchAndProgress` (lines 463-476) is never reached. The model takes the
  running builds as an input, so it covers both the empty map the code yields and the
  filled map evidently intended (`ModelHandler.NoRunningBuildsNoProgress`).

## Model

| member | source | states |
|---|---|---|
| Pipelines.StatusTextOf | TeamCityBuildMonitor/Models/Home/Pipeline.cs:43-65 | "OK" exactly for Success, "FAIL" exactly for Failure, "RUNNING" exactly for Running, "ERROR" exactly for Error, "UNKNOWN" exactly for None |
| Pipelines.StatusTextRoundTrip | TeamCityBuildMonitor/Models/Home/Pipeline.cs:43-65 | the label identifies the status: every status's label reads back as that status, and a text reads back as a status exactly when it is that status's label |
| ModelHandler.GetBuildStatusEnum | TeamCityBuildMonitor/Helpers/DefaultBuildMonitorModelHandler.cs:283-303 | Running exactly when the build type has a running build; otherwise a missing document gives None, each terminal status is returned exactly when the document's status string is its TeamCity name, and None exactly when nothing is running and the document is missing or its string is unrecognised |
| ModelHandler.StatusNameRoundTrip | TeamCityBuildMonitor/Helpers/DefaultBuildMonitorModelHandler.cs:292-302 | each terminal status is recovered from the TeamCity status string for it, whatever else the document holds |
| ModelHandler.StageStatusOf | TeamCityBuildMonitor/Helpers/DefaultBuildMonitorModelHandler.cs:175-178 | a blank stage id is None; any other stage id resolves exactly as the primary build type would |
| ModelHandler.EnvironmentCssClass | TeamCityBuildMonitor/Helpers/DefaultBuildMonitorModelHandler.cs:258-274 | each class is produced exactly for its statuses: ok for Success, broken for Failure or Error, running for Running, hide for None |
| ModelHandler.ScanLimit | TeamCityBuildMonitor/Helpers/DefaultBuildMonitorModelHandler.cs:311-320 | a counted scan reads exactly `count` entries when `count` is within the array, the whole array when `count` exceeds it (the indexer throws past the end and the scan ends "not found"), and nothing when `count` is negative |
| ModelHandler.FindBuildType | TeamCityBuildMonitor/Helpers/DefaultBuildMonitorModelHandler.cs:313-315 | absent exactly when no entry has the id; otherwise the entry returned is the first one with the id |
| ModelHandler.GetBuildTypeById | TeamCityBuildMonitor/Helpers/DefaultBuildMonitorModelHandler.cs:305-323 | a build type is found exactly when the id is not blank, the catalog and its count are present, and an entry the scan reaches has the id; the entry returned is the first one with the id within the scan |
| ModelHandler.IsQueuedEntry | TeamCityBuildMonitor/Helpers/DefaultBuildMonitorModelHandler.cs:333 | an entry counts exactly when it is for this build type and its state is "queued"; an entry missing either attribute never counts |
| ModelHandler.AnyQueued | TeamCityBuildMonitor/Helpers/DefaultBuildMonitorModelHandler.cs:330-335 | true exactly when some entry is for the build type and in state "queued" |
| ModelHandler.IsBuildQueued | TeamCityBuildMonitor/Helpers/DefaultBuildMonitorModelHandler.cs:325-343 | true exactly when the queue and its count are present and an entry the scan reaches is queued for the build type; a missing queue or count answers false |
| ModelHandler.GetUpdatedBy | TeamCityBuildMonitor/Helpers/DefaultBuildMonitorModelHandler.cs:345-371 | no document or trigger gives "Unknown"; a user trigger gives that user's name ("Unknown" without a user); a VCS trigger with listed changes gives the commit author ("Unknown" without one); an "unknown" trigger gives "TeamCity"; every other trigger kind, and a VCS trigger without listed changes, gives "Unknown"; a null name only from a user or commit author |
| ModelHandler.UpdatedByIgnoresCommitUnlessConsulted | TeamCityBuildMonitor/Helpers/DefaultBuildMonitorModelHandler.cs:354-361 | the commit detail affects the result only for a VCS-triggered build that lists changes |
| ModelHandler.RunningBranchAndProgress | TeamCityBuildMonitor/Helpers/DefaultBuildMonitorModelHandler.cs:463-476 | the progress is never blank; the branch defaults to "default" and the progress to "0", and an unreadable detail gives both defaults |
| ModelHandler.DisplayBranch | TeamCityBuildMonitor/Helpers/DefaultBuildMonitorModelHandler.cs:130 | the displayed branch is never longer than the raw one and equals it when the prefix does not occur |
| ModelHandler.PrefixRemovedWherever | TeamCityBuildMonitor/Helpers/DefaultBuildMonitorModelHandler.cs:130 | a prefix anywhere in the raw branch is removed, the text before its first occurrence is kept and the rest is cleaned in turn |
| ModelHandler.PrefixStrippedOnce | TeamCityBuildMonitor/Helpers/DefaultBuildMonitorModelHandler.cs:130 | a single leading `refs/heads/` is removed and the rest of the name is kept |
| ModelHandler.DoublePrefixStripped | TeamCityBuildMonitor/Helpers/DefaultBuildMonitorModelHandler.cs:130 | two leading copies of the prefix are both removed, as `Replace` removes every occurrence |
| ModelHandler.ContributorKey | TeamCityBuildMonitor/Helpers/DefaultBuildMonitorModelHandler.cs:133-137 | the first listed change's username at the directory domain, or the default user when no change is listed or there is no document |
| ModelHandler.ResolveContributor | TeamCityBuildMonitor/Helpers/DefaultBuildMonitorModelHandler.cs:139-158 | the contributor used is the one cached under the key; other entries are kept; only the key is added; on a miss the attribution name and the fetched picture are cached |
| ModelHandler.ContributorIsStable | TeamCityBuildMonitor/Helpers/DefaultBuildMonitorModelHandler.cs:139-145 | once cached, a contributor is reused unchanged whatever name and picture later polls bring |
| ModelHandler.PrimaryStatus | TeamCityBuildMonitor/Helpers/DefaultBuildMonitorModelHandler.cs:113 | an override other than None wins; otherwise the status is resolved from the documents |
| ModelHandler.DocumentBranch | TeamCityBuildMonitor/Helpers/DefaultBuildMonitorModelHandler.cs:114 | without a document the branch is "unknown"; a document without a branch gives "default"; otherwise the document's branch name |
| ModelHandler.WithStages | TeamCityBuildMonitor/Helpers/DefaultBuildMonitorModelHandler.cs:175-183 | every stage shows the status resolved from its own id and the class of that status |
| ModelHandler.HydratePipeline | TeamCityBuildMonitor/Helpers/DefaultBuildMonitorModelHandler.cs:97-189 | the definition is kept; a fault leaves tracker and cache untouched; a throwing fetch or a missing step label leaves the pipeline as it was; cached contributors survive; other build types' tracker entries are unchanged |
| ModelHandler.HydratedHeadline | TeamCityBuildMonitor/Helpers/DefaultBuildMonitorModelHandler.cs:111-117 | once the fetches return and a step label exists, step label, primary status, queued flag, attribution and age text are set from the documents whatever fails later |
| ModelHandler.FaultsExactlyWhenIncomplete | TeamCityBuildMonitor/Helpers/DefaultBuildMonitorModelHandler.cs:97-189 | a resolution faults exactly when a fetch throws, the step label is missing, a Running status has no running build, or the status document has no `lastChanges` |
| ModelHandler.ResolvedRunningHasRunningBuild | TeamCityBuildMonitor/Helpers/DefaultBuildMonitorModelHandler.cs:113-121 | without a Running override, the running-build lookup cannot fail |
| ModelHandler.CompletedFlagsAndStages | TeamCityBuildMonitor/Helpers/DefaultBuildMonitorModelHandler.cs:160-183 | a completed resolution shows broken exactly for Failure, and each stage its resolved status and that status's class |
| ModelHandler.CompletedBranchAndProgress | TeamCityBuildMonitor/Helpers/DefaultBuildMonitorModelHandler.cs:119-130 | progress is blank exactly when the build is not running; the branch is the running build's or the document's, with the prefix removed |
| ModelHandler.CompletedContributor | TeamCityBuildMonitor/Helpers/DefaultBuildMonitorModelHandler.cs:133-158 | the contributor shown is the one cached under the contributor key; an already cached one is reused as it was; on a miss the attribution name and the fetched picture are shown and cached |
| ModelHandler.CompletedNarrative | TeamCityBuildMonitor/Helpers/DefaultBuildMonitorModelHandler.cs:173 | a speech is produced exactly at a Success/Failure edge against the status recorded before the poll, with the "broke" or "fixed" wording naming the contributor shown; the new status is recorded unless running |
| ModelHandler.BrokenBuildScenario | TeamCityBuildMonitor/Helpers/DefaultBuildMonitorModelHandler.cs:97-189 | a green build type that now fails, on a prefixed branch, with no stages: shown broken on the plain branch name, the "broke" speech, every stage hidden, Failure recorded |
| ModelHandler.BrokenBuildWithoutChangesScenario | TeamCityBuildMonitor/Helpers/DefaultBuildMonitorModelHandler.cs:97-189 | the same failing build type with no `lastChanges` in its document: the resolution faults after the headline and branch are set, the pipeline keeps its old broken flag, speech and stages, and the tracker still holds Success |
| ModelHandler.TestModeOverride | TeamCityBuildMonitor/Helpers/DefaultBuildMonitorModelHandler.cs:77-86 | no override off the development host or for other build types; on it the test build type alternates Success and Failure, Failure exactly after Success, and the toggle remembers it |
| ModelHandler.IsDevelopmentHost | TeamCityBuildMonitor/Helpers/DefaultBuildMonitorModelHandler.cs:82 | the host counts as the development host exactly when "localhost" appears somewhere in it |
| ModelHandler.PollStep | TeamCityBuildMonitor/Helpers/DefaultBuildMonitorModelHandler.cs:77-89 | one iteration keeps the definition, leaves a pipeline with a failing fetch untouched, stores the toggle `TestModeOverride` gives (even when the resolution then faults) and resolves a pipeline with a step label to the status that override gives, so off the development host the documents' status; it keeps cached contributors and other build types' tracker entries |
| ModelHandler.Run | TeamCityBuildMonitor/Helpers/DefaultBuildMonitorModelHandler.cs:73-93 | the fold yields one pipeline per pipeline configured |
| ModelHandler.NoRunningBuildsNoProgress | TeamCityBuildMonitor/Helpers/DefaultBuildMonitorModelHandler.cs:426-461 | with an empty running-builds map, as the fetch yields as written, a step either leaves the pipeline as it was or gives it a status other than Running and a blank progress |
| ModelHandler.NoRunningBuildsHydration | TeamCityBuildMonitor/Helpers/DefaultBuildMonitorModelHandler.cs:97-130 | the same for one resolution under any override other than Running |
| ModelHandler.RunPrefix | TeamCityBuildMonitor/Helpers/DefaultBuildMonitorModelHandler.cs:73-93 | the pipelines resolved for the first m entries do not depend on the entries after them |
| ModelHandler.RunAt | TeamCityBuildMonitor/Helpers/DefaultBuildMonitorModelHandler.cs:77-89 | pipeline i of the poll is its own `PollStep` taken from the engine left by pipelines 0 to i-1 |
| ModelHandler.RunStepOutcomes | TeamCityBuildMonitor/Helpers/DefaultBuildMonitorModelHandler.cs:77-89 | every pipeline returned is the outcome of its own step: definition kept, untouched on a failed fetch, the documents' status off the development host |
| ModelHandler.RunFrames | TeamCityBuildMonitor/Helpers/DefaultBuildMonitorModelHandler.cs:73-93 | over the whole poll the test-mode toggle is kept off the development host, cached contributors survive, and build types no pipeline is for keep their tracker entry |
| ModelHandler.SharedBuildTypeAnnouncesOnce | TeamCityBuildMonitor/Helpers/DefaultBuildMonitorModelHandler.cs:173 | two neighbouring pipelines for one build type, both completing with Failure off the development host: the second says nothing, the first speaks exactly when the tracker held Success before it, and Failure is recorded after both |
| ModelHandler.SharedBuildTypeSteps | TeamCityBuildMonitor/Helpers/DefaultBuildMonitorModelHandler.cs:197-214 | the same two pipelines as two consecutive steps, the second taken from the engine the first left |
| ModelHandler.GetModel | TeamCityBuildMonitor/Helpers/DefaultBuildMonitorModelHandler.cs:73-93 | the pipelines returned and the engine left are exactly the left-to-right run of `PollStep` over the configured pipelines; so one pipeline out per pipeline in, in order, each the outcome of its own step; off the development host the test-mode flag is kept; cached contributors survive; build types not configured keep their tracker entries |
| Transitions.LastStatus | TeamCityBuildMonitor/Helpers/DefaultBuildMonitorModelHandler.cs:201 | the recorded status, or None for a build type never recorded |
| Transitions.FixedSpeech | TeamCityBuildMonitor/Helpers/DefaultBuildMonitorModelHandler.cs:206 | the "fixed" announcement starts with "Attention. ", the developer's name (empty when null) and "fixed the" |
| Transitions.BrokeSpeech | TeamCityBuildMonitor/Helpers/DefaultBuildMonitorModelHandler.cs:211 | the "broke" announcement starts with "Attention. ", the developer's name (empty when null) and "broke the" |
| Transitions.FixedIsNeverBroke | TeamCityBuildMonitor/Helpers/DefaultBuildMonitorModelHandler.cs:204-212 | for one developer, a "fixed" announcement never equals a "broke" one, whatever the pipelines and endings |
| Transitions.CreateBrokenBySpeech | TeamCityBuildMonitor/Helpers/DefaultBuildMonitorModelHandler.cs:197-217 | a running build says nothing and records nothing; otherwise the status is recorded, and a speech is produced exactly at a Failure-to-Success ("fixed") or Success-to-Failure ("broke") edge |
| Transitions.SecondCallIsSilent | TeamCityBuildMonitor/Helpers/DefaultBuildMonitorModelHandler.cs:197-217 | reporting the same status twice in a row announces nothing the second time |
| Transitions.ReplayTracksSettledHistory | TeamCityBuildMonitor/Helpers/DefaultBuildMonitorModelHandler.cs:197-217 | over any run of polls the tracker ends holding the last non-running status, other build types are untouched, and a speech occurs exactly at the Success/Failure edges of the non-running history |
| RelativeTime.SecondsPart | TeamCityBuildMonitor/Helpers/DefaultBuildMonitorModelHandler.cs:494 | `TimeSpan.Seconds`: the seconds of the absolute span past its last whole minute, carrying the span's sign |
| RelativeTime.MinutesPart | TeamCityBuildMonitor/Helpers/DefaultBuildMonitorModelHandler.cs:496 | `TimeSpan.Minutes`: the whole minutes of the absolute span past its last whole hour, carrying the span's sign |
| RelativeTime.HoursPart | TeamCityBuildMonitor/Helpers/DefaultBuildMonitorModelHandler.cs:498 | `TimeSpan.Hours`: the whole hours of the absolute span past its last whole day, carrying the span's sign |
| RelativeTime.DaysPart | TeamCityBuildMonitor/Helpers/DefaultBuildMonitorModelHandler.cs:500-508 | `TimeSpan.Days`: the whole days of the absolute span, carrying the span's sign |
| RelativeTime.LastRunText | TeamCityBuildMonitor/Helpers/DefaultBuildMonitorModelHandler.cs:478-515 | the text is empty exactly when the start time is missing or unparseable |
| RelativeTime.LastRunTextIsTruthful | TeamCityBuildMonitor/Helpers/DefaultBuildMonitorModelHandler.cs:493-509 | for a start time in the past, every phrase read back as a range of spans contains the actual span |
| RelativeTime.SecondsText | TeamCityBuildMonitor/Helpers/DefaultBuildMonitorModelHandler.cs:493-494 | under a minute (other than one second) the phrase counts the seconds |
| RelativeTime.MinutesText | TeamCityBuildMonitor/Helpers/DefaultBuildMonitorModelHandler.cs:496 | from 2 to 45 minutes the phrase counts whole minutes |
| RelativeTime.HoursText | TeamCityBuildMonitor/Helpers/DefaultBuildMonitorModelHandler.cs:498 | from 90 minutes to a day the phrase counts whole hours |
| RelativeTime.MinuteText | TeamCityBuildMonitor/Helpers/DefaultBuildMonitorModelHandler.cs:495 | from one minute up to two, past or future, the phrase is "a minute ago" |
| RelativeTime.AnHourText | TeamCityBuildMonitor/Helpers/DefaultBuildMonitorModelHandler.cs:497 | from 45 minutes up to 90, past or future, the phrase is "an hour ago" |
| RelativeTime.YesterdayText | TeamCityBuildMonitor/Helpers/DefaultBuildMonitorModelHandler.cs:499 | from one day up to two, past or future, the phrase is "yesterday" |
| RelativeTime.DaysText | TeamCityBuildMonitor/Helpers/DefaultBuildMonitorModelHandler.cs:500 | from 2 to 30 days the phrase counts whole days |
| RelativeTime.MonthsText | TeamCityBuildMonitor/Helpers/DefaultBuildMonitorModelHandler.cs:502-506 | from 30 days to 12 months the phrase counts 30-day months, singular up to one |
| RelativeTime.YearsText | TeamCityBuildMonitor/Helpers/DefaultBuildMonitorModelHandler.cs:508-509 | from 12 months on the phrase counts 365-day years, singular up to one |
| RelativeTime.MonthCount | TeamCityBuildMonitor/Helpers/DefaultBuildMonitorModelHandler.cs:504 | the month count is the number of whole 30-day months in the span |
| RelativeTime.YearCount | TeamCityBuildMonitor/Helpers/DefaultBuildMonitorModelHandler.cs:508 | the year count is the number of whole 365-day years in the span |
| RelativeTime.UnderAMinuteCountsSeconds | TeamCityBuildMonitor/Helpers/DefaultBuildMonitorModelHandler.cs:493-494 | under a minute in either direction, except exactly one second, the phrase prints the signed seconds |
| RelativeTime.OneSecondBoundary | TeamCityBuildMonitor/Helpers/DefaultBuildMonitorModelHandler.cs:494 | exactly one second reads "one second ago" |
| RelativeTime.NinetyMinutesBoundary | TeamCityBuildMonitor/Helpers/DefaultBuildMonitorModelHandler.cs:497-498 | exactly 90 minutes reads "1 hours ago" |
| RelativeTime.JustUnderNinetyMinutes | TeamCityBuildMonitor/Helpers/DefaultBuildMonitorModelHandler.cs:497 | one second under 90 minutes still reads "an hour ago" |
| RelativeTime.FutureStartBoundary | TeamCityBuildMonitor/Helpers/DefaultBuildMonitorModelHandler.cs:490-494 | a start five seconds in the future reads "-5 seconds ago" |
| Text.IsWhiteSpace | TeamCityBuildMonitor/Helpers/DefaultBuildMonitorModelHandler.cs:175-178 | `char.IsWhiteSpace`: exactly the 25 characters .NET classes as white space |
| Text.AllWhiteSpace | TeamCityBuildMonitor/Helpers/DefaultBuildMonitorModelHandler.cs:175-178 | the scan accepts a text exactly when each of its characters is white space |
| Text.IsNullOrWhiteSpace | TeamCityBuildMonitor/Helpers/DefaultBuildMonitorModelHandler.cs:175-178 | a missing or empty text is blank, and otherwise a text is blank exactly when each character is white space; the same test guards the stage lookups (lines 175-178), the build type lookup (line 307) and the progress default (line 469) |
| Text.ReplaceAll | TeamCityBuildMonitor/Helpers/DefaultBuildMonitorModelHandler.cs:130 | a text without the pattern is unchanged; removing the pattern never lengthens the text and strictly shortens it when the pattern occurs |
| Text.ReplaceAllLeading | TeamCityBuildMonitor/Helpers/DefaultBuildMonitorModelHandler.cs:130 | a leading occurrence is replaced and the scan resumes right after it |
| Text.ReplaceAllLeadingTwice | TeamCityBuildMonitor/Helpers/DefaultBuildMonitorModelHandler.cs:130 | two leading occurrences are both replaced |
| Text.ReplaceAllAtFirstOccurrence | TeamCityBuildMonitor/Helpers/DefaultBuildMonitorModelHandler.cs:130 | wherever the first occurrence sits, the text before it is kept, it is replaced, and the scan resumes right after it, so every non-overlapping occurrence is replaced |
| Text.Occurs | TeamCityBuildMonitor/Helpers/DefaultBuildMonitorModelHandler.cs:82 | `string.Contains`: a text contains each of its prefixes, and never a pattern longer than itself |
| Text.OccursAtSomePosition | TeamCityBuildMonitor/Helpers/DefaultBuildMonitorModelHandler.cs:82 | the containment test holds exactly when the pattern is a prefix of the text from some position on |
| Text.NatToString | TeamCityBuildMonitor/Helpers/DefaultBuildMonitorModelHandler.cs:494 | a non-empty digit string without leading zeros, one digit exactly below ten |
| Text.IntToString | TeamCityBuildMonitor/Helpers/DefaultBuildMonitorModelHandler.cs:494 | a minus sign exactly for negative numbers, followed by digits that read back as the magnitude |
| Text.DecimalRoundTrip | TeamCityBuildMonitor/Helpers/DefaultBuildMonitorModelHandler.cs:494 | reading a rendered number back gives the number |
| Text.LessOrEqual | TeamCityBuildMonitor/Controllers/HomeController.cs:74 | a name that is a prefix of another sorts at or before it, and a name sorts at or before another only if its first code point is no larger |
| Text.LessOrEqualFirstDifference | TeamCityBuildMonitor/Controllers/HomeController.cs:74 | ordinal order: one name sorts at or before another exactly when it is a prefix of the other or has the smaller code point at the first index where they differ |
| Text.LessOrEqualTotal | TeamCityBuildMonitor/Controllers/HomeController.cs:74 | any two names are ordered one way or the other |
| Text.LessOrEqualAntisymmetric | TeamCityBuildMonitor/Controllers/HomeController.cs:74 | names ordered both ways are equal |
| Text.LessOrEqualTransitive | TeamCityBuildMonitor/Controllers/HomeController.cs:74 | the name order is transitive |
| HomeController.KeyLe | TeamCityBuildMonitor/Controllers/HomeController.cs:74 | the sort key of `OrderByDescending(ShowBroken).ThenBy(Name)`: a broken pipeline goes before a healthy one whatever the names, and within one group names decide |
| HomeController.SortPipelines | TeamCityBuildMonitor/Controllers/HomeController.cs:72-76 | the result is sorted on (broken first, name) and is a permutation of the input |
| HomeController.SortedMeansBrokenFirstThenByName | TeamCityBuildMonitor/Controllers/HomeController.cs:74 | every broken pipeline precedes every healthy one, and names ascend within each group |
| HomeController.SortIsStable | TeamCityBuildMonitor/Controllers/HomeController.cs:74 | pipelines with equal keys keep their input order |
| HomeController.SortedInputIsUnchanged | TeamCityBuildMonitor/Controllers/HomeController.cs:72-76 | sorting an already sorted list changes nothing |
| HomeController.SortedHeadsAgree | TeamCityBuildMonitor/Controllers/HomeController.cs:72-76 | two sorted lists that keep every key's pipelines in the same order begin with the same pipeline |
| HomeController.StableOrderIsUnique | TeamCityBuildMonitor/Controllers/HomeController.cs:72-76 | two sorted lists that keep every key's pipelines in the same order are equal |
| HomeController.SortIsTheStableSort | TeamCityBuildMonitor/Controllers/HomeController.cs:72-76 | the result is the only sorted order that keeps every key's pipelines in input order |

## Left out

- HTTP, JSON parsing and the fetchers are outside the model. Their results are the
  `Fetch` inputs of a `Poll`. This covers `GetBuildTypesAsync` with its cache entry,
  `GetBuildQueueAsync`, `GetRunningBuildsAsync` and `GetBuildStatusAsync`. `GetProjectsAsync`
  (line 373) is never called by the handler, so no input stands for it.
- The commit detail request inside `GetUpdatedByAsync` is the input `Poll.change`, an
  `Option` rather than a `Fetch`: the catch at lines 365-368 swallows its failure, which
  then reads as no detail.
- `GetRunningBuildsAsync` catches its own exceptions and returns the builds gathered so far
  (lines 455-460), so the running builds of a `Poll` are a plain map with no failure case.
  As written the catch always fires and the map is empty, as described above. The model
  takes any map, so the empty one is the case the code produces.
- The in-memory caches are set without any expiry (`_cache.Set` at lines 155 and 402), so
  the build type catalog and each contributor stay cached for the life of the process. The
  contributor cache is modelled that way and never forgets. The catalog is a per-poll input
  instead, which covers the cached catalog as the case where every poll brings the same one.
- The contributor cache key's constant suffix is not part of this model. One fixed suffix
  on every key does not change which keys coincide.
- The directory picture fetch is an input, with `None` for a failed fetch.
- Date parsing and the clock are outside the model.
  - `LastRunText` takes the signed whole seconds of `DateTime.UtcNow` minus the parsed
    start, or `None` when the date is missing or does not parse. The parse yields local
    time, so on a host not on UTC the span is off by the UTC offset: at UTC-5 a fresh build
    reads "5 hours ago". The model takes the span as given.
  - Sub-second precision of `TotalSeconds` is not modelled.
- `Berate` picks its complaint at random. `Award` seeds its picker with 0, so it picks the
  same sentence every time, and only the numbers inside the sentences are random. The
  model takes each finished sentence as a string input to the narrative.
- The logger is left out. A logged exception appears as the `faulted` flag.
- `StatusDescription` is never assigned by the handler.
- Settings loading, `Startup`, `Program`, views, scripts and the other controllers are not
  part of this model.
- The `BuildStatus` enum declaration is not part of this model. `None` is taken as the
  default value that `TryGetValue` yields on a miss.
- `ContributorKey`: the source's `lastChanges.count` is taken to equal the length of the
  `change` array.
- HomeController.SortPipelines: the model compares names ordinally by code point. The
  source's default comparer is culture-sensitive, and culture collation is out of scope.
- Transitions.Replay: the names and narrative endings in a replay are fixed empty strings.
  Only which calls speak is stated, not what they say.
- ModelHandler.Run: its own contract states only the length of the result. What each
  pipeline and the final engine are is stated by `RunStep`, `RunAt`, `RunStepOutcomes` and
  `RunFrames`, and `GetModel` is proved to return exactly `Run`.
- Concurrency is not modelled. The handler is a singleton, and overlapping requests share
  the settings' pipeline objects, the `LastBuildStatus` tracker and the test-mode toggle
  across awaits. Two overlapping polls can then both announce the same Success-to-Failure
  edge. The model runs polls strictly one after another.
- Null pipeline attributes are not modelled. A pipeline's name and build type id are
  optional XML attributes, and a null build type id throws at the running-build and tracker
  lookups. The model's `Definition` holds both as plain strings.
- Text.IntToString: always uses '-' as the minus sign. C# formats a number interpolated
  into a string with the current culture, whose negative sign may differ.
