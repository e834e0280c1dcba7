/**
  The transition tracker (`LastBuildStatus`) and the narrative of `CreateBrokenBySpeech`:
  a process-wide map from build type id to the last status seen, used to announce when a
  build goes from success to failure or back.
 */
module Transitions {
  import opened Wrappers
  import opened Pipelines

  /** Build type id to the last status recorded for it. */
  type Tracker = map<string, BuildStatus>

  /** `TryGetValue`: the recorded status, or the enum default `None` on a miss. */
  function LastStatus(t: Tracker, buildId: string): (s: BuildStatus)
    ensures buildId in t ==> s == t[buildId]
    ensures buildId !in t ==> s == BuildStatus.None
  {
    if buildId in t then t[buildId] else BuildStatus.None
  }

  /** The build was failing and now succeeds. */
  predicate Fixes(previous: BuildStatus, current: BuildStatus) {
    previous == Failure && current == Success
  }

  /** The build was succeeding and now fails. */
  predicate Breaks(previous: BuildStatus, current: BuildStatus) {
    previous == Success && current == Failure
  }

  /** A status change the dashboard announces. */
  predicate Announces(previous: BuildStatus, current: BuildStatus) {
    Fixes(previous, current) || Breaks(previous, current)
  }

  /** The text every announcement starts with. */
  const Attention := "Attention. "

  /**
    The "fixed" announcement naming the developer and the pipeline; `award` is the finished
    award sentence. A `null` name interpolates as "".
   */
  function FixedSpeech(devName: Option<string>, pipelineName: string, award: string): (r: string)
    ensures Attention + devName.GetOr("") + " fixed the " <= r
  {
    Attention + devName.GetOr("") + " fixed the " + pipelineName + " pipeline. " + award
  }

  /** The "broke" announcement naming the developer and the pipeline; `berate` is the finished complaint. */
  function BrokeSpeech(devName: Option<string>, pipelineName: string, berate: string): (r: string)
    ensures Attention + devName.GetOr("") + " broke the " <= r
  {
    Attention + devName.GetOr("") + " broke the " + pipelineName + " pipeline. " + berate
  }

  /**
    For the same developer, a "fixed" and a "broke" announcement always differ, whatever the
    pipelines and endings: the verb right after the name tells them apart.
   */
  lemma FixedIsNeverBroke(devName: Option<string>, p1: string, award: string, p2: string, berate: string)
    ensures FixedSpeech(devName, p1, award) != BrokeSpeech(devName, p2, berate)
  {
    var k := |Attention + devName.GetOr("") + " "|;
    var f, b := FixedSpeech(devName, p1, award), BrokeSpeech(devName, p2, berate);
    assert (Attention + devName.GetOr("") + " fixed the ")[k] == 'f';
    assert (Attention + devName.GetOr("") + " broke the ")[k] == 'b';
    assert f[k] == 'f' && b[k] == 'b';
  }

  /** The speech of one call and the tracker after it. */
  datatype Narrated = Narrated(speech: string, tracker: Tracker)

  /**
    `CreateBrokenBySpeech`: a running build says nothing and leaves the tracker alone;
    otherwise the speech announces a Failure-to-Success or Success-to-Failure edge against
    the recorded status, and the new status is recorded.
   */
  function CreateBrokenBySpeech(t: Tracker, buildId: string, devName: Option<string>, status: BuildStatus,
                                pipelineName: string, award: string, berate: string): (r: Narrated)
    ensures status == Running ==> r.speech == "" && r.tracker == t
    ensures status != Running ==> r.tracker == t[buildId := status]
    ensures r.speech != "" <==> Announces(LastStatus(t, buildId), status)
    ensures Fixes(LastStatus(t, buildId), status) ==> r.speech == FixedSpeech(devName, pipelineName, award)
    ensures Breaks(LastStatus(t, buildId), status) ==> r.speech == BrokeSpeech(devName, pipelineName, berate)
  {
    if status == Running then Narrated("", t)
    else
      var last := LastStatus(t, buildId);
      var fixedSpeech := if last == Failure && status == Success then FixedSpeech(devName, pipelineName, award) else "";
      var speech := if last == Success && status == Failure then BrokeSpeech(devName, pipelineName, berate) else fixedSpeech;
      Narrated(speech, t[buildId := status])
  }

  /** Reporting the same status twice in a row announces nothing the second time. */
  lemma SecondCallIsSilent(t: Tracker, buildId: string, devName: Option<string>, status: BuildStatus,
                           pipelineName: string, award: string, berate: string)
    ensures var first := CreateBrokenBySpeech(t, buildId, devName, status, pipelineName, award, berate);
            CreateBrokenBySpeech(first.tracker, buildId, devName, status, pipelineName, award, berate).speech == ""
  {
  }

  // ---------------------------------------------------------------------------
  // A run of polls for one build type.

  /** The speeches of successive calls for `buildId` observing `observed`, and the final tracker. */
  function Replay(t: Tracker, buildId: string, observed: seq<BuildStatus>): (r: (seq<string>, Tracker))
    ensures |r.0| == |observed|
    decreases |observed|
  {
    if observed == [] then ([], t)
    else
      var step := CreateBrokenBySpeech(t, buildId, Option.None, observed[0], "", "", "");
      var rest := Replay(step.tracker, buildId, observed[1..]);
      ([step.speech] + rest.0, rest.1)
  }

  /** The observations that are not `Running`, in order. */
  function NonRunning(observed: seq<BuildStatus>): (r: seq<BuildStatus>)
    ensures forall i :: 0 <= i < |r| ==> r[i] != Running
    decreases |observed|
  {
    if observed == [] then []
    else (if observed[0] == Running then [] else [observed[0]]) + NonRunning(observed[1..])
  }

  /** The status the tracker should hold: the last non-running observation, or `previous` if there is none. */
  function Settled(previous: BuildStatus, observed: seq<BuildStatus>): BuildStatus {
    var f := NonRunning(observed);
    if f == [] then previous else f[|f| - 1]
  }

  lemma SettledStep(previous: BuildStatus, s: BuildStatus, rest: seq<BuildStatus>)
    ensures Settled(previous, [s] + rest) == Settled(if s == Running then previous else s, rest)
  {
    assert ([s] + rest)[1..] == rest;
  }

  /**
    Over any run of polls the tracker ends holding the last non-running status, other build
    types keep their entries, and a speech is produced exactly at the Success/Failure edges of
    the non-running history: `Running` polls are invisible to the transition logic.
   */
  lemma {:induction false} ReplayTracksSettledHistory(t: Tracker, buildId: string, observed: seq<BuildStatus>)
    ensures var r := Replay(t, buildId, observed);
            && LastStatus(r.1, buildId) == Settled(LastStatus(t, buildId), observed)
            && (forall k :: k != buildId ==> (k in r.1 <==> k in t) && LastStatus(r.1, k) == LastStatus(t, k))
            && (forall i :: 0 <= i < |observed| ==>
                  (r.0[i] != "" <==> Announces(Settled(LastStatus(t, buildId), observed[..i]), observed[i])))
    decreases |observed|
  {
    if observed != [] {
      var s := observed[0];
      var rest := observed[1..];
      var prev := LastStatus(t, buildId);
      var step := CreateBrokenBySpeech(t, buildId, Option.None, s, "", "", "");
      var r := Replay(t, buildId, observed);
      ReplayTracksSettledHistory(step.tracker, buildId, rest);
      var next := if s == Running then prev else s;
      assert LastStatus(step.tracker, buildId) == next;
      assert observed == [s] + rest;
      SettledStep(prev, s, rest);
      forall i | 0 <= i < |observed|
        ensures r.0[i] != "" <==> Announces(Settled(prev, observed[..i]), observed[i])
      {
        if i == 0 {
          assert observed[..0] == [];
        } else {
          assert observed[..i] == [s] + rest[..i - 1];
          SettledStep(prev, s, rest[..i - 1]);
          assert r.0[i] == Replay(step.tracker, buildId, rest).0[i - 1];
        }
      }
    }
  }
}
