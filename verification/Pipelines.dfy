/**
  The display model of one dashboard pipeline (Models/Home/Pipeline.cs): the definition
  read from settings, and the fields the model handler fills in on every poll.
 */
module Pipelines {
  import opened Wrappers

  /** The coarse status of a build type. `None` is the enum's default value. */
  datatype BuildStatus = None | Success | Failure | Error | Running

  /** The four promotion stages shown next to a pipeline. */
  datatype Stage = QA | STG | RC | LIVE

  /** The XML attributes of a `<Pipeline>` settings element; absent attributes are `None`. */
  datatype Definition = Definition(
    name: string,
    builderId: string,
    qaId: Option<string>,
    stgId: Option<string>,
    rcId: Option<string>,
    liveId: Option<string>,
    text: Option<string>)
  {
    function StageId(stage: Stage): Option<string> {
      match stage
      case QA => qaId
      case STG => stgId
      case RC => rcId
      case LIVE => liveId
    }
  }

  /**
    A pipeline: its definition plus the resolved fields. The same instance is re-filled on
    every poll, so a field the last poll failed to reach keeps its earlier value; C# `null`
    is `None`.
   */
  datatype Pipeline = Pipeline(
    def: Definition,
    currentStep: Option<string>,
    builderStatus: BuildStatus,
    branch: Option<string>,
    progress: Option<string>,
    updatedBy: Option<string>,
    lastRunText: Option<string>,
    isQueued: bool,
    brokenByName: Option<string>,
    brokenByPicData: Option<string>,
    brokenBySpeech: Option<string>,
    showBroken: bool,
    qaStatus: BuildStatus,
    stgStatus: BuildStatus,
    rcStatus: BuildStatus,
    liveStatus: BuildStatus,
    qaCssClass: Option<string>,
    stgCssClass: Option<string>,
    rcCssClass: Option<string>,
    liveCssClass: Option<string>)
  {
    function StageStatus(stage: Stage): BuildStatus {
      match stage
      case QA => qaStatus
      case STG => stgStatus
      case RC => rcStatus
      case LIVE => liveStatus
    }

    function StageCssClass(stage: Stage): Option<string> {
      match stage
      case QA => qaCssClass
      case STG => stgCssClass
      case RC => rcCssClass
      case LIVE => liveCssClass
    }
  }

  /** The `StatusText` property over a pipeline's primary status; every status other than the four named ones is "UNKNOWN". */
  function StatusTextOf(s: BuildStatus): (r: string)
    ensures r == "OK" <==> s == Success
    ensures r == "FAIL" <==> s == Failure
    ensures r == "RUNNING" <==> s == Running
    ensures r == "ERROR" <==> s == Error
    ensures r == "UNKNOWN" <==> s == BuildStatus.None
  {
    match s
    case Success => "OK"
    case Failure => "FAIL"
    case Running => "RUNNING"
    case Error => "ERROR"
    case _ => "UNKNOWN"
  }

  /** Reads a label back; the inverse of `StatusTextOf`. */
  function StatusFromText(t: string): Option<BuildStatus> {
    if t == "OK" then Some(Success)
    else if t == "FAIL" then Some(Failure)
    else if t == "RUNNING" then Some(Running)
    else if t == "ERROR" then Some(Error)
    else if t == "UNKNOWN" then Some(BuildStatus.None)
    else Option.None
  }

  /** The label determines the status: the projection loses nothing and every label reads back. */
  lemma StatusTextRoundTrip(s: BuildStatus, t: string)
    ensures StatusFromText(StatusTextOf(s)) == Some(s)
    ensures StatusFromText(t) == Some(s) <==> StatusTextOf(s) == t
  {
  }
}
