/** The job row and the conditional updates that are the only writes to its status
    (backend/apps/jobs/models.py, lines 11-123). */
module JobRow {
  import opened Wrappers

  type Time = nat

  datatype Status = Queued | Running | Success | Failed

  datatype TransformType = RegexReplace | NormalizeFormat | MaskPii

  /** The codes the application writes: none, the three fixed ones, or the code of a failure
      class, which is never one of the fixed ones. */
  datatype ErrorCode = NoError | Cancelled | Timeout | InternalError | FailureCode(name: string)

  predicate Terminal(status: Status) {
    status == Success || status == Failed
  }

  datatype Row = Row(
    status: Status,
    stage: string,
    progress: nat,
    transform: TransformType,
    nlPrompt: string,
    pattern: string,
    spec: Option<string>,
    llmCached: Option<bool>,
    resultPath: string,
    rowCount: Option<nat>,
    matchedCount: Option<nat>,
    errorCode: ErrorCode,
    errorMessage: string,
    cancelRequestedAt: Option<Time>,
    startedAt: Option<Time>,
    finishedAt: Option<Time>)

  /** A job as `submit_job` creates it. */
  function NewRow(transform: TransformType, nlPrompt: string, pattern: string): Row {
    Row(Queued, "", 0, transform, nlPrompt, pattern, None, None, "", None, None, NoError, "", None, None, None)
  }

  /** The keyword arguments of a transition: the fields it sets beside the status. */
  datatype Fields = Fields(
    stage: Option<string>,
    progress: Option<nat>,
    resultPath: Option<string>,
    rowCount: Option<nat>,
    matchedCount: Option<nat>,
    errorCode: Option<ErrorCode>,
    errorMessage: Option<string>,
    cancelRequestedAt: Option<Time>,
    startedAt: Option<Time>,
    finishedAt: Option<Time>)

  const NO_FIELDS := Fields(None, None, None, None, None, None, None, None, None, None)

  function Pick<T>(update: Option<T>, current: T): T {
    if update.Some? then update.value else current
  }

  function Keep<T>(update: Option<T>, current: Option<T>): Option<T> {
    if update.Some? then update else current
  }

  function Assign(row: Row, status: Status, f: Fields): Row {
    row.(status := status,
         stage := Pick(f.stage, row.stage),
         progress := Pick(f.progress, row.progress),
         resultPath := Pick(f.resultPath, row.resultPath),
         rowCount := Keep(f.rowCount, row.rowCount),
         matchedCount := Keep(f.matchedCount, row.matchedCount),
         errorCode := Pick(f.errorCode, row.errorCode),
         errorMessage := Pick(f.errorMessage, row.errorMessage),
         cancelRequestedAt := Keep(f.cancelRequestedAt, row.cancelRequestedAt),
         startedAt := Keep(f.startedAt, row.startedAt),
         finishedAt := Keep(f.finishedAt, row.finishedAt))
  }

  /** `ALLOWED_SOURCE_STATUSES`; QUEUED is no key of it, so nothing moves to QUEUED. */
  function AllowedSources(target: Status): set<Status> {
    match target
    case Queued => {}
    case Running => {Queued, Running}
    case Success => {Running}
    case Failed => {Queued, Running}
  }

  function Sources(target: Status, onlyFrom: Option<set<Status>>): set<Status> {
    if onlyFrom.Some? then AllowedSources(target) * onlyFrom.value else AllowedSources(target)
  }

  /** The row after a transition, and whether it took place. */
  function AfterTransition(row: Row, target: Status, onlyFrom: Option<set<Status>>, f: Fields): (Row, bool) {
    if row.status in Sources(target, onlyFrom) then (Assign(row, target, f), true) else (row, false)
  }

  function AfterProgress(row: Row, stage: string, progress: nat): Row {
    if row.status == Running then row.(stage := stage, progress := progress) else row
  }

  predicate CancelRequested(row: Row) {
    row.cancelRequestedAt.Some?
  }

  function AfterCancelFlag(row: Row, now: Time): Row {
    if row.status == Running && !CancelRequested(row) then row.(cancelRequestedAt := Some(now)) else row
  }

  predicate CancelPending(row: Row) {
    row.status == Running && CancelRequested(row)
  }

  /** Nothing moves to QUEUED and nothing moves out of a terminal status; a job succeeds only from
      RUNNING; every other move is allowed, and `only_from` can but narrow it. */
  lemma MovesExactly(row: Row, target: Status, onlyFrom: Option<set<Status>>, f: Fields)
    ensures AfterTransition(row, target, onlyFrom, f).1 <==>
            && target != Queued && !Terminal(row.status)
            && (target == Success ==> row.status == Running)
            && (onlyFrom.Some? ==> row.status in onlyFrom.value)
    ensures AfterTransition(row, target, onlyFrom, f).0.status ==
            if AfterTransition(row, target, onlyFrom, f).1 then target else row.status
    ensures !AfterTransition(row, target, onlyFrom, f).1 ==> AfterTransition(row, target, onlyFrom, f).0 == row
  {
  }

  /** The stored job, updated in place. */
  class JobRecord {
    var status: Status
    var stage: string
    var progress: nat
    const transform: TransformType
    const nlPrompt: string
    var pattern: string
    var spec: Option<string>
    var llmCached: Option<bool>
    var resultPath: string
    var rowCount: Option<nat>
    var matchedCount: Option<nat>
    var errorCode: ErrorCode
    var errorMessage: string
    var cancelRequestedAt: Option<Time>
    var startedAt: Option<Time>
    var finishedAt: Option<Time>

    function Snapshot(): Row
      reads this
    {
      Row(status, stage, progress, transform, nlPrompt, pattern, spec, llmCached, resultPath, rowCount, matchedCount,
          errorCode, errorMessage, cancelRequestedAt, startedAt, finishedAt)
    }

    /** `submit_job` creates the row. */
    constructor (transform: TransformType, nlPrompt: string, pattern: string)
      ensures Snapshot() == NewRow(transform, nlPrompt, pattern)
      ensures this.transform == transform && this.nlPrompt == nlPrompt && this.pattern == pattern
      ensures status == Queued && stage == "" && progress == 0 && resultPath == "" && errorMessage == ""
      ensures spec.None? && llmCached.None? && rowCount.None? && matchedCount.None? && errorCode == NoError
      ensures cancelRequestedAt.None? && startedAt.None? && finishedAt.None?
    {
      this.transform, this.nlPrompt, this.pattern := transform, nlPrompt, pattern;
      status, stage, progress := Queued, "", 0;
      spec, llmCached, resultPath, rowCount, matchedCount := None, None, "", None, None;
      errorCode, errorMessage := NoError, "";
      cancelRequestedAt, startedAt, finishedAt := None, None, None;
    }

    /** One conditional UPDATE: the status moves and the fields are set only when the current
        status allows it. */
    method Transition(target: Status, onlyFrom: Option<set<Status>>, f: Fields) returns (updated: bool)
      modifies this
      ensures (Snapshot(), updated) == AfterTransition(old(Snapshot()), target, onlyFrom, f)
    {
      var sources := AllowedSources(target);
      if onlyFrom.Some? {
        sources := sources * onlyFrom.value;
      }
      updated := status in sources;
      if updated {
        status := target;
        Set(f);
      }
    }

    /** The SET clause of an UPDATE: each given field, and no other. */
    method Set(f: Fields)
      modifies this
      ensures status == old(status) && pattern == old(pattern) && spec == old(spec) && llmCached == old(llmCached)
      ensures stage == Pick(f.stage, old(stage))
      ensures progress == Pick(f.progress, old(progress))
      ensures resultPath == Pick(f.resultPath, old(resultPath))
      ensures rowCount == Keep(f.rowCount, old(rowCount))
      ensures matchedCount == Keep(f.matchedCount, old(matchedCount))
      ensures errorCode == Pick(f.errorCode, old(errorCode))
      ensures errorMessage == Pick(f.errorMessage, old(errorMessage))
      ensures cancelRequestedAt == Keep(f.cancelRequestedAt, old(cancelRequestedAt))
      ensures startedAt == Keep(f.startedAt, old(startedAt))
      ensures finishedAt == Keep(f.finishedAt, old(finishedAt))
    {
      stage := Pick(f.stage, stage);
      progress := Pick(f.progress, progress);
      resultPath := Pick(f.resultPath, resultPath);
      rowCount := Keep(f.rowCount, rowCount);
      matchedCount := Keep(f.matchedCount, matchedCount);
      errorCode := Pick(f.errorCode, errorCode);
      errorMessage := Pick(f.errorMessage, errorMessage);
      cancelRequestedAt := Keep(f.cancelRequestedAt, cancelRequestedAt);
      startedAt := Keep(f.startedAt, startedAt);
      finishedAt := Keep(f.finishedAt, finishedAt);
    }

    method UpdateProgress(stage: string, progress: nat)
      modifies this`stage, this`progress
      ensures Snapshot() == AfterProgress(old(Snapshot()), stage, progress)
      ensures if status == Running then this.stage == stage && this.progress == progress
              else this.stage == old(this.stage) && this.progress == old(this.progress)
    {
      if status == Running {
        this.stage, this.progress := stage, progress;
      }
    }

    /** The flagging UPDATE of `request_cancel`; the check that follows is `IsCancelPending`. */
    method FlagCancel(now: Time)
      modifies this`cancelRequestedAt
      ensures Snapshot() == AfterCancelFlag(old(Snapshot()), now)
      ensures status == Running && old(cancelRequestedAt).None? ==> cancelRequestedAt == Some(now)
      ensures status != Running || old(cancelRequestedAt).Some? ==> cancelRequestedAt == old(cancelRequestedAt)
    {
      if status == Running && cancelRequestedAt.None? {
        cancelRequestedAt := Some(now);
      }
    }

    method IsCancelPending() returns (pending: bool)
      ensures pending <==> CancelPending(Snapshot())
    {
      pending := status == Running && cancelRequestedAt.Some?;
    }

    /** `request_cancel`: flags a running job and answers whether it is running and flagged. */
    method RequestCancel(now: Time) returns (pending: bool)
      modifies this`cancelRequestedAt
      ensures Snapshot() == AfterCancelFlag(old(Snapshot()), now)
      ensures pending <==> status == Running
    {
      FlagCancel(now);
      pending := IsCancelPending();
    }

    method IsCancelRequested() returns (requested: bool)
      ensures requested <==> CancelRequested(Snapshot())
    {
      requested := cancelRequestedAt.Some?;
    }

    /** The unconditional UPDATE that saves a generated pattern. */
    method SavePattern(pattern: string, cached: bool)
      modifies this`pattern, this`llmCached
      ensures Snapshot() == old(Snapshot()).(pattern := pattern, llmCached := Some(cached))
    {
      this.pattern, llmCached := pattern, Some(cached);
    }

    /** The unconditional UPDATE that saves a generated specification. */
    method SaveSpec(spec: string, cached: bool)
      modifies this`spec, this`llmCached
      ensures Snapshot() == old(Snapshot()).(spec := Some(spec), llmCached := Some(cached))
    {
      this.spec, llmCached := Some(spec), Some(cached);
    }
  }
}
