/** The job protocol: worker attempts, progress writers and cancel calls over one row
    (backend/apps/jobs/tasks.py, services.py, transform_builders.py, cancellation.py).

    Each read or UPDATE of the row is one atomic step; a program counter per attempt and per cancel
    call says what comes next; a run is any interleaving of the steps. */
module JobProtocol {
  import opened Wrappers
  import opened JobRow

  const MAX_TRANSIENT_RETRIES: nat := 3
  const RESULT_PATH := "/data/results/jobs/job"

  /** What can be raised while an attempt runs. `Coded` is a ProcessingError or an LLMError,
      `Domain` any other DomainError. */
  datatype Fault =
    | JobCancelled
    | SoftTimeLimit
    | Domain(name: string, message: string)
    | Coded(name: string, message: string, retryable: bool)
    | Unexpected

  const NEITHER_PATTERN_NOR_PROMPT :=
    Coded("INVALID_PATTERN", "The job has neither a pattern nor a description.", false)
  const CANCELLED_MESSAGE := "The job was cancelled."

  /** What the world answers to the external call of a step: Spark, S3, the language model. */
  datatype Reply =
    | Fine
    | Answer(text: string, cached: bool)
    | Stats(rows: nat, matched: nat)
    | Raise(fault: Fault)

  datatype Pc =
    | Begin                                 // transition to RUNNING
    | LoadJob                               // Job.objects.get
    | FirstCheck                            // raise_if_cancel_requested
    | Resolve                               // _resolve_pattern: stored or to be generated
    | AskForPattern                         // generate_pattern
    | SavePattern(text: string, cached: bool)
    | SecondCheck                           // raise_if_cancel_requested
    | OpenSource                            // credentials, session, source file
    | Build                                 // builder_for: stored or to be generated
    | SampleCheck                           // raise_if_cancel_requested
    | AskForSpec                            // generate
    | SaveSpec(text: string, cached: bool)
    | SpecCheck                             // raise_if_cancel_requested
    | Transforming                          // the pass over the data
    | Finalizing                            // collect_stats
    | Commit(rows: nat, matched: nat)       // transition to SUCCESS
    | Handle(fault: Fault)                  // _handle_failure
    | CancelSpark                           // _cancel_spark_work, after a timeout
    | Record(code: ErrorCode, message: string) // _fail
    | Over

  /** How many steps an attempt can still take. */
  function PcRank(pc: Pc): nat {
    match pc
    case Begin => 19
    case LoadJob => 18
    case FirstCheck => 17
    case Resolve => 16
    case AskForPattern => 15
    case SavePattern(_, _) => 14
    case SecondCheck => 13
    case OpenSource => 12
    case Build => 11
    case SampleCheck => 10
    case AskForSpec => 9
    case SaveSpec(_, _) => 8
    case SpecCheck => 7
    case Transforming => 6
    case Finalizing => 5
    case Commit(_, _) => 4
    case Handle(_) => 3
    case CancelSpark => 2
    case Record(_, _) => 1
    case Over => 0
  }

  /** One delivery of the task. `job` is the row as it was loaded; `resolved` and `spec` are what
      the attempt applies. `flaggedAtBegin` remembers whether cancellation had been requested when
      the attempt started, `escaped` whether an exception has left the task. */
  datatype Attempt = Attempt(
    pc: Pc,
    retries: nat,
    job: Row,
    resolved: Option<string>,
    spec: Option<string>,
    flaggedAtBegin: bool,
    escaped: bool)

  function FreshAttempt(retries: nat, row: Row): Attempt {
    Attempt(Begin, retries, row, None, None, false, false)
  }

  datatype CancelPc = FailIfQueued | Flag | Check | Returned | Refused

  /** `wins` counts the transitions to a terminal status that succeeded; `patternCalls` and
      `specCalls` count the calls to the language model, answered or not. */
  datatype System = System(
    row: Row,
    attempts: seq<Attempt>,
    cancels: seq<CancelPc>,
    wins: nat,
    patternCalls: nat,
    specCalls: nat)

  function Initial(transform: TransformType, nlPrompt: string, pattern: string): System {
    var row := NewRow(transform, nlPrompt, pattern);
    System(row, [FreshAttempt(0, row)], [], 0, 0, 0)
  }

  datatype Step =
    | Act(i: nat, reply: Reply, now: Time)
    | Crash(i: nat)
    | Redeliver(i: nat)
    | Emit(stage: string, percent: nat)
    | CallCancel
    | CancelAct(j: nat, now: Time)

  /** The steps inside the `try` block, whose exceptions go to the handler. */
  predicate InTry(pc: Pc) {
    !pc.Begin? && !pc.LoadJob? && !pc.Commit? && !InHandler(pc) && !pc.Over?
  }

  predicate InHandler(pc: Pc) {
    pc.Handle? || pc.CancelSpark? || pc.Record?
  }

  /** Any step can raise: the database, Spark, the broker, or a time limit that strikes there. */
  predicate Fits(pc: Pc, reply: Reply) {
    match reply
    case Raise(fault) => !pc.Over? && !fault.JobCancelled?
    case Answer(text, _) => (pc.AskForPattern? && text != "") || pc.AskForSpec?
    case Stats(_, _) => pc.Finalizing?
    case Fine => !pc.Over? && !pc.AskForPattern? && !pc.AskForSpec? && !pc.Finalizing?
  }

  function StartFields(now: Time): Fields {
    NO_FIELDS.(startedAt := Some(now), stage := Some(""), progress := Some(0),
               errorCode := Some(NoError), errorMessage := Some(""))
  }

  function SuccessFields(rows: nat, matched: nat, now: Time): Fields {
    NO_FIELDS.(progress := Some(100), finishedAt := Some(now), resultPath := Some(RESULT_PATH),
               rowCount := Some(rows), matchedCount := Some(matched))
  }

  function FailFields(code: ErrorCode, message: string, now: Time): Fields {
    NO_FIELDS.(finishedAt := Some(now), errorCode := Some(code), errorMessage := Some(message))
  }

  function QueuedCancelFields(now: Time): Fields {
    FailFields(Cancelled, CANCELLED_MESSAGE, now).(cancelRequestedAt := Some(now))
  }

  function AfterCheck(row: Row, next: Pc): Pc {
    if CancelRequested(row) then Handle(JobCancelled) else next
  }

  const INTERNAL_RECORD := Record(InternalError, "An unexpected error occurred while processing the job.")
  const TIMEOUT_RECORD := Record(Timeout, "The job exceeded its time limit.")

  /** `_handle_failure`: how it goes on to record the failure, or None when it schedules a retry. */
  function FailureRecord(row: Row, fault: Fault, retries: nat): Option<Pc> {
    if fault.JobCancelled? || CancelRequested(row) then
      Some(Record(Cancelled, CANCELLED_MESSAGE))
    else
      match fault
      case SoftTimeLimit => Some(CancelSpark)
      case Domain(name, message) => Some(Record(FailureCode(name), message))
      case Coded(name, message, retryable) =>
        if retryable && retries < MAX_TRANSIENT_RETRIES then None else Some(Record(FailureCode(name), message))
      case _ => Some(INTERNAL_RECORD)
  }

  /** One atomic step of an attempt that raises nothing: the row and the attempt after it. */
  function Advance(row: Row, a: Attempt, reply: Reply, now: Time): (Row, Attempt)
    requires Fits(a.pc, reply) && !reply.Raise?
  {
    match a.pc
    case Begin =>
      var (next, started) := AfterTransition(row, Running, None, StartFields(now));
      (next, a.(pc := if started then LoadJob else Over, flaggedAtBegin := CancelRequested(row)))
    case LoadJob => (row, a.(pc := FirstCheck, job := row))
    case FirstCheck => (row, a.(pc := AfterCheck(row, if a.job.transform.RegexReplace? then Resolve else SecondCheck)))
    case Resolve =>
      if a.job.pattern != "" then
        (row, a.(pc := SecondCheck, resolved := Some(a.job.pattern)))
      else if a.job.nlPrompt == "" then
        (row, a.(pc := Handle(NEITHER_PATTERN_NOR_PROMPT)))
      else
        (row, a.(pc := AskForPattern))
    case AskForPattern => (row, a.(pc := SavePattern(reply.text, reply.cached)))
    case SavePattern(text, cached) =>
      (row.(pattern := text, llmCached := Some(cached)), a.(pc := SecondCheck, resolved := Some(text)))
    case SecondCheck => (row, a.(pc := AfterCheck(row, OpenSource)))
    case OpenSource => (row, a.(pc := Build))
    case Build =>
      if a.job.transform.RegexReplace? then
        (row, a.(pc := Transforming))
      else if a.job.spec.Some? then
        (row, a.(pc := Transforming, spec := a.job.spec))
      else
        (row, a.(pc := SampleCheck))
    case SampleCheck => (row, a.(pc := AfterCheck(row, AskForSpec)))
    case AskForSpec => (row, a.(pc := SaveSpec(reply.text, reply.cached)))
    case SaveSpec(text, cached) =>
      (row.(spec := Some(text), llmCached := Some(cached)), a.(pc := SpecCheck, spec := Some(text)))
    case SpecCheck => (row, a.(pc := AfterCheck(row, Transforming)))
    case Transforming => (row, a.(pc := Finalizing))
    case Finalizing => (row, a.(pc := Commit(reply.rows, reply.matched)))
    case Commit(rows, matched) =>
      (AfterTransition(row, Success, None, SuccessFields(rows, matched, now)).0, a.(pc := Over))
    case Handle(fault) =>
      var next := FailureRecord(row, fault, a.retries);
      (row, a.(pc := if next.Some? then next.value else Over))
    case CancelSpark => (row, a.(pc := TIMEOUT_RECORD))
    case Record(code, message) =>
      (AfterTransition(row, Failed, None, FailFields(code, message, now)).0, a.(pc := Over))
  }

  /** The retry that a step schedules, if any. */
  function Scheduled(row: Row, a: Attempt, reply: Reply): seq<Attempt> {
    if a.pc.Handle? && !reply.Raise? && FailureRecord(row, a.pc.fault, a.retries).None? then
      [FreshAttempt(a.retries + 1, row)]
    else
      []
  }

  /** An exception in the `try` block goes to the handler; elsewhere it ends the task. */
  function Raised(a: Attempt, fault: Fault): Attempt {
    if InTry(a.pc) then a.(pc := Handle(fault)) else a.(pc := Over, escaped := true)
  }

  /** One atomic step of an attempt. An exception is raised before the step has any effect; one that
      comes later is raised by the next step. */
  function ActOnce(row: Row, a: Attempt, reply: Reply, now: Time): (Row, Attempt)
    requires Fits(a.pc, reply)
  {
    if reply.Raise? then (row, Raised(a, reply.fault)) else Advance(row, a, reply, now)
  }

  function Won(before: Row, after: Row): nat {
    if !Terminal(before.status) && Terminal(after.status) then 1 else 0
  }

  /** One atomic step of `cancel_job`. */
  function CancelOnce(row: Row, pc: CancelPc, now: Time): (Row, CancelPc) {
    match pc
    case FailIfQueued =>
      var (next, failed) := AfterTransition(row, Failed, Some({Queued}), QueuedCancelFields(now));
      (next, if failed then Returned else Flag)
    case Flag => (AfterCancelFlag(row, now), Check)
    case Check => (row, if CancelPending(row) then Returned else Refused)
    case Returned => (row, Returned)
    case Refused => (row, Refused)
  }

  predicate Enabled(s: System, step: Step) {
    match step
    case Act(i, reply, _) => i < |s.attempts| && Fits(s.attempts[i].pc, reply)
    case Crash(i) => i < |s.attempts|
    case Redeliver(i) => i < |s.attempts|
    case Emit(_, percent) => percent <= 99
    case CallCancel => true
    case CancelAct(j, _) => j < |s.cancels|
  }

  function Next(s: System, step: Step): System
    requires Enabled(s, step)
  {
    match step
    case Act(i, reply, now) =>
      var a := s.attempts[i];
      var (row, acted) := ActOnce(s.row, a, reply, now);
      s.(row := row,
         attempts := s.attempts[i := acted] + Scheduled(s.row, a, reply),
         wins := s.wins + Won(s.row, row),
         patternCalls := s.patternCalls + (if a.pc.AskForPattern? then 1 else 0),
         specCalls := s.specCalls + (if a.pc.AskForSpec? then 1 else 0))
    case Crash(i) => s.(attempts := s.attempts[i := s.attempts[i].(pc := Over)])
    case Redeliver(i) => s.(attempts := s.attempts + [FreshAttempt(s.attempts[i].retries, s.row)])
    case Emit(stage, percent) => s.(row := AfterProgress(s.row, stage, percent))
    case CallCancel => s.(cancels := s.cancels + [FailIfQueued])
    case CancelAct(j, now) =>
      var (row, pc) := CancelOnce(s.row, s.cancels[j], now);
      s.(row := row, cancels := s.cancels[j := pc], wins := s.wins + Won(s.row, row))
  }

  predicate Possible(s: System, steps: seq<Step>)
    decreases |steps|
  {
    steps == [] || (Enabled(s, steps[0]) && Possible(Next(s, steps[0]), steps[1..]))
  }

  function Run(s: System, steps: seq<Step>): System
    requires Possible(s, steps)
    decreases |steps|
  {
    if steps == [] then s else Run(Next(s, steps[0]), steps[1..])
  }

  lemma RunFrom(s: System, step: Step, rest: seq<Step>)
    requires Enabled(s, step) && Possible(Next(s, step), rest)
    ensures Possible(s, [step] + rest) && Run(s, [step] + rest) == Run(Next(s, step), rest)
  {
    assert ([step] + rest)[1..] == rest;
  }

  lemma {:induction false} RunThenStep(s: System, steps: seq<Step>, step: Step)
    requires Possible(s, steps) && Enabled(Run(s, steps), step)
    ensures Possible(s, steps + [step]) && Run(s, steps + [step]) == Next(Run(s, steps), step)
    decreases |steps|
  {
    if steps == [] {
      assert [step][1..] == [];
    } else {
      assert (steps + [step])[1..] == steps[1..] + [step];
      RunThenStep(Next(s, steps[0]), steps[1..], step);
    }
  }

  /** Some run leads from one state to the other. */
  ghost predicate Reaches(s0: System, s: System) {
    exists steps :: Possible(s0, steps) && Run(s0, steps) == s
  }

  lemma Start(s0: System) returns (s: System)
    ensures s == s0 && Reaches(s0, s)
  {
    assert Possible(s0, []) && Run(s0, []) == s0;
    s := s0;
  }

  lemma Then(s0: System, s: System, step: Step)
    requires Reaches(s0, s) && Enabled(s, step)
    ensures Reaches(s0, Next(s, step))
  {
    var steps :| Possible(s0, steps) && Run(s0, steps) == s;
    RunThenStep(s0, steps, step);
  }

  /** Attempt `i` takes a step that schedules no retry. */
  lemma Work(s0: System, s: System, i: nat, reply: Reply, now: Time) returns (after: System)
    requires Reaches(s0, s) && i < |s.attempts| && Fits(s.attempts[i].pc, reply)
    requires Scheduled(s.row, s.attempts[i], reply) == []
    ensures Reaches(s0, after)
    ensures after.row == ActOnce(s.row, s.attempts[i], reply, now).0
    ensures after.attempts == s.attempts[i := ActOnce(s.row, s.attempts[i], reply, now).1]
    ensures after.cancels == s.cancels
    ensures after.patternCalls == s.patternCalls + if s.attempts[i].pc.AskForPattern? then 1 else 0
  {
    Then(s0, s, Act(i, reply, now));
    after := Next(s, Act(i, reply, now));
    assert s.attempts[i := ActOnce(s.row, s.attempts[i], reply, now).1] + [] == after.attempts;
  }
}
