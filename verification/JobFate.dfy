/** What becomes of a job when one attempt runs alone, told from the outside world's answers and not
    from the steps of the protocol (backend/apps/jobs/tasks.py, lines 54-204; transform_builders.py,
    lines 34-94): which points it passes, what goes wrong first, and what is recorded. */
module JobFate {
  import opened Wrappers
  import opened JobRow
  import opened JobProtocol

  /** What the outside world does at each point of an attempt. */
  datatype World = World(reply: Pc -> Reply, clock: Pc -> Time) {
    /** The answer at a point; an answer that makes no sense there counts as an unexpected error. */
    function At(pc: Pc): (r: Reply)
      requires !pc.Over?
      ensures Fits(pc, r)
    {
      if Fits(pc, reply(pc)) then reply(pc) else Raise(Unexpected)
    }
  }

  // --- what goes wrong ---

  predicate Checks(pc: Pc) {
    pc.FirstCheck? || pc.SecondCheck? || pc.SampleCheck? || pc.SpecCheck?
  }

  function TroubleAt(world: World, job: Row, pc: Pc): Option<Fault>
    requires !pc.Over?
  {
    if world.At(pc).Raise? then
      Some(world.At(pc).fault)
    else if Checks(pc) && CancelRequested(job) then
      Some(JobCancelled)
    else if pc.Resolve? && job.pattern == "" && job.nlPrompt == "" then
      Some(Coded("INVALID_PATTERN", "The job has neither a pattern nor a description.", false))
    else
      None
  }

  predicate AllPoints(points: seq<Pc>) {
    forall pc | pc in points :: !pc.Over?
  }

  function FirstTrouble(world: World, job: Row, points: seq<Pc>): Option<Fault>
    requires AllPoints(points)
  {
    if points == [] then
      None
    else
      var trouble := TroubleAt(world, job, points[0]);
      if trouble.Some? then trouble else FirstTrouble(world, job, points[1..])
  }

  lemma {:induction false} TroubleJoins(world: World, job: Row, a: seq<Pc>, b: seq<Pc>)
    requires AllPoints(a) && AllPoints(b)
    ensures FirstTrouble(world, job, a + b) ==
            if FirstTrouble(world, job, a).Some? then FirstTrouble(world, job, a) else FirstTrouble(world, job, b)
  {
    if a == [] {
      assert a + b == b;
    } else {
      assert (a + b)[1..] == a[1..] + b;
      TroubleJoins(world, job, a[1..], b);
    }
  }

  lemma TroubleOfOne(world: World, job: Row, pc: Pc)
    requires !pc.Over?
    ensures FirstTrouble(world, job, [pc]) == TroubleAt(world, job, pc)
  {
    assert [pc][1..] == [];
  }

  lemma TroubleThen(world: World, job: Row, pc: Pc, rest: seq<Pc>)
    requires !pc.Over? && AllPoints(rest)
    ensures FirstTrouble(world, job, [pc] + rest) ==
            if TroubleAt(world, job, pc).Some? then TroubleAt(world, job, pc) else FirstTrouble(world, job, rest)
  {
    TroubleOfOne(world, job, pc);
    TroubleJoins(world, job, [pc], rest);
  }

  // --- the points of an attempt, in order ---

  /** Asking for a pattern and saving it. */
  function AskPatternPoints(world: World): (points: seq<Pc>)
    ensures AllPoints(points)
  {
    var answer := world.At(AskForPattern);
    [AskForPattern] + if answer.Raise? then [] else [SavePattern(answer.text, answer.cached)]
  }

  function PatternPoints(world: World, job: Row): (points: seq<Pc>)
    ensures AllPoints(points)
  {
    if !job.transform.RegexReplace? then []
    else [Resolve] + if job.pattern != "" || job.nlPrompt == "" then [] else AskPatternPoints(world)
  }

  /** Asking for a specification, saving it, and the check after that. */
  function AskSpecPoints(world: World): (points: seq<Pc>)
    ensures AllPoints(points)
  {
    var answer := world.At(AskForSpec);
    [AskForSpec] + if answer.Raise? then [] else [SaveSpec(answer.text, answer.cached), SpecCheck]
  }

  function SpecPoints(world: World, job: Row): (points: seq<Pc>)
    ensures AllPoints(points)
  {
    if job.transform.RegexReplace? || job.spec.Some? then [] else [SampleCheck] + AskSpecPoints(world)
  }

  function SparkPoints(world: World, job: Row): (points: seq<Pc>)
    ensures AllPoints(points)
  {
    [OpenSource] + ([Build] + SpecPoints(world, job) + [Transforming, Finalizing])
  }

  function TryPoints(world: World, job: Row): (points: seq<Pc>)
    ensures AllPoints(points)
  {
    [FirstCheck] + (PatternPoints(world, job) + ([SecondCheck] + SparkPoints(world, job)))
  }

  /** The exception that leaves the `try` block, if any. */
  function Trouble(world: World, job: Row): Option<Fault> {
    FirstTrouble(world, job, TryPoints(world, job))
  }

  // --- the trouble of each part, from that of its points ---

  lemma AskPatternTrouble(world: World, job: Row)
    ensures var answer := world.At(AskForPattern);
            FirstTrouble(world, job, AskPatternPoints(world)) ==
            if answer.Raise? then Some(answer.fault)
            else TroubleAt(world, job, SavePattern(answer.text, answer.cached))
  {
    var answer := world.At(AskForPattern);
    if answer.Raise? {
      TroubleOfOne(world, job, AskForPattern);
      assert AskPatternPoints(world) == [AskForPattern];
    } else {
      var point := SavePattern(answer.text, answer.cached);
      TroubleThen(world, job, AskForPattern, [point]);
      TroubleOfOne(world, job, point);
    }
  }

  lemma PatternTrouble(world: World, job: Row)
    requires job.transform.RegexReplace?
    ensures FirstTrouble(world, job, PatternPoints(world, job)) ==
            if TroubleAt(world, job, Resolve).Some? then TroubleAt(world, job, Resolve)
            else if job.pattern != "" || job.nlPrompt == "" then None
            else FirstTrouble(world, job, AskPatternPoints(world))
  {
    if job.pattern != "" || job.nlPrompt == "" {
      TroubleOfOne(world, job, Resolve);
      assert PatternPoints(world, job) == [Resolve];
    } else {
      TroubleThen(world, job, Resolve, AskPatternPoints(world));
    }
  }

  lemma KeepSpecTrouble(world: World, job: Row, text: string, cached: bool)
    ensures var point := SaveSpec(text, cached);
            FirstTrouble(world, job, [point, SpecCheck]) ==
            if world.At(point).Raise? then Some(world.At(point).fault) else TroubleAt(world, job, SpecCheck)
  {
    TroubleThen(world, job, SaveSpec(text, cached), [SpecCheck]);
    TroubleOfOne(world, job, SpecCheck);
    assert [SaveSpec(text, cached)] + [SpecCheck] == [SaveSpec(text, cached), SpecCheck];
  }

  lemma AskSpecTrouble(world: World, job: Row)
    ensures var answer := world.At(AskForSpec);
            FirstTrouble(world, job, AskSpecPoints(world)) ==
            if answer.Raise? then Some(answer.fault)
            else FirstTrouble(world, job, [SaveSpec(answer.text, answer.cached), SpecCheck])
  {
    var answer := world.At(AskForSpec);
    if answer.Raise? {
      TroubleOfOne(world, job, AskForSpec);
      assert AskSpecPoints(world) == [AskForSpec];
    } else {
      TroubleThen(world, job, AskForSpec, [SaveSpec(answer.text, answer.cached), SpecCheck]);
    }
  }

  lemma BuildTrouble(world: World, job: Row)
    ensures FirstTrouble(world, job, [Build] + SpecPoints(world, job)) ==
            if TroubleAt(world, job, Build).Some? then TroubleAt(world, job, Build)
            else if job.transform.RegexReplace? || job.spec.Some? then None
            else FirstTrouble(world, job, [SampleCheck] + AskSpecPoints(world))
  {
    TroubleThen(world, job, Build, SpecPoints(world, job));
  }

  lemma CountTrouble(world: World, job: Row)
    ensures FirstTrouble(world, job, [Transforming, Finalizing]) ==
            if TroubleAt(world, job, Transforming).Some? then TroubleAt(world, job, Transforming)
            else TroubleAt(world, job, Finalizing)
  {
    TroubleThen(world, job, Transforming, [Finalizing]);
    TroubleOfOne(world, job, Finalizing);
    assert [Transforming] + [Finalizing] == [Transforming, Finalizing];
  }

  lemma SparkTrouble(world: World, job: Row)
    ensures var built := FirstTrouble(world, job, [Build] + SpecPoints(world, job));
            FirstTrouble(world, job, SparkPoints(world, job)) ==
            if TroubleAt(world, job, OpenSource).Some? then TroubleAt(world, job, OpenSource)
            else if built.Some? then built
            else FirstTrouble(world, job, [Transforming, Finalizing])
  {
    var building := [Build] + SpecPoints(world, job);
    TroubleThen(world, job, OpenSource, building + [Transforming, Finalizing]);
    TroubleJoins(world, job, building, [Transforming, Finalizing]);
  }

  lemma TryTrouble(world: World, job: Row)
    ensures var prepared := FirstTrouble(world, job, [FirstCheck] + PatternPoints(world, job));
            Trouble(world, job) ==
            if prepared.Some? then prepared else FirstTrouble(world, job, [SecondCheck] + SparkPoints(world, job))
  {
    var first, rest := [FirstCheck] + PatternPoints(world, job), [SecondCheck] + SparkPoints(world, job);
    assert TryPoints(world, job) == first + rest;
    TroubleJoins(world, job, first, rest);
  }

  // --- what is recorded ---

  /** The row as a started attempt finds it. */
  function Started(row: Row, at: Time): Row {
    row.(status := Running, stage := "", progress := 0, errorCode := NoError, errorMessage := "",
         startedAt := Some(at))
  }

  /** A row in which only the progress and the saved work may have changed. */
  predicate StillRuns(started: Row, row: Row) {
    row == started.(stage := row.stage, progress := row.progress,
                    pattern := row.pattern, spec := row.spec, llmCached := row.llmCached)
  }

  /** The pattern that the row holds after an attempt without trouble. */
  function PatternAfter(world: World, started: Row): string {
    if !started.transform.RegexReplace? || started.pattern != "" then started.pattern
    else AnswerTo(world, AskForPattern)
  }

  /** The specification that it holds. */
  function SpecAfter(world: World, started: Row): Option<string> {
    if started.transform.RegexReplace? || started.spec.Some? then started.spec
    else Some(AnswerTo(world, AskForSpec))
  }

  predicate HoldsWork(world: World, started: Row, row: Row) {
    row.pattern == PatternAfter(world, started) && row.spec == SpecAfter(world, started)
  }

  function AnswerTo(world: World, pc: Pc): string
    requires !pc.Over?
  {
    if world.At(pc).Answer? then world.At(pc).text else ""
  }

  /** The failure is recorded, unless recording it raises. */
  predicate FailsAs(world: World, code: ErrorCode, message: string, before: Row, after: Row, ending: Ending) {
    if world.At(Record(code, message)).Raise? then
      ending == Escaped && after == before
    else
      ending == Finished &&
      after == before.(status := Failed, errorCode := code, errorMessage := message,
                       finishedAt := Some(world.clock(Record(code, message))))
  }

  /** How a delivery of the task ends. */
  datatype Ending = Finished | Retried | Escaped

  /** What `_handle_failure` does about an exception, by its kind. */
  predicate Handles(world: World, fault: Fault, retries: nat, before: Row, after: Row, ending: Ending) {
    if world.At(Handle(fault)).Raise? then
      ending == Escaped && after == before
    else if fault.JobCancelled? || CancelRequested(before) then
      FailsAs(world, Cancelled, "The job was cancelled.", before, after, ending)
    else
      match fault
      case SoftTimeLimit =>
        if world.At(CancelSpark).Raise? then
          ending == Escaped && after == before
        else
          FailsAs(world, Timeout, "The job exceeded its time limit.", before, after, ending)
      case Domain(name, message) => FailsAs(world, FailureCode(name), message, before, after, ending)
      case Coded(name, message, retryable) =>
        if retryable && retries < 3 then
          ending == Retried && after == before
        else
          FailsAs(world, FailureCode(name), message, before, after, ending)
      case _ =>
        FailsAs(world, InternalError, "An unexpected error occurred while processing the job.", before, after, ending)
  }

  /** What the commit of a run with these counts does. */
  predicate Commits(world: World, rows: nat, matched: nat, before: Row, after: Row, ending: Ending) {
    if world.At(Commit(rows, matched)).Raise? then
      ending == Escaped && after == before
    else
      ending == Finished &&
      after == before.(status := Success, progress := 100, finishedAt := Some(world.clock(Commit(rows, matched))),
                       resultPath := RESULT_PATH, rowCount := Some(rows), matchedCount := Some(matched))
  }

  /** The end of an attempt whose `try` block has left the row as `before`. */
  predicate Settles(world: World, r: Result<(nat, nat), Fault>, retries: nat, before: Row, after: Row, ending: Ending) {
    match r
    case Ok(counts) => Commits(world, counts.0, counts.1, before, after, ending)
    case Err(fault) => Handles(world, fault, retries, before, after, ending)
  }

  function Counted(world: World): (nat, nat) {
    var counted := world.At(Finalizing);
    if counted.Stats? then (counted.rows, counted.matched) else (0, 0)
  }

  /** What the `try` block comes to. */
  function Tried(world: World, started: Row): Result<(nat, nat), Fault> {
    var trouble := Trouble(world, started);
    if trouble.Some? then Err(trouble.value) else Ok(Counted(world))
  }

  /** What one attempt, alone in this world, makes of the row it finds. */
  ghost predicate Fate(world: World, row: Row, retries: nat, after: Row, ending: Ending) {
    if world.At(Begin).Raise? then
      ending == Escaped && after == row
    else if Terminal(row.status) then
      ending == Finished && after == row
    else
      var started := Started(row, world.clock(Begin));
      if world.At(LoadJob).Raise? then
        ending == Escaped && after == started
      else
        exists before ::
          && WorksTo(world, started, before)
          && Settles(world, Tried(world, started), retries, before, after, ending)
  }

  /** What the `try` block leaves of the row. */
  predicate WorksTo(world: World, started: Row, before: Row) {
    StillRuns(started, before) && (Trouble(world, started).None? ==> HoldsWork(world, started, before))
  }

  /** An attempt leaves a queued or running job as a success only when nothing went wrong, and then with
      the counts, the path, the percentage, the time and the work of this very run. */
  lemma SuccessIsThisRun(world: World, row: Row, retries: nat, after: Row, ending: Ending)
    requires Fate(world, row, retries, after, ending) && !Terminal(row.status) && after.status == Success
    ensures var started := Started(row, world.clock(Begin));
            var counts := Counted(world);
            && ending == Finished && Trouble(world, started).None?
            && world.At(Finalizing) == Stats(counts.0, counts.1)
            && after.rowCount == Some(counts.0) && after.matchedCount == Some(counts.1)
            && after.resultPath == RESULT_PATH && after.progress == 100
            && after.startedAt == Some(world.clock(Begin))
            && after.finishedAt == Some(world.clock(Commit(counts.0, counts.1)))
            && after.errorCode == NoError && after.errorMessage == ""
            && HoldsWork(world, started, after)
  {
    var started := Started(row, world.clock(Begin));
    LastPoint(world, started);
  }

  /** Without trouble the counts were collected. */
  lemma LastPoint(world: World, job: Row)
    ensures Trouble(world, job).None? ==> world.At(Finalizing).Stats?
  {
    var spark := [OpenSource] + ([Build] + SpecPoints(world, job) + [Transforming]);
    var start := [FirstCheck] + (PatternPoints(world, job) + ([SecondCheck] + spark));
    assert TryPoints(world, job) == start + [Finalizing];
    TroubleJoins(world, job, start, [Finalizing]);
    TroubleOfOne(world, job, Finalizing);
  }

  lemma FailureIsHandled(world: World, fault: Fault, retries: nat, before: Row, after: Row, ending: Ending)
    requires Handles(world, fault, retries, before, after, ending)
    requires before.status == Running && after.status == Failed
    ensures ending == Finished
    ensures after.errorCode == Cancelled <==> CancelRequested(before) || fault == JobCancelled
    ensures after.errorCode == Timeout ==> fault == SoftTimeLimit
    ensures after.errorCode == InternalError ==> fault == Unexpected
    ensures after.finishedAt == Some(world.clock(Record(after.errorCode, after.errorMessage)))
  {
  }

  lemma {:induction false} CancelledByFlag(world: World, job: Row, points: seq<Pc>)
    requires AllPoints(points) && FirstTrouble(world, job, points) == Some(JobCancelled)
    ensures CancelRequested(job)
  {
    if TroubleAt(world, job, points[0]).None? {
      CancelledByFlag(world, job, points[1..]);
    }
  }

  /** An attempt leaves a failed job only when something went wrong, with the code that goes with it:
      CANCELLED exactly when a cancel request had been recorded. */
  lemma FailureIsThisFault(world: World, row: Row, retries: nat, after: Row, ending: Ending)
    requires Fate(world, row, retries, after, ending) && !Terminal(row.status) && after.status == Failed
    ensures var trouble := Trouble(world, Started(row, world.clock(Begin)));
            && ending == Finished && trouble.Some?
            && (after.errorCode == Cancelled <==> CancelRequested(row))
            && (after.errorCode == Timeout ==> trouble.value == SoftTimeLimit)
            && (after.errorCode == InternalError ==> trouble.value == Unexpected)
            && after.finishedAt == Some(world.clock(Record(after.errorCode, after.errorMessage)))
  {
    var started := Started(row, world.clock(Begin));
    var before :| WorksTo(world, started, before)
      && Settles(world, Tried(world, started), retries, before, after, ending);
    var trouble := Trouble(world, started).value;
    FailureIsHandled(world, trouble, retries, before, after, ending);
    if trouble == JobCancelled {
      CancelledByFlag(world, started, TryPoints(world, started));
    }
  }

  /** An attempt is retried only after a retryable failure of an uncancelled job, three times at most,
      and the row then stays running. */
  lemma RetryIsTransient(world: World, row: Row, retries: nat, after: Row, ending: Ending)
    requires Fate(world, row, retries, after, ending) && ending == Retried
    ensures var trouble := Trouble(world, Started(row, world.clock(Begin)));
            && trouble.Some? && trouble.value.Coded? && trouble.value.retryable && retries < 3
            && !CancelRequested(row) && after.status == Running
  {
  }
}
