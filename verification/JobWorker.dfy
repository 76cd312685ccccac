/** The task and the cancel call as the program runs them, one statement after another
    (backend/apps/jobs/tasks.py, lines 54-204; transform_builders.py, lines 48-108; services.py,
    lines 88-112), each proved to be a run of the job protocol. */
module JobWorker {
  import opened Wrappers
  import opened JobRow
  import opened JobProtocol
  import opened JobFate
  import opened Progress

  /** The steps of a lone attempt in a world: what it does is decided by the world, except for the
      progress writes in between. */
  predicate Allows(world: World, s: System, step: Step)
    requires Enabled(s, step)
  {
    match step
    case Act(i, r, now) =>
      i == 0 && r == world.At(s.attempts[0].pc) && now == world.clock(s.attempts[0].pc)
    case Emit(_, _) => true
    case _ => false
  }

  ghost predicate Follows(world: World, s: System, steps: seq<Step>)
    requires Possible(s, steps)
    decreases |steps|
  {
    steps == [] || (Allows(world, s, steps[0]) && Follows(world, Next(s, steps[0]), steps[1..]))
  }

  /** Some run in this world leads from one state to the other. */
  ghost predicate Executes(world: World, s0: System, s: System) {
    exists steps :: Possible(s0, steps) && Follows(world, s0, steps) && Run(s0, steps) == s
  }

  lemma {:induction false} FollowsThenStep(world: World, s: System, steps: seq<Step>, step: Step)
    requires Possible(s, steps) && Follows(world, s, steps)
    requires Enabled(Run(s, steps), step) && Allows(world, Run(s, steps), step)
    ensures Possible(s, steps + [step]) && Follows(world, s, steps + [step])
    ensures Run(s, steps + [step]) == Next(Run(s, steps), step)
    decreases |steps|
  {
    RunThenStep(s, steps, step);
    if steps == [] {
      assert [step][1..] == [];
    } else {
      assert (steps + [step])[1..] == steps[1..] + [step];
      FollowsThenStep(world, Next(s, steps[0]), steps[1..], step);
    }
  }

  lemma NoStep(world: World, s: System)
    ensures Executes(world, s, s)
  {
    assert Possible(s, []) && Follows(world, s, []) && Run(s, []) == s;
  }

  lemma OneMore(world: World, s0: System, s: System, step: Step)
    requires Executes(world, s0, s) && Enabled(s, step) && Allows(world, s, step)
    ensures Executes(world, s0, Next(s, step))
  {
    var steps :| Possible(s0, steps) && Follows(world, s0, steps) && Run(s0, steps) == s;
    FollowsThenStep(world, s0, steps, step);
  }

  /** An attempt on its own: the only delivery of the task, and no cancel call. */
  function Alone(row: Row, retries: nat): System {
    System(row, [FreshAttempt(retries, row)], [], 0, 0, 0)
  }

  /** `s` is reached from `s0`, and is where the program is: the row, the loaded job, the point. */
  ghost predicate Traces(world: World, s0: System, s: System, row: Row, loaded: Row, pc: Pc) {
    && Executes(world, s0, s)
    && s.row == row
    && |s.attempts| == 1
    && |s0.attempts| == 1
    && s.attempts[0].pc == pc
    && s.attempts[0].job == loaded
    && s.attempts[0].retries == s0.attempts[0].retries
    && !s.attempts[0].escaped
  }

  /** What the attempt is going to apply: its pattern, or its specification. */
  function ToApply(a: Attempt): Option<string> {
    if a.job.transform.RegexReplace? then a.resolved else a.spec
  }

  /** Where the `try` block leads: to the commit of its counts, or to the handler. */
  function AfterTry(r: Result<(nat, nat), Fault>): Pc {
    if r.Ok? then Commit(r.value.0, r.value.1) else Handle(r.error)
  }

  function ErrorOf<T>(r: Result<T, Fault>): Option<Fault> {
    if r.Err? then Some(r.error) else None
  }

  /** Both attempts have resolved the same. */
  predicate SameWork(a: Attempt, b: Attempt) {
    a.resolved == b.resolved && a.spec == b.spec
  }

  /** The state after the attempt's next step. */
  lemma Acted(world: World, s0: System, s: System) returns (after: System)
    requires Executes(world, s0, s) && |s.attempts| == 1 && !s.attempts[0].pc.Over?
    requires Scheduled(s.row, s.attempts[0], world.At(s.attempts[0].pc)) == []
    ensures Executes(world, s0, after)
    ensures var (row, a) := ActOnce(s.row, s.attempts[0], world.At(s.attempts[0].pc), world.clock(s.attempts[0].pc));
            after.row == row && after.attempts == [a]
  {
    var pc := s.attempts[0].pc;
    var step := Act(0, world.At(pc), world.clock(pc));
    OneMore(world, s0, s, step);
    after := Next(s, step);
  }

  lemma Moved(world: World, s0: System, s: System, row: Row, loaded: Row, pc: Pc) returns (after: System)
    requires Traces(world, s0, s, row, loaded, pc) && !pc.LoadJob? && !pc.Over?
    requires InTry(pc) || !world.At(pc).Raise?
    requires Scheduled(row, s.attempts[0], world.At(pc)) == []
    ensures var (row', a) := ActOnce(row, s.attempts[0], world.At(pc), world.clock(pc));
            Traces(world, s0, after, row', loaded, a.pc) && after.attempts == [a]
  {
    after := Acted(world, s0, s);
  }

  ghost predicate Ended(world: World, s0: System, s: System, row: Row, retries: nat, ending: Ending) {
    && Executes(world, s0, s)
    && s.row == row
    && s.attempts != []
    && s.attempts[0].pc == Over
    && s.attempts[0].escaped == ending.Escaped?
    && s.attempts[1..] == if ending.Retried? then [FreshAttempt(retries + 1, row)] else []
  }

  /** An exception outside the `try` block leaves the task and the row as they are. */
  lemma Left(world: World, s0: System, s: System, retries: nat) returns (after: System)
    requires Executes(world, s0, s) && |s.attempts| == 1 && !s.attempts[0].pc.Over?
    requires !InTry(s.attempts[0].pc) && world.At(s.attempts[0].pc).Raise?
    ensures Ended(world, s0, after, s.row, retries, Escaped)
  {
    after := Acted(world, s0, s);
  }

  /** `progress.enter_stage`, whose callback writes the stage and the percentage to the row. */
  method EnterStage(job: JobRecord, tracker: ProgressTracker, stage: string, at: real, loaded: Row, ghost pc: Pc,
                    ghost world: World, ghost s0: System, ghost s: System) returns (ghost after: System)
    requires stage in STAGE_RANGES && tracker.percent <= 99
    requires Traces(world, s0, s, job.Snapshot(), loaded, pc)
    modifies job`stage, job`progress, tracker
    ensures tracker.percent <= 99
    ensures tracker.State() == Entered(old(tracker.State()), stage, at)
    ensures job.Snapshot() == AfterProgress(old(job.Snapshot()), stage, tracker.percent)
    ensures Traces(world, s0, after, job.Snapshot(), loaded, pc) && after.attempts == s.attempts
  {
    var known := tracker.EnterStage(stage, at);
    job.UpdateProgress(stage, tracker.percent);
    OneMore(world, s0, s, Emit(stage, tracker.percent));
    after := Next(s, Emit(stage, tracker.percent));
  }

  /** `raise_if_cancel_requested`, or the exception the world raises at this point. */
  method RaiseIfCancelRequested(job: JobRecord, loaded: Row, world: World, pc: Pc, ghost next: Pc,
                                ghost s0: System, ghost s: System) returns (fault: Option<Fault>, ghost after: System)
    requires pc.FirstCheck? || pc.SecondCheck? || pc.SampleCheck? || pc.SpecCheck?
    requires Traces(world, s0, s, job.Snapshot(), loaded, pc)
    requires next == match pc
                     case FirstCheck => if loaded.transform.RegexReplace? then Resolve else SecondCheck
                     case SecondCheck => OpenSource
                     case SampleCheck => AskForSpec
                     case _ => Transforming
    ensures loaded.cancelRequestedAt == job.cancelRequestedAt ==> fault == TroubleAt(world, loaded, pc)
    ensures world.At(pc).Raise? ==> fault == Some(world.At(pc).fault)
    ensures !world.At(pc).Raise? ==> fault == if CancelRequested(job.Snapshot()) then Some(JobCancelled) else None
    ensures Traces(world, s0, after, job.Snapshot(), loaded, if fault.Some? then Handle(fault.value) else next)
    ensures SameWork(after.attempts[0], s.attempts[0])
  {
    var reply := world.At(pc);
    after := Moved(world, s0, s, job.Snapshot(), loaded, pc);
    if reply.Raise? {
      return Some(reply.fault), after;
    }
    var requested := job.IsCancelRequested();
    fault := if requested then Some(JobCancelled) else None;
  }

  /** `_resolve_pattern`: the stored pattern, or one that is generated and saved. */
  method ResolvePattern(job: JobRecord, tracker: ProgressTracker, loaded: Row, world: World, ghost s0: System,
                        ghost s: System)
    returns (r: Result<string, Fault>, ghost after: System)
    requires tracker.percent <= 99
    requires Traces(world, s0, s, job.Snapshot(), loaded, Resolve)
    requires loaded.cancelRequestedAt == job.cancelRequestedAt && loaded.transform.RegexReplace?
    requires loaded.pattern == job.pattern
    modifies job`stage, job`progress, job`pattern, job`llmCached, tracker
    ensures tracker.percent <= 99
    ensures Traces(world, s0, after, job.Snapshot(), loaded, if r.Ok? then SecondCheck else Handle(r.error))
    ensures r.Ok? ==> after.attempts[0].resolved == Some(r.value)
    ensures r.Ok? && loaded.pattern != "" ==> r.value == loaded.pattern
    ensures r.Ok? && loaded.pattern == "" ==> r.value == job.pattern
    ensures ErrorOf(r) == FirstTrouble(world, loaded, PatternPoints(world, loaded))
    ensures r.Ok? ==> job.pattern == PatternAfter(world, loaded)
  {
    PatternTrouble(world, loaded);
    var reply := world.At(Resolve);
    after := Moved(world, s0, s, job.Snapshot(), loaded, Resolve);
    if reply.Raise? {
      return Err(reply.fault), after;
    }
    if loaded.pattern != "" {
      return Ok(loaded.pattern), after;
    }
    if loaded.nlPrompt == "" {
      return Err(NEITHER_PATTERN_NOR_PROMPT), after;
    }
    after := EnterStage(job, tracker, "GENERATING_REGEX", world.clock(Resolve) as real, loaded, AskForPattern,
                        world, s0, after);
    r, after := AskAndKeepPattern(job, loaded, world, s0, after);
  }

  /** The pattern is saved as soon as it is there, so that a retry finds it. */
  method AskAndKeepPattern(job: JobRecord, loaded: Row, world: World, ghost s0: System, ghost s: System)
    returns (r: Result<string, Fault>, ghost after: System)
    requires Traces(world, s0, s, job.Snapshot(), loaded, AskForPattern)
    requires loaded.cancelRequestedAt == job.cancelRequestedAt
    modifies job`pattern, job`llmCached
    ensures Traces(world, s0, after, job.Snapshot(), loaded, if r.Ok? then SecondCheck else Handle(r.error))
    ensures r.Ok? ==> after.attempts[0].resolved == Some(r.value) && job.pattern == r.value
    ensures r.Err? ==> job.Snapshot() == old(job.Snapshot())
    ensures ErrorOf(r) == FirstTrouble(world, loaded, AskPatternPoints(world))
    ensures r.Ok? ==> r.value == AnswerTo(world, AskForPattern)
  {
    AskPatternTrouble(world, loaded);
    var generated := world.At(AskForPattern);
    after := Moved(world, s0, s, job.Snapshot(), loaded, AskForPattern);
    if generated.Raise? {
      return Err(generated.fault), after;
    }
    var point := SavePattern(generated.text, generated.cached);
    var saved := world.At(point);
    after := Moved(world, s0, after, job.Snapshot(), loaded, point);
    if saved.Raise? {
      return Err(saved.fault), after;
    }
    job.SavePattern(generated.text, generated.cached);
    r := Ok(generated.text);
  }

  /** `_generate_spec`: samples were taken; check, ask, save, check again. */
  method GenerateSpec(job: JobRecord, tracker: ProgressTracker, loaded: Row, world: World, ghost s0: System,
                      ghost s: System)
    returns (r: Result<string, Fault>, ghost after: System)
    requires tracker.percent <= 99
    requires Traces(world, s0, s, job.Snapshot(), loaded, SampleCheck)
    requires loaded.cancelRequestedAt == job.cancelRequestedAt
    modifies job`stage, job`progress, job`spec, job`llmCached, tracker
    ensures tracker.percent <= 99
    ensures Traces(world, s0, after, job.Snapshot(), loaded, if r.Ok? then Transforming else Handle(r.error))
    ensures r.Ok? ==> after.attempts[0].spec == Some(r.value) && job.spec == Some(r.value)
    ensures ErrorOf(r) == FirstTrouble(world, loaded, [SampleCheck] + AskSpecPoints(world))
    ensures r.Ok? ==> r.value == AnswerTo(world, AskForSpec)
  {
    TroubleThen(world, loaded, SampleCheck, AskSpecPoints(world));
    var fault;
    fault, after := RaiseIfCancelRequested(job, loaded, world, SampleCheck, AskForSpec, s0, s);
    if fault.Some? {
      return Err(fault.value), after;
    }
    after := EnterStage(job, tracker, "GENERATING_SPEC", world.clock(SampleCheck) as real, loaded, AskForSpec,
                        world, s0, after);
    r, after := AskAndKeepSpec(job, loaded, world, s0, after);
  }

  method AskAndKeepSpec(job: JobRecord, loaded: Row, world: World, ghost s0: System, ghost s: System)
    returns (r: Result<string, Fault>, ghost after: System)
    requires Traces(world, s0, s, job.Snapshot(), loaded, AskForSpec)
    requires loaded.cancelRequestedAt == job.cancelRequestedAt
    modifies job`spec, job`llmCached
    ensures Traces(world, s0, after, job.Snapshot(), loaded, if r.Ok? then Transforming else Handle(r.error))
    ensures r.Ok? ==> after.attempts[0].spec == Some(r.value) && job.spec == Some(r.value)
    ensures ErrorOf(r) == FirstTrouble(world, loaded, AskSpecPoints(world))
    ensures r.Ok? ==> r.value == AnswerTo(world, AskForSpec)
  {
    AskSpecTrouble(world, loaded);
    var generated := world.At(AskForSpec);
    after := Moved(world, s0, s, job.Snapshot(), loaded, AskForSpec);
    if generated.Raise? {
      return Err(generated.fault), after;
    }
    r, after := KeepSpec(job, loaded, generated.text, generated.cached, world, s0, after);
  }

  /** The specification is saved before the last check: it is in the row even when that check, or
      anything else after the save, raises. */
  method KeepSpec(job: JobRecord, loaded: Row, text: string, cached: bool, world: World, ghost s0: System,
                  ghost s: System)
    returns (r: Result<string, Fault>, ghost after: System)
    requires Traces(world, s0, s, job.Snapshot(), loaded, SaveSpec(text, cached))
    requires loaded.cancelRequestedAt == job.cancelRequestedAt
    modifies job`spec, job`llmCached
    ensures Traces(world, s0, after, job.Snapshot(), loaded, if r.Ok? then Transforming else Handle(r.error))
    ensures if world.At(SaveSpec(text, cached)).Raise? then
              job.Snapshot() == old(job.Snapshot())
            else
              job.Snapshot() == old(job.Snapshot()).(spec := Some(text), llmCached := Some(cached))
    ensures r.Ok? ==> r.value == text && after.attempts[0].spec == Some(text)
    ensures r.Ok? ==> !world.At(SaveSpec(text, cached)).Raise?
    ensures ErrorOf(r) == FirstTrouble(world, loaded, [SaveSpec(text, cached), SpecCheck])
  {
    KeepSpecTrouble(world, loaded, text, cached);
    var point := SaveSpec(text, cached);
    var saved := world.At(point);
    after := Moved(world, s0, s, job.Snapshot(), loaded, point);
    if saved.Raise? {
      return Err(saved.fault), after;
    }
    job.SaveSpec(text, cached);
    var fault;
    fault, after := RaiseIfCancelRequested(job, loaded, world, SpecCheck, Transforming, s0, after);
    r := if fault.Some? then Err(fault.value) else Ok(text);
  }

  /** The builder of the job's transformation: its pattern, its saved specification, or a new one. */
  method BuildTransform(job: JobRecord, tracker: ProgressTracker, loaded: Row, pattern: Option<string>, world: World,
                        ghost s0: System, ghost s: System)
    returns (r: Result<string, Fault>, ghost after: System)
    requires tracker.percent <= 99
    requires Traces(world, s0, s, job.Snapshot(), loaded, Build)
    requires loaded.cancelRequestedAt == job.cancelRequestedAt && loaded.spec == job.spec
    requires loaded.transform.RegexReplace? ==> pattern.Some? && pattern == s.attempts[0].resolved
    modifies job`stage, job`progress, job`spec, job`llmCached, tracker
    ensures tracker.percent <= 99
    ensures Traces(world, s0, after, job.Snapshot(), loaded, if r.Ok? then Transforming else Handle(r.error))
    ensures r.Ok? ==> ToApply(after.attempts[0]) == Some(r.value)
    ensures r.Ok? ==> Some(r.value) == if loaded.transform.RegexReplace? then pattern
                                       else if loaded.spec.Some? then loaded.spec else job.spec
    ensures ErrorOf(r) == FirstTrouble(world, loaded, [Build] + SpecPoints(world, loaded))
    ensures r.Ok? ==> job.spec == SpecAfter(world, loaded)
  {
    BuildTrouble(world, loaded);
    var reply := world.At(Build);
    after := Moved(world, s0, s, job.Snapshot(), loaded, Build);
    if reply.Raise? {
      return Err(reply.fault), after;
    }
    if loaded.transform.RegexReplace? {
      r := Ok(pattern.value);
    } else if loaded.spec.Some? {
      r := Ok(loaded.spec.value);
    } else {
      r, after := GenerateSpec(job, tracker, loaded, world, s0, after);
    }
  }

  /** `_run_spark` and `run_transform`: open the source, build, transform, collect the counts. */
  method RunSpark(job: JobRecord, tracker: ProgressTracker, loaded: Row, pattern: Option<string>, world: World,
                  ghost s0: System, ghost s: System)
    returns (r: Result<(nat, nat), Fault>, ghost after: System)
    requires tracker.percent <= 99
    requires Traces(world, s0, s, job.Snapshot(), loaded, OpenSource)
    requires loaded.cancelRequestedAt == job.cancelRequestedAt && loaded.spec == job.spec
    requires loaded.transform.RegexReplace? ==> pattern.Some? && pattern == s.attempts[0].resolved
    modifies job`stage, job`progress, job`spec, job`llmCached, tracker
    ensures tracker.percent <= 99
    ensures Traces(world, s0, after, job.Snapshot(), loaded, AfterTry(r))
    ensures ErrorOf(r) == FirstTrouble(world, loaded, SparkPoints(world, loaded))
    ensures r.Ok? ==> r.value == Counted(world)
    ensures r.Ok? ==> job.spec == SpecAfter(world, loaded)
  {
    SparkTrouble(world, loaded);
    var fault;
    fault, after := OpenTheSource(job, tracker, loaded, world, s0, s);
    if fault.Some? {
      return Err(fault.value), after;
    }
    var built;
    built, after := BuildTransform(job, tracker, loaded, pattern, world, s0, after);
    if built.Err? {
      return Err(built.error), after;
    }
    r, after := TransformAndCount(job, tracker, loaded, built.value, world, s0, after);
  }

  /** The credentials, the session and the source file. */
  method OpenTheSource(job: JobRecord, tracker: ProgressTracker, loaded: Row, world: World, ghost s0: System,
                       ghost s: System)
    returns (fault: Option<Fault>, ghost after: System)
    requires tracker.percent <= 99
    requires Traces(world, s0, s, job.Snapshot(), loaded, OpenSource)
    modifies job`stage, job`progress, tracker
    ensures tracker.percent <= 99
    ensures fault == TroubleAt(world, loaded, OpenSource)
    ensures Traces(world, s0, after, job.Snapshot(), loaded, if fault.Some? then Handle(fault.value) else Build)
    ensures SameWork(after.attempts[0], s.attempts[0])
  {
    after := EnterStage(job, tracker, "LOADING", world.clock(OpenSource) as real, loaded, OpenSource, world, s0, s);
    var answer := world.At(OpenSource);
    after := Moved(world, s0, after, job.Snapshot(), loaded, OpenSource);
    fault := if answer.Raise? then Some(answer.fault) else None;
  }

  /** The pass over the data, which applies `work`, and the counts. */
  method TransformAndCount(job: JobRecord, tracker: ProgressTracker, loaded: Row, work: string, world: World,
                           ghost s0: System, ghost s: System)
    returns (r: Result<(nat, nat), Fault>, ghost after: System)
    requires tracker.percent <= 99
    requires Traces(world, s0, s, job.Snapshot(), loaded, Transforming)
    requires loaded.cancelRequestedAt == job.cancelRequestedAt
    requires ToApply(s.attempts[0]) == Some(work)
    modifies job`stage, job`progress, tracker
    ensures tracker.percent <= 99
    ensures Traces(world, s0, after, job.Snapshot(), loaded, AfterTry(r))
    ensures ToApply(after.attempts[0]) == Some(work)
    ensures ErrorOf(r) == FirstTrouble(world, loaded, [Transforming, Finalizing])
    ensures r.Ok? ==> r.value == Counted(world)
  {
    CountTrouble(world, loaded);
    after := EnterStage(job, tracker, "TRANSFORMING", world.clock(Build) as real, loaded, Transforming, world, s0, s);
    var fault;
    fault, after := PassOverData(job, loaded, work, world, s0, after);
    if fault.Some? {
      return Err(fault.value), after;
    }
    r, after := CollectStats(job, tracker, loaded, world, s0, after);
  }

  method PassOverData(job: JobRecord, loaded: Row, work: string, world: World, ghost s0: System, ghost s: System)
    returns (fault: Option<Fault>, ghost after: System)
    requires Traces(world, s0, s, job.Snapshot(), loaded, Transforming)
    requires ToApply(s.attempts[0]) == Some(work)
    ensures fault == if world.At(Transforming).Raise? then Some(world.At(Transforming).fault) else None
    ensures Traces(world, s0, after, job.Snapshot(), loaded, if fault.Some? then Handle(fault.value) else Finalizing)
    ensures ToApply(after.attempts[0]) == Some(work)
  {
    var written := world.At(Transforming);
    after := Moved(world, s0, s, job.Snapshot(), loaded, Transforming);
    fault := if written.Raise? then Some(written.fault) else None;
  }

  method CollectStats(job: JobRecord, tracker: ProgressTracker, loaded: Row, world: World, ghost s0: System,
                      ghost s: System)
    returns (r: Result<(nat, nat), Fault>, ghost after: System)
    requires tracker.percent <= 99
    requires Traces(world, s0, s, job.Snapshot(), loaded, Finalizing)
    requires loaded.cancelRequestedAt == job.cancelRequestedAt
    modifies job`stage, job`progress, tracker
    ensures tracker.percent <= 99
    ensures Traces(world, s0, after, job.Snapshot(), loaded, AfterTry(r))
    ensures SameWork(after.attempts[0], s.attempts[0])
    ensures ErrorOf(r) == TroubleAt(world, loaded, Finalizing)
    ensures r.Ok? ==> r.value == Counted(world)
  {
    after := EnterStage(job, tracker, "FINALIZING", world.clock(Transforming) as real, loaded, Finalizing,
                        world, s0, s);
    r, after := ReadCounts(job, loaded, world, s0, after);
  }

  method ReadCounts(job: JobRecord, loaded: Row, world: World, ghost s0: System, ghost s: System)
    returns (r: Result<(nat, nat), Fault>, ghost after: System)
    requires Traces(world, s0, s, job.Snapshot(), loaded, Finalizing)
    ensures var counted := world.At(Finalizing);
            r == if counted.Raise? then Err(counted.fault) else Ok((counted.rows, counted.matched))
    ensures Traces(world, s0, after, job.Snapshot(), loaded, AfterTry(r))
    ensures SameWork(after.attempts[0], s.attempts[0])
  {
    var counted := world.At(Finalizing);
    after := Moved(world, s0, s, job.Snapshot(), loaded, Finalizing);
    r := if counted.Raise? then Err(counted.fault) else Ok((counted.rows, counted.matched));
  }

  /** The first check, and the pattern of a find-and-replace job. */
  method PreparePattern(job: JobRecord, tracker: ProgressTracker, loaded: Row, world: World, ghost s0: System,
                        ghost s: System)
    returns (r: Result<Option<string>, Fault>, ghost after: System)
    requires tracker.percent <= 99
    requires Traces(world, s0, s, job.Snapshot(), loaded, FirstCheck)
    requires loaded.cancelRequestedAt == job.cancelRequestedAt && loaded.pattern == job.pattern
    modifies job`stage, job`progress, job`pattern, job`llmCached, tracker
    ensures tracker.percent <= 99
    ensures Traces(world, s0, after, job.Snapshot(), loaded, if r.Ok? then SecondCheck else Handle(r.error))
    ensures r.Ok? && loaded.transform.RegexReplace? ==> r.value.Some? && r.value == after.attempts[0].resolved
    ensures r.Ok? ==> job.pattern == PatternAfter(world, loaded)
    ensures ErrorOf(r) == FirstTrouble(world, loaded, [FirstCheck] + PatternPoints(world, loaded))
  {
    TroubleThen(world, loaded, FirstCheck, PatternPoints(world, loaded));
    var fault;
    fault, after := RaiseIfCancelRequested(job, loaded, world, FirstCheck,
                                           if loaded.transform.RegexReplace? then Resolve else SecondCheck, s0, s);
    if fault.Some? {
      return Err(fault.value), after;
    }
    if !loaded.transform.RegexReplace? {
      return Ok(None), after;
    }
    var resolved;
    resolved, after := ResolvePattern(job, tracker, loaded, world, s0, after);
    r := if resolved.Ok? then Ok(Some(resolved.value)) else Err(resolved.error);
  }

  /** The second check and the run. */
  method CheckAndRunSpark(job: JobRecord, tracker: ProgressTracker, loaded: Row, pattern: Option<string>, world: World,
                          ghost s0: System, ghost s: System)
    returns (r: Result<(nat, nat), Fault>, ghost after: System)
    requires tracker.percent <= 99
    requires Traces(world, s0, s, job.Snapshot(), loaded, SecondCheck)
    requires loaded.cancelRequestedAt == job.cancelRequestedAt && loaded.spec == job.spec
    requires loaded.transform.RegexReplace? ==> pattern.Some? && pattern == s.attempts[0].resolved
    modifies job`stage, job`progress, job`spec, job`llmCached, tracker
    ensures Traces(world, s0, after, job.Snapshot(), loaded, AfterTry(r))
    ensures ErrorOf(r) == FirstTrouble(world, loaded, [SecondCheck] + SparkPoints(world, loaded))
    ensures r.Ok? ==> r.value == Counted(world) && job.spec == SpecAfter(world, loaded)
  {
    TroubleThen(world, loaded, SecondCheck, SparkPoints(world, loaded));
    var fault;
    fault, after := RaiseIfCancelRequested(job, loaded, world, SecondCheck, OpenSource, s0, s);
    if fault.Some? {
      return Err(fault.value), after;
    }
    r, after := RunSpark(job, tracker, loaded, pattern, world, s0, after);
  }

  /** The `try` block of `run_job`. */
  method Attempted(job: JobRecord, tracker: ProgressTracker, loaded: Row, world: World, ghost s0: System,
                   ghost s: System)
    returns (r: Result<(nat, nat), Fault>, ghost after: System)
    requires tracker.percent <= 99
    requires Traces(world, s0, s, job.Snapshot(), loaded, FirstCheck)
    requires job.Snapshot() == loaded
    modifies job`stage, job`progress, job`pattern, job`spec, job`llmCached, tracker
    ensures Traces(world, s0, after, job.Snapshot(), loaded, AfterTry(r))
    ensures r == Tried(world, loaded)
    ensures r.Ok? ==> HoldsWork(world, loaded, job.Snapshot())
  {
    TryTrouble(world, loaded);
    var pattern;
    pattern, after := PreparePattern(job, tracker, loaded, world, s0, s);
    if pattern.Err? {
      return Err(pattern.error), after;
    }
    r, after := CheckAndRunSpark(job, tracker, loaded, pattern.value, world, s0, after);
  }

  /** `_fail`, which can itself raise. */
  method Fail(job: JobRecord, loaded: Row, code: ErrorCode, message: string, retries: nat, world: World,
              ghost s0: System, ghost s: System) returns (ending: Ending, ghost after: System)
    requires Traces(world, s0, s, job.Snapshot(), loaded, Record(code, message))
    requires job.status == Running
    modifies job
    ensures Ended(world, s0, after, job.Snapshot(), retries, ending)
    ensures !ending.Retried? && (ending.Escaped? <==> world.At(Record(code, message)).Raise?)
    ensures ending.Escaped? ==> job.Snapshot() == old(job.Snapshot())
    ensures FailsAs(world, code, message, old(job.Snapshot()), job.Snapshot(), ending)
  {
    var point := Record(code, message);
    if world.At(point).Raise? {
      after := Left(world, s0, s, retries);
      return Escaped, after;
    }
    after := Moved(world, s0, s, job.Snapshot(), loaded, point);
    var updated := job.Transition(Failed, None, FailFields(code, message, world.clock(point)));
    ending := Finished;
  }

  /** The timeout branch of `_handle_failure`: stop Spark, then record the failure. */
  method FailAfterTimeout(job: JobRecord, loaded: Row, retries: nat, world: World, ghost s0: System, ghost s: System)
    returns (ending: Ending, ghost after: System)
    requires Traces(world, s0, s, job.Snapshot(), loaded, CancelSpark)
    requires job.status == Running
    modifies job
    ensures Ended(world, s0, after, job.Snapshot(), retries, ending)
    ensures !ending.Retried?
    ensures world.At(CancelSpark).Raise? ==> ending.Escaped? && job.Snapshot() == old(job.Snapshot())
    ensures !world.At(CancelSpark).Raise? ==>
              FailsAs(world, Timeout, "The job exceeded its time limit.", old(job.Snapshot()), job.Snapshot(), ending)
  {
    if world.At(CancelSpark).Raise? {
      after := Left(world, s0, s, retries);
      return Escaped, after;
    }
    after := Moved(world, s0, s, job.Snapshot(), loaded, CancelSpark);
    ending, after := Fail(job, loaded, Timeout, TIMEOUT_RECORD.message, retries, world, s0, after);
  }

  lemma Scheduling(world: World, s0: System, s: System, row: Row, loaded: Row, fault: Fault) returns (after: System)
    requires Traces(world, s0, s, row, loaded, Handle(fault)) && !world.At(Handle(fault)).Raise?
    requires FailureRecord(row, fault, s.attempts[0].retries).None?
    ensures Ended(world, s0, after, row, s.attempts[0].retries, Retried)
  {
    var step := Act(0, world.At(Handle(fault)), world.clock(Handle(fault)));
    OneMore(world, s0, s, step);
    after := Next(s, step);
  }

  lemma Handled(world: World, s0: System, s: System, row: Row, loaded: Row, fault: Fault, next: Pc)
    returns (after: System)
    requires Traces(world, s0, s, row, loaded, Handle(fault)) && !world.At(Handle(fault)).Raise?
    requires FailureRecord(row, fault, s.attempts[0].retries) == Some(next)
    ensures Traces(world, s0, after, row, loaded, next)
  {
    after := Moved(world, s0, s, row, loaded, Handle(fault));
  }

  /** `_handle_failure`: records why the job failed, schedules a retry, or raises itself. */
  method HandleFailure(job: JobRecord, loaded: Row, fault: Fault, retries: nat, world: World, ghost s0: System,
                       ghost s: System)
    returns (ending: Ending, ghost after: System)
    requires Traces(world, s0, s, job.Snapshot(), loaded, Handle(fault)) && s.attempts[0].retries == retries
    requires job.status == Running
    modifies job
    ensures Ended(world, s0, after, job.Snapshot(), retries, ending)
    ensures ending.Retried? ==> retries < MAX_TRANSIENT_RETRIES && job.Snapshot() == old(job.Snapshot())
    ensures Handles(world, fault, retries, old(job.Snapshot()), job.Snapshot(), ending)
  {
    if world.At(Handle(fault)).Raise? {
      after := Left(world, s0, s, retries);
      return Escaped, after;
    }
    var requested := job.IsCancelRequested();
    ghost var row := job.Snapshot();
    if fault.JobCancelled? || requested {
      after := Handled(world, s0, s, row, loaded, fault, Record(Cancelled, CANCELLED_MESSAGE));
      ending, after := Fail(job, loaded, Cancelled, CANCELLED_MESSAGE, retries, world, s0, after);
    } else if fault.SoftTimeLimit? {
      after := Handled(world, s0, s, row, loaded, fault, CancelSpark);
      ending, after := FailAfterTimeout(job, loaded, retries, world, s0, after);
    } else if fault.Domain? {
      after := Handled(world, s0, s, row, loaded, fault, Record(FailureCode(fault.name), fault.message));
      ending, after := Fail(job, loaded, FailureCode(fault.name), fault.message, retries, world, s0, after);
    } else if fault.Coded? {
      if fault.retryable && retries < MAX_TRANSIENT_RETRIES {
        after := Scheduling(world, s0, s, row, loaded, fault);
        return Retried, after;
      }
      after := Handled(world, s0, s, row, loaded, fault, Record(FailureCode(fault.name), fault.message));
      ending, after := Fail(job, loaded, FailureCode(fault.name), fault.message, retries, world, s0, after);
    } else {
      after := Handled(world, s0, s, row, loaded, fault, INTERNAL_RECORD);
      ending, after := Fail(job, loaded, InternalError, INTERNAL_RECORD.message, retries, world, s0, after);
    }
  }

  /** The rest of `run_job` once its work has succeeded or raised. */
  method Settle(job: JobRecord, loaded: Row, r: Result<(nat, nat), Fault>, retries: nat, world: World,
                ghost s0: System, ghost s: System) returns (ending: Ending, ghost after: System)
    requires Traces(world, s0, s, job.Snapshot(), loaded, AfterTry(r))
    requires job.status == Running
    requires s.attempts[0].retries == retries
    modifies job
    ensures Ended(world, s0, after, job.Snapshot(), retries, ending)
    ensures Settles(world, r, retries, old(job.Snapshot()), job.Snapshot(), ending)
  {
    if r.Err? {
      ending, after := HandleFailure(job, loaded, r.error, retries, world, s0, s);
      return;
    }
    var point := Commit(r.value.0, r.value.1);
    if world.At(point).Raise? {
      after := Left(world, s0, s, retries);
      return Escaped, after;
    }
    after := Moved(world, s0, s, job.Snapshot(), loaded, point);
    var updated := job.Transition(Success, None, SuccessFields(r.value.0, r.value.1, world.clock(point)));
    ending := Finished;
  }

  /** The first update: it raises, finds nothing to start, or starts the job. */
  lemma Opening(world: World, row: Row, retries: nat) returns (after: System)
    ensures var s0 := Alone(row, retries);
            var (next, started) := AfterTransition(row, Running, None, StartFields(world.clock(Begin)));
            if world.At(Begin).Raise? then
              Ended(world, s0, after, row, retries, Escaped)
            else if !started then
              Ended(world, s0, after, row, retries, Finished)
            else
              && Executes(world, s0, after) && after.row == next && |after.attempts| == 1
              && after.attempts[0].pc == LoadJob && after.attempts[0].retries == retries && !after.attempts[0].escaped
  {
    var s0 := Alone(row, retries);
    NoStep(world, s0);
    if world.At(Begin).Raise? {
      after := Left(world, s0, s0, retries);
    } else {
      after := Acted(world, s0, s0);
    }
  }

  /** Loading the row raises, or gives the attempt its copy. */
  lemma Loading(world: World, row: Row, retries: nat, s: System) returns (after: System)
    requires Executes(world, Alone(row, retries), s) && |s.attempts| == 1
    requires s.attempts[0].pc == LoadJob && s.attempts[0].retries == retries && !s.attempts[0].escaped
    ensures if world.At(LoadJob).Raise? then Ended(world, Alone(row, retries), after, s.row, retries, Escaped)
            else Traces(world, Alone(row, retries), after, s.row, s.row, FirstCheck)
  {
    if world.At(LoadJob).Raise? {
      after := Left(world, Alone(row, retries), s, retries);
    } else {
      after := Acted(world, Alone(row, retries), s);
    }
  }

  /** `run_job`, once the job is loaded. */
  method WorkAndSettle(job: JobRecord, loaded: Row, retries: nat, world: World, ghost s0: System, ghost s: System)
    returns (ending: Ending, ghost before: Row, ghost after: System)
    requires Traces(world, s0, s, job.Snapshot(), loaded, FirstCheck)
    requires job.Snapshot() == loaded && loaded.status == Running && s.attempts[0].retries == retries
    modifies job
    ensures Ended(world, s0, after, job.Snapshot(), retries, ending)
    ensures WorksTo(world, loaded, before)
    ensures Settles(world, Tried(world, loaded), retries, before, job.Snapshot(), ending)
  {
    var tracker := new ProgressTracker(1.0);
    var r;
    r, after := Attempted(job, tracker, loaded, world, s0, s);
    before := job.Snapshot();
    ending, after := Settle(job, loaded, r, retries, world, s0, after);
  }

  lemma StartIs(row: Row, at: Time)
    ensures AfterTransition(row, Running, None, StartFields(at)) ==
            if Terminal(row.status) then (row, false) else (Started(row, at), true)
  {
  }

  /** `run_job`: its execution in a world is the run of the protocol in that world, with the same
      row, up to the end of the attempt: finished, retried, or left by an exception. What it makes of
      the row is the fate that the world's answers alone decide. */
  method RunJob(job: JobRecord, retries: nat, world: World) returns (ending: Ending, ghost after: System)
    modifies job
    ensures Ended(world, Alone(old(job.Snapshot()), retries), after, job.Snapshot(), retries, ending)
    ensures Fate(world, old(job.Snapshot()), retries, job.Snapshot(), ending)
  {
    ghost var row := job.Snapshot();
    StartIs(row, world.clock(Begin));
    after := Opening(world, row, retries);
    if world.At(Begin).Raise? {
      return Escaped, after;
    }
    var started := job.Transition(Running, None, StartFields(world.clock(Begin)));
    if !started {
      return Finished, after;
    }
    after := Loading(world, row, retries, after);
    if world.At(LoadJob).Raise? {
      return Escaped, after;
    }
    var loaded := job.Snapshot();
    ghost var before;
    ending, before, after := WorkAndSettle(job, loaded, retries, world, Alone(row, retries), after);
  }

  /** A cancel call on its own. */
  function CancelAlone(row: Row): System {
    System(row, [], [FailIfQueued], 0, 0, 0)
  }

  /** `cancel_job`: every execution is a run of the protocol; undisturbed, it refuses exactly the
      jobs that are finished, and leaves every other one cancelled or flagged. */
  method CancelJob(job: JobRecord, now: Time) returns (refused: bool, ghost after: System)
    modifies job
    ensures Reaches(CancelAlone(old(job.Snapshot())), after) && after.row == job.Snapshot()
    ensures after.cancels == [if refused then Refused else Returned]
    ensures refused <==> Terminal(old(job.status))
    ensures refused ==> job.Snapshot() == old(job.Snapshot())
    ensures old(job.status) == Queued ==>
              job.Snapshot() == old(job.Snapshot()).(status := Failed, errorCode := Cancelled,
                                                     errorMessage := "The job was cancelled.",
                                                     finishedAt := Some(now), cancelRequestedAt := Some(now))
    ensures old(job.status) == Running ==>
              job.Snapshot() == if CancelRequested(old(job.Snapshot())) then old(job.Snapshot())
                                else old(job.Snapshot()).(cancelRequestedAt := Some(now))
    ensures !refused ==> CancelRequested(job.Snapshot())
  {
    ghost var s0 := CancelAlone(job.Snapshot());
    after := Start(s0);
    after := CancelStep(s0, after, now);
    var cancelled := job.Transition(Failed, Some({Queued}), QueuedCancelFields(now));
    if cancelled {
      return false, after;
    }
    after := CancelStep(s0, after, now);
    after := CancelStep(s0, after, now);
    var pending := job.RequestCancel(now);
    refused := !pending;
  }

  lemma CancelStep(s0: System, s: System, now: Time) returns (after: System)
    requires Reaches(s0, s) && |s.cancels| == 1
    ensures Reaches(s0, after) && after == Next(s, CancelAct(0, now))
  {
    Then(s0, s, CancelAct(0, now));
    after := Next(s, CancelAct(0, now));
  }
}
