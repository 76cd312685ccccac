/** Attempts that hold a copy of the row from before something was saved (backend/apps/jobs/tasks.py,
    lines 132-148; transform_builders.py, lines 42-94). They alone can ask the language model again,
    or change a finished row. Runs are arbitrary: attempts overlap, are redelivered and crash. */
module JobStaleness {
  import opened Wrappers
  import opened JobRow
  import opened JobProtocol
  import opened JobSafety

  /** What the language model is asked for: a pattern or a specification, depending on the job. */
  predicate Saved(row: Row) {
    if row.transform.RegexReplace? then row.pattern != "" else row.spec.Some?
  }

  predicate Needs(job: Row) {
    if job.transform.RegexReplace? then job.pattern == "" && job.nlPrompt != "" else job.spec.None?
  }

  /** The attempt is going to ask, unless it fails first or the row changes. */
  predicate MayAsk(row: Row, a: Attempt) {
    match a.pc
    case LoadJob => !CancelRequested(row) && Needs(row)
    case FirstCheck => !CancelRequested(row) && Needs(a.job)
    case Resolve => Needs(a.job)
    case AskForPattern => true
    case SecondCheck => !CancelRequested(row) && Needs(a.job) && !a.job.transform.RegexReplace?
    case OpenSource => !CancelRequested(row) && Needs(a.job) && !a.job.transform.RegexReplace?
    case Build => !CancelRequested(row) && Needs(a.job) && !a.job.transform.RegexReplace?
    case SampleCheck => !CancelRequested(row)
    case AskForSpec => true
    case _ => false
  }

  /** The attempt has an answer that differs from what the row has saved. */
  predicate HoldsOther(row: Row, a: Attempt) {
    (a.pc.SavePattern? && a.pc.text != row.pattern) || (a.pc.SaveSpec? && Some(a.pc.text) != row.spec)
  }

  predicate Stale(row: Row, a: Attempt) {
    MayAsk(row, a) || HoldsOther(row, a)
  }

  predicate SomeStale(s: System) {
    exists a | a in s.attempts :: Stale(s.row, a)
  }

  /** What has been saved is still the same, and the language model has not been asked since. */
  predicate SameWork(before: System, after: System) {
    && after.row.pattern == before.row.pattern && after.row.spec == before.row.spec
    && after.patternCalls == before.patternCalls && after.specCalls == before.specCalls
  }

  // --- without a stale attempt, saved work is kept ---

  lemma FreshAct(row: Row, a: Attempt, reply: Reply, now: Time)
    requires Saved(row) && KindInv(row, a) && Fits(a.pc, reply) && !Stale(row, a)
    ensures var (row', a') := ActOnce(row, a, reply, now);
            && row'.pattern == row.pattern && row'.spec == row.spec
            && (CancelRequested(row) ==> CancelRequested(row'))
            && row'.transform == row.transform && row'.nlPrompt == row.nlPrompt
  {
  }

  lemma AskingStaysOff(row: Row, a: Attempt, reply: Reply, now: Time)
    requires KindInv(row, a) && Fits(a.pc, reply) && !MayAsk(row, a)
    requires a.pc.Begin? ==> Saved(row) || Terminal(row.status)
    ensures !MayAsk(row, ActOnce(row, a, reply, now).1)
  {
    if !reply.Raise? {
      match a.pc
      case Handle(fault) => assert FailureRecord(row, fault, a.retries).Some? ==>
          InHandler(FailureRecord(row, fault, a.retries).value);
      case LoadJob =>
      case FirstCheck =>
      case Resolve =>
      case Build =>
      case _ =>
    }
  }

  lemma AnswersComeFromAsking(row: Row, a: Attempt, reply: Reply, now: Time)
    requires Fits(a.pc, reply) && !a.pc.AskForPattern? && !a.pc.AskForSpec?
    ensures !ActOnce(row, a, reply, now).1.pc.SavePattern? && !ActOnce(row, a, reply, now).1.pc.SaveSpec?
  {
  }

  /** A fresh attempt stays fresh while others only repeat what is saved. */
  lemma OthersStayFresh(before: Row, after: Row, a: Attempt)
    requires Saved(before) && after.pattern == before.pattern && after.spec == before.spec
    requires after.transform == before.transform && after.nlPrompt == before.nlPrompt
    requires CancelRequested(before) ==> CancelRequested(after)
    requires !Stale(before, a)
    ensures !Stale(after, a)
  {
  }

  lemma FreshStep(s: System, step: Step)
    requires Inv(s) && Saved(s.row) && !SomeStale(s) && Enabled(s, step)
    ensures Saved(Next(s, step).row) && !SomeStale(Next(s, step)) && SameWork(s, Next(s, step))
  {
    var s' := Next(s, step);
    if step.Act? {
      FreshActStep(s, step.i, step.reply, step.now);
    } else {
      forall a | a in s'.attempts ensures !Stale(s'.row, a) {
        if a in s.attempts {
          OthersStayFresh(s.row, s'.row, a);
        }
      }
    }
  }

  lemma FreshActStep(s: System, i: nat, reply: Reply, now: Time)
    requires Inv(s) && Saved(s.row) && !SomeStale(s) && i < |s.attempts| && Fits(s.attempts[i].pc, reply)
    ensures var s' := Next(s, Act(i, reply, now)); Saved(s'.row) && !SomeStale(s') && SameWork(s, s')
  {
    var acting := s.attempts[i];
    var s' := Next(s, Act(i, reply, now));
    assert acting in s.attempts && KindInv(s.row, acting);
    FreshAct(s.row, acting, reply, now);
    AskingStaysOff(s.row, acting, reply, now);
    AnswersComeFromAsking(s.row, acting, reply, now);
    forall a | a in s'.attempts ensures !Stale(s'.row, a) {
      if a in s.attempts || a == ActOnce(s.row, acting, reply, now).1 {
        OthersStayFresh(s.row, s'.row, a);
      } else {
        assert a == FreshAttempt(acting.retries + 1, s.row);
      }
    }
  }

  lemma {:induction false} FreshRun(s: System, steps: seq<Step>)
    requires Inv(s) && Saved(s.row) && !SomeStale(s) && Possible(s, steps)
    ensures !SomeStale(Run(s, steps)) && SameWork(s, Run(s, steps))
    decreases |steps|
  {
    if steps != [] {
      StepKeeps(s, steps[0]);
      FreshStep(s, steps[0]);
      FreshRun(Next(s, steps[0]), steps[1..]);
    }
  }

  // --- ... and applied ---

  predicate Applying(pc: Pc) {
    pc.Transforming? || pc.Finalizing? || pc.Commit?
  }

  predicate BeforeBuild(pc: Pc) {
    pc.FirstCheck? || pc.SecondCheck? || pc.OpenSource? || pc.Build?
  }

  /** The attempt applies exactly what the row has saved. */
  predicate Applies(row: Row, a: Attempt) {
    if row.transform.RegexReplace? then
      row.pattern != "" && a.resolved == Some(row.pattern)
    else
      row.spec.Some? && a.spec == row.spec
  }

  /** What the attempt has loaded or resolved is what the row has saved. */
  predicate Aligned(row: Row, a: Attempt) {
    if row.transform.RegexReplace? then
      && (a.pc.FirstCheck? || a.pc.Resolve? ==> a.job.pattern == "" || a.job.pattern == row.pattern)
      && (a.pc.SecondCheck? || a.pc.OpenSource? || a.pc.Build? || Applying(a.pc) ==> Applies(row, a))
    else
      && (BeforeBuild(a.pc) ==> a.job.spec.None? || a.job.spec == row.spec)
      && (a.pc.SpecCheck? || Applying(a.pc) ==> Applies(row, a))
  }

  predicate AllAligned(s: System) {
    forall a | a in s.attempts :: Aligned(s.row, a)
  }

  lemma AlignedStays(row: Row, a: Attempt, reply: Reply, now: Time)
    requires Saved(row) && KindInv(row, a) && Fits(a.pc, reply) && !Stale(row, a) && Aligned(row, a)
    ensures Aligned(row, ActOnce(row, a, reply, now).1)
  {
    if !reply.Raise? {
      match a.pc
      case Handle(fault) => assert FailureRecord(row, fault, a.retries).Some? ==>
          InHandler(FailureRecord(row, fault, a.retries).value);
      case LoadJob =>
      case FirstCheck =>
      case Resolve =>
      case Build =>
      case _ =>
    }
  }

  lemma AlignedStep(s: System, step: Step)
    requires Inv(s) && Saved(s.row) && !SomeStale(s) && AllAligned(s) && Enabled(s, step)
    ensures AllAligned(Next(s, step))
  {
    var s' := Next(s, step);
    if step.Act? {
      var acting := s.attempts[step.i];
      assert acting in s.attempts && KindInv(s.row, acting);
      FreshAct(s.row, acting, step.reply, step.now);
      AlignedStays(s.row, acting, step.reply, step.now);
      forall a | a in s'.attempts ensures Aligned(s'.row, a) {
        assert a in s.attempts || a == ActOnce(s.row, acting, step.reply, step.now).1 || a.pc.Begin?;
      }
    }
  }

  /** From a state whose attempts are fresh and aligned, whatever overlaps afterwards, every attempt
      that transforms data applies what is saved. */
  lemma {:induction false} AlignedRun(s: System, steps: seq<Step>)
    requires Inv(s) && Saved(s.row) && !SomeStale(s) && AllAligned(s) && Possible(s, steps)
    ensures forall a | a in Run(s, steps).attempts && Applying(a.pc) :: Applies(Run(s, steps).row, a)
    decreases |steps|
  {
    if steps != [] {
      StepKeeps(s, steps[0]);
      FreshStep(s, steps[0]);
      AlignedStep(s, steps[0]);
      AlignedRun(Next(s, steps[0]), steps[1..]);
    }
  }

  // --- a stale attempt can ask again ---

  /** An answer that the row does not have yet. */
  function NewAnswer(row: Row): Reply {
    Answer(row.pattern + "x" + (if row.spec.Some? then row.spec.value else ""), row.llmCached == Some(false))
  }

  lemma NewAnswerIsNew(row: Row)
    ensures NewAnswer(row).text != "" && NewAnswer(row).text != row.pattern && Some(NewAnswer(row).text) != row.spec
  {
    assert |NewAnswer(row).text| > |row.pattern|;
    assert row.spec.Some? ==> |NewAnswer(row).text| > |row.spec.value|;
  }

  /** What a stale attempt is told on its way. */
  function Told(row: Row, a: Attempt): Reply {
    if a.pc.AskForPattern? || a.pc.AskForSpec? then NewAnswer(row) else Fine
  }

  lemma StaleMoves(row: Row, a: Attempt)
    requires Stale(row, a) && KindInv(row, a)
    ensures Fits(a.pc, Told(row, a)) && Scheduled(row, a, Told(row, a)) == []
    ensures var (row', a') := ActOnce(row, a, Told(row, a), 0);
            || a.pc.AskForPattern? || a.pc.AskForSpec?
            || row'.pattern != row.pattern || row'.spec != row.spec
            || (row' == row && Stale(row, a') && PcRank(a'.pc) < PcRank(a.pc))
  {
    NewAnswerIsNew(row);
  }

  lemma {:induction false} StaleAsks(s: System, i: nat) returns (steps: seq<Step>)
    requires Inv(s) && i < |s.attempts| && Stale(s.row, s.attempts[i])
    ensures Possible(s, steps) && !SameWork(s, Run(s, steps))
    decreases PcRank(s.attempts[i].pc)
  {
    var a := s.attempts[i];
    assert KindInv(s.row, a);
    StaleMoves(s.row, a);
    var step := Act(i, Told(s.row, a), 0);
    var s' := Next(s, step);
    StepKeeps(s, step);
    if SameWork(s, s') {
      var rest := StaleAsks(s', i);
      RunFrom(s, step, rest);
      steps := [step] + rest;
    } else {
      RunFrom(s, step, []);
      steps := [step] + [];
    }
  }

  /** Once a pattern or specification is saved: every run keeps it and asks for no other, exactly when
      no attempt is stale. */
  lemma ReusedExactly(s: System)
    requires Inv(s) && Saved(s.row)
    ensures (forall steps | Possible(s, steps) :: SameWork(s, Run(s, steps))) <==> !SomeStale(s)
  {
    if SomeStale(s) {
      var i :| 0 <= i < |s.attempts| && Stale(s.row, s.attempts[i]);
      var steps := StaleAsks(s, i);
    } else {
      forall steps | Possible(s, steps) ensures SameWork(s, Run(s, steps)) {
        FreshRun(s, steps);
      }
    }
  }

  // --- finished jobs ---

  /** The attempt holds an answer whose saving would change the row. */
  predicate WouldChange(row: Row, a: Attempt) {
    HoldsOther(row, a) || ((a.pc.SavePattern? || a.pc.SaveSpec?) && row.llmCached != Some(a.pc.cached))
  }

  predicate CanStillSave(row: Row, a: Attempt) {
    MayAsk(row, a) || WouldChange(row, a)
  }

  predicate SomeCanStillSave(s: System) {
    exists a | a in s.attempts :: CanStillSave(s.row, a)
  }

  lemma QuietAct(row: Row, a: Attempt, reply: Reply, now: Time)
    requires Terminal(row.status) && KindInv(row, a) && Fits(a.pc, reply) && !CanStillSave(row, a)
    ensures ActOnce(row, a, reply, now).0 == row
  {
  }

  lemma QuietStep(s: System, step: Step)
    requires Inv(s) && Terminal(s.row.status) && !SomeCanStillSave(s) && Enabled(s, step)
    ensures Next(s, step).row == s.row && !SomeCanStillSave(Next(s, step))
  {
    if step.Act? {
      var acting := s.attempts[step.i];
      assert acting in s.attempts && KindInv(s.row, acting);
      QuietAct(s.row, acting, step.reply, step.now);
      AskingStaysOff(s.row, acting, step.reply, step.now);
      AnswersComeFromAsking(s.row, acting, step.reply, step.now);
    }
  }

  lemma {:induction false} QuietRun(s: System, steps: seq<Step>)
    requires Inv(s) && Terminal(s.row.status) && !SomeCanStillSave(s) && Possible(s, steps)
    ensures Run(s, steps).row == s.row
    decreases |steps|
  {
    if steps != [] {
      StepKeeps(s, steps[0]);
      QuietStep(s, steps[0]);
      QuietRun(Next(s, steps[0]), steps[1..]);
    }
  }

  lemma SaverMoves(row: Row, a: Attempt)
    requires CanStillSave(row, a) && KindInv(row, a)
    ensures Fits(a.pc, Told(row, a)) && Scheduled(row, a, Told(row, a)) == []
    ensures var (row', a') := ActOnce(row, a, Told(row, a), 0);
            row' != row || (CanStillSave(row, a') && PcRank(a'.pc) < PcRank(a.pc))
  {
    NewAnswerIsNew(row);
  }

  lemma {:induction false} SaverSaves(s: System, i: nat) returns (steps: seq<Step>)
    requires Inv(s) && i < |s.attempts| && CanStillSave(s.row, s.attempts[i])
    ensures Possible(s, steps) && Run(s, steps).row != s.row
    decreases PcRank(s.attempts[i].pc)
  {
    var a := s.attempts[i];
    assert KindInv(s.row, a);
    SaverMoves(s.row, a);
    var step := Act(i, Told(s.row, a), 0);
    var s' := Next(s, step);
    StepKeeps(s, step);
    if s'.row == s.row {
      var rest := SaverSaves(s', i);
      RunFrom(s, step, rest);
      steps := [step] + rest;
    } else {
      RunFrom(s, step, []);
      steps := [step] + [];
    }
  }

  /** A finished job: every run leaves the whole row as it is, exactly when no attempt can still save
      a pattern or a specification. */
  lemma FrozenExactly(s: System)
    requires Inv(s) && Terminal(s.row.status)
    ensures (forall steps | Possible(s, steps) :: Run(s, steps).row == s.row) <==> !SomeCanStillSave(s)
  {
    if SomeCanStillSave(s) {
      var i :| 0 <= i < |s.attempts| && CanStillSave(s.row, s.attempts[i]);
      var steps := SaverSaves(s, i);
    } else {
      forall steps | Possible(s, steps) ensures Run(s, steps).row == s.row {
        QuietRun(s, steps);
      }
    }
  }
}
