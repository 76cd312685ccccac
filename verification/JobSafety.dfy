/** What holds in every state that any interleaving of attempts, progress writes, crashes,
    redeliveries and cancel calls can reach. */
module JobSafety {
  import opened Wrappers
  import opened JobRow
  import opened JobProtocol

  ghost predicate RowInv(row: Row) {
    && row.progress <= 100
    && (row.progress == 100 <==> row.status == Success)
    && (row.errorCode != NoError <==> row.status == Failed)
    && (row.finishedAt.Some? <==> Terminal(row.status))
    && (row.resultPath != "" <==> row.status == Success)
    && (row.rowCount.Some? <==> row.status == Success)
    && (row.matchedCount.Some? <==> row.status == Success)
    && (row.status == Queued ==> row.startedAt.None?)
    && (row.status == Running || row.status == Success ==> row.startedAt.Some?)
    && (row.errorCode == Cancelled ==> CancelRequested(row))
    && (row.status == Queued ==> !CancelRequested(row))
  }

  /** What an attempt at this point knows about the row, for ever. */
  ghost predicate AttemptInv(row: Row, a: Attempt) {
    && (!a.pc.Begin? && !a.pc.Over? ==> row.status != Queued)
    && (a.pc.Handle? && a.pc.fault.JobCancelled? ==> CancelRequested(row))
    && (a.pc.Record? ==> a.pc.code != NoError)
    && (a.pc.Record? && a.pc.code == Cancelled ==> CancelRequested(row))
    && (a.flaggedAtBegin ==> CancelRequested(row))
    && (a.flaggedAtBegin ==> BeforeFirstCheckOrFailing(a.pc))
    && (a.escaped ==> a.pc.Over?)
    && a.retries <= MAX_TRANSIENT_RETRIES
  }

  predicate AtPattern(pc: Pc) {
    pc.Resolve? || pc.AskForPattern? || pc.SavePattern?
  }

  predicate AtSpec(pc: Pc) {
    pc.SampleCheck? || pc.AskForSpec? || pc.SaveSpec? || pc.SpecCheck?
  }

  /** An attempt works on the kind of job the row is. */
  predicate KindInv(row: Row, a: Attempt) {
    && a.job.transform == row.transform
    && (AtPattern(a.pc) ==> row.transform.RegexReplace?)
    && (AtSpec(a.pc) ==> !row.transform.RegexReplace?)
  }

  predicate BeforeFirstCheckOrFailing(pc: Pc) {
    pc.LoadJob? || pc.FirstCheck? || pc.Handle? || pc.Record? || pc.Over?
  }

  ghost predicate CancelInv(row: Row, pc: CancelPc) {
    && (pc.Flag? || pc.Check? ==> row.status != Queued)
    && (pc.Check? && row.status == Running ==> CancelRequested(row))
    && (pc.Returned? ==> CancelRequested(row))
    && (pc.Refused? ==> Terminal(row.status))
  }

  ghost predicate Inv(s: System) {
    && RowInv(s.row)
    && (forall a | a in s.attempts :: AttemptInv(s.row, a))
    && (forall a | a in s.attempts :: KindInv(s.row, a))
    && (forall pc | pc in s.cancels :: CancelInv(s.row, pc))
    && s.wins == (if Terminal(s.row.status) then 1 else 0)
  }

  /** What no step ever undoes. */
  ghost predicate Evolves(before: Row, after: Row) {
    && (before.status != Queued ==> after.status != Queued)
    && (Terminal(before.status) ==> Outcome(after) == Outcome(before))
    && (CancelRequested(before) ==> after.cancelRequestedAt == before.cancelRequestedAt)
    && (before.status == Running && !Terminal(after.status) ==> after.status == Running)
    && after.transform == before.transform
  }

  /** The row without the generated pattern and specification, which are saved unconditionally. */
  function Outcome(row: Row): Row {
    row.(pattern := "", spec := None, llmCached := None)
  }

  lemma InvOfInitial(transform: TransformType, nlPrompt: string, pattern: string)
    ensures Inv(Initial(transform, nlPrompt, pattern))
  {
  }

  lemma ActOnceKeeps(row: Row, a: Attempt, reply: Reply, now: Time)
    requires RowInv(row) && AttemptInv(row, a) && Fits(a.pc, reply)
    ensures var (row', a') := ActOnce(row, a, reply, now);
            RowInv(row') && AttemptInv(row', a') && Evolves(row, row')
  {
    if !reply.Raise? {
      match a.pc
      case Begin =>
      case Commit(_, _) =>
      case Handle(_) =>
      case Record(_, _) =>
      case _ =>
    }
  }

  lemma ActOnceKeepsKind(row: Row, a: Attempt, reply: Reply, now: Time)
    requires KindInv(row, a) && Fits(a.pc, reply)
    ensures KindInv(row, ActOnce(row, a, reply, now).1)
  {
    if !reply.Raise? {
      match a.pc
      case Handle(fault) => assert FailureRecord(row, fault, a.retries).Some? ==>
          InHandler(FailureRecord(row, fault, a.retries).value);
      case FirstCheck =>
      case Build =>
      case _ =>
    }
  }

  lemma CancelOnceKeeps(row: Row, pc: CancelPc, now: Time)
    requires RowInv(row) && CancelInv(row, pc)
    ensures var (row', pc') := CancelOnce(row, pc, now);
            RowInv(row') && CancelInv(row', pc') && Evolves(row, row')
  {
  }

  lemma OthersKeep(before: Row, after: Row)
    requires RowInv(before) && RowInv(after) && Evolves(before, after)
    ensures forall a: Attempt | AttemptInv(before, a) :: AttemptInv(after, a)
    ensures forall a: Attempt | KindInv(before, a) :: KindInv(after, a)
    ensures forall pc: CancelPc | CancelInv(before, pc) :: CancelInv(after, pc)
  {
  }

  lemma ActKeeps(s: System, i: nat, reply: Reply, now: Time)
    requires Inv(s) && i < |s.attempts| && Fits(s.attempts[i].pc, reply)
    ensures var s' := Next(s, Act(i, reply, now)); Inv(s') && Evolves(s.row, s'.row)
  {
    var a := s.attempts[i];
    var s' := Next(s, Act(i, reply, now));
    assert AttemptInv(s.row, a) && KindInv(s.row, a);
    ActOnceKeeps(s.row, a, reply, now);
    ActOnceKeepsKind(s.row, a, reply, now);
    OthersKeep(s.row, s'.row);
    var acted := ActOnce(s.row, a, reply, now).1;
    var retry := FreshAttempt(a.retries + 1, s.row);
    forall b | b in s'.attempts ensures AttemptInv(s'.row, b) && KindInv(s'.row, b) {
      assert b in s.attempts || b == acted || (b == retry && Scheduled(s.row, a, reply) == [retry]);
    }
  }

  /** Every step keeps the invariant, and undoes nothing. */
  lemma StepKeeps(s: System, step: Step)
    requires Inv(s) && Enabled(s, step)
    ensures Inv(Next(s, step)) && Evolves(s.row, Next(s, step).row)
  {
    var s' := Next(s, step);
    match step
    case Act(i, reply, now) => ActKeeps(s, i, reply, now);
    case CancelAct(j, now) =>
      assert CancelInv(s.row, s.cancels[j]);
      CancelOnceKeeps(s.row, s.cancels[j], now);
      OthersKeep(s.row, s'.row);
    case Crash(i) => assert AttemptInv(s.row, s.attempts[i]) && KindInv(s.row, s.attempts[i]);
    case Redeliver(i) => assert AttemptInv(s.row, s.attempts[i]);
    case Emit(_, _) => OthersKeep(s.row, s'.row);
    case CallCancel =>
  }

  /** Over any run, the invariant holds at the end and nothing settled is undone. */
  lemma {:induction false} RunKeeps(s: System, steps: seq<Step>)
    requires Inv(s) && Possible(s, steps)
    ensures Inv(Run(s, steps)) && Evolves(s.row, Run(s, steps).row)
    decreases |steps|
  {
    if steps != [] {
      StepKeeps(s, steps[0]);
      RunKeeps(Next(s, steps[0]), steps[1..]);
    }
  }

  /** Every reachable state is consistent: the fields of the row agree with its status, and at
      most one transition to a terminal status has ever succeeded. */
  lemma ReachableIsConsistent(transform: TransformType, nlPrompt: string, pattern: string, steps: seq<Step>)
    requires Possible(Initial(transform, nlPrompt, pattern), steps)
    ensures Inv(Run(Initial(transform, nlPrompt, pattern), steps))
    ensures var row := Run(Initial(transform, nlPrompt, pattern), steps).row;
            && row.progress <= 100 && (row.progress == 100 <==> row.status == Success)
            && (row.errorCode != NoError <==> row.status == Failed)
            && (row.finishedAt.Some? <==> row.status == Success || row.status == Failed)
            && (row.resultPath != "" <==> row.status == Success)
            && (row.rowCount.Some? <==> row.status == Success)
            && (row.matchedCount.Some? <==> row.status == Success)
            && (row.errorCode == Cancelled ==> row.cancelRequestedAt.Some?)
            && (row.status == Queued ==> row.cancelRequestedAt.None? && row.startedAt.None?)
    ensures Run(Initial(transform, nlPrompt, pattern), steps).wins <= 1
  {
    InvOfInitial(transform, nlPrompt, pattern);
    RunKeeps(Initial(transform, nlPrompt, pattern), steps);
  }

  /** A finished job never changes again in its status, progress, results, error, times or cancel
      request. The pattern and the specification are another matter. */
  lemma FinishedIsFrozen(s: System, steps: seq<Step>)
    requires Inv(s) && Possible(s, steps) && Terminal(s.row.status)
    ensures var end := Run(s, steps).row;
            end == s.row.(pattern := end.pattern, spec := end.spec, llmCached := end.llmCached)
  {
    RunKeeps(s, steps);
  }

  /** What `get_job_results` reads from: nothing before success, then the path and the row count. */
  function ResultsToServe(row: Row): Option<(string, nat)> {
    if row.status != Success then None
    else Some((row.resultPath, if row.rowCount.Some? then row.rowCount.value else 0))
  }

  /** Results are served exactly when there is a path to read; the row count is then the recorded
      one, never the default, and every later request reads the same. */
  lemma ServedResultsStay(s: System, steps: seq<Step>)
    requires Inv(s) && Possible(s, steps)
    ensures ResultsToServe(s.row).Some? <==> s.row.resultPath != ""
    ensures ResultsToServe(s.row).Some? ==>
              && s.row.resultPath == ResultsToServe(s.row).value.0
              && s.row.rowCount == Some(ResultsToServe(s.row).value.1)
              && ResultsToServe(Run(s, steps).row) == ResultsToServe(s.row)
  {
    RunKeeps(s, steps);
  }

  // --- cancel calls ---

  /** The last step of `cancel_job` refuses exactly when the job is finished at that moment. */
  lemma RefusedIffFinished(s: System, j: nat, now: Time)
    requires Inv(s) && j < |s.cancels| && s.cancels[j] == Check
    ensures Next(s, CancelAct(j, now)).cancels[j] == Refused <==> Terminal(s.row.status)
    ensures Next(s, CancelAct(j, now)).cancels[j] == Returned <==> s.row.status == Running
  {
    assert CancelInv(s.row, s.cancels[j]);
  }

  /** A call that returned has left its mark for good: whatever happens next, the job stays flagged
      with the first request, and if it was failed from the queue it stays cancelled. */
  lemma ReturnedIsFlaggedForEver(s: System, j: nat, steps: seq<Step>)
    requires Inv(s) && j < |s.cancels| && s.cancels[j] == Returned && Possible(s, steps)
    ensures CancelRequested(s.row)
    ensures Run(s, steps).row.cancelRequestedAt == s.row.cancelRequestedAt
    ensures s.row.errorCode == Cancelled ==> Run(s, steps).row.errorCode == Cancelled
  {
    assert CancelInv(s.row, s.cancels[j]);
    RunKeeps(s, steps);
  }

  /** A cancel call that finds the job queued fails it at once, and no attempt runs after it. */
  lemma QueuedCancelIsFinal(s: System, j: nat, now: Time, steps: seq<Step>)
    requires Inv(s) && j < |s.cancels| && s.cancels[j] == FailIfQueued && s.row.status == Queued
    requires Possible(Next(s, CancelAct(j, now)), steps)
    ensures Next(s, CancelAct(j, now)).cancels[j] == Returned
    ensures var after := Run(Next(s, CancelAct(j, now)), steps).row;
            after.status == Failed && after.errorCode == Cancelled && after.startedAt.None?
  {
    StepKeeps(s, CancelAct(j, now));
    RunKeeps(Next(s, CancelAct(j, now)), steps);
  }

  // --- attempts that start after a cancel request ---

  predicate InSpark(pc: Pc) {
    pc.OpenSource? || pc.Build? || pc.SampleCheck? || pc.AskForSpec? || pc.SaveSpec? || pc.SpecCheck? ||
    pc.Transforming? || pc.Finalizing? || pc.Commit?
  }

  /** In every run: an attempt that started when cancellation had been requested is never in
      Spark or at the language model, and no step of it makes the job succeed. */
  lemma FlaggedAttemptDoesNothing(s: System, i: nat, reply: Reply, now: Time)
    requires Inv(s) && i < |s.attempts| && s.attempts[i].flaggedAtBegin
    ensures !InSpark(s.attempts[i].pc) && !s.attempts[i].pc.AskForPattern?
    ensures Enabled(s, Act(i, reply, now)) && s.row.status != Success ==>
            Next(s, Act(i, reply, now)).row.status != Success
  {
    assert AttemptInv(s.row, s.attempts[i]);
  }
}
