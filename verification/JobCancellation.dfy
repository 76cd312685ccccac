/** What a cancel request on a running job can still be worth (backend/apps/jobs/services.py, lines
    88-112; tasks.py, lines 74-129; cancellation.py, lines 12-14): which steps of a cancel call write
    the row, and from which states a flagged job can still end otherwise. */
module JobCancellation {
  import opened Wrappers
  import opened JobRow
  import opened JobProtocol
  import opened JobSafety

  // --- what a cancel call writes ---

  /** A step of a cancel call changes the row exactly when it fails a queued job or is the first to
      flag a running one. */
  lemma CancelWritesExactly(s: System, j: nat, now: Time)
    requires j < |s.cancels|
    ensures Next(s, CancelAct(j, now)).row != s.row <==>
            || (s.cancels[j] == FailIfQueued && s.row.status == Queued)
            || (s.cancels[j] == Flag && s.row.status == Running && !CancelRequested(s.row))
  {
    if s.cancels[j] == FailIfQueued && s.row.status == Queued {
      assert Next(s, CancelAct(j, now)).row.status == Failed;
    }
  }

  /** A call that is refused in the end has nevertheless left its own request on the finished job,
      exactly when its flagging step found the job running and not yet flagged. */
  lemma RefusedHasWritten(s: System, j: nat, now: Time, steps: seq<Step>)
    requires Inv(s) && j < |s.cancels| && s.cancels[j] == Flag
    requires Possible(Next(s, CancelAct(j, now)), steps)
    requires j < |Run(Next(s, CancelAct(j, now)), steps).cancels|
    requires Run(Next(s, CancelAct(j, now)), steps).cancels[j] == Refused
    ensures var flagged := Next(s, CancelAct(j, now));
            var end := Run(flagged, steps);
            && Terminal(end.row.status)
            && (flagged.row != s.row <==> s.row.status == Running && !CancelRequested(s.row))
            && (flagged.row != s.row ==> end.row.cancelRequestedAt == Some(now))
  {
    CancelWritesExactly(s, j, now);
    StepKeeps(s, CancelAct(j, now));
    var flagged := Next(s, CancelAct(j, now));
    RunKeeps(flagged, steps);
    assert CancelInv(Run(flagged, steps).row, Run(flagged, steps).cancels[j]);
  }

  // --- the point of no return ---

  /** No check for a cancel request lies ahead of the attempt. */
  predicate PastLastCheck(a: Attempt) {
    || a.pc.Transforming? || a.pc.Finalizing? || a.pc.Commit?
    || ((a.pc.OpenSource? || a.pc.Build?) && (a.job.transform.RegexReplace? || a.job.spec.Some?))
  }

  /** The attempt is recording a failure of another kind. */
  predicate RecordsOther(a: Attempt) {
    a.pc.CancelSpark? || (a.pc.Record? && a.pc.code != Cancelled)
  }

  predicate SomePast(s: System) {
    exists a | a in s.attempts :: PastLastCheck(a)
  }

  predicate SomeEscaping(s: System) {
    exists a | a in s.attempts :: PastLastCheck(a) || RecordsOther(a)
  }

  /** Some run makes the job succeed. */
  ghost predicate CanSucceed(s: System) {
    exists steps :: Possible(s, steps) && Run(s, steps).row.status == Success
  }

  /** Some run finishes the job other than as cancelled. */
  ghost predicate CanEndOtherwise(s: System) {
    exists steps :: Possible(s, steps) && EndedOtherwise(Run(s, steps).row)
  }

  predicate EndedOtherwise(row: Row) {
    Terminal(row.status) && row.errorCode != Cancelled
  }

  lemma CheckedAct(row: Row, a: Attempt, reply: Reply, now: Time)
    requires CancelRequested(row) && Fits(a.pc, reply) && !PastLastCheck(a)
    ensures !PastLastCheck(ActOnce(row, a, reply, now).1)
    ensures CancelRequested(ActOnce(row, a, reply, now).0)
    ensures row.status != Success ==> ActOnce(row, a, reply, now).0.status != Success
  {
    if !reply.Raise? {
      match a.pc
      case Handle(fault) => assert FailureRecord(row, fault, a.retries).Some? ==>
          InHandler(FailureRecord(row, fault, a.retries).value);
      case FirstCheck =>
      case Build =>
      case _ =>
    }
  }

  lemma CheckedStep(s: System, step: Step)
    requires CancelRequested(s.row) && !SomePast(s) && s.row.status != Success && Enabled(s, step)
    ensures var s' := Next(s, step); CancelRequested(s'.row) && !SomePast(s') && s'.row.status != Success
  {
    if step.Act? {
      assert s.attempts[step.i] in s.attempts;
      CheckedAct(s.row, s.attempts[step.i], step.reply, step.now);
    }
  }

  lemma {:induction false} CheckedRun(s: System, steps: seq<Step>)
    requires CancelRequested(s.row) && !SomePast(s) && s.row.status != Success && Possible(s, steps)
    ensures Run(s, steps).row.status != Success
    decreases |steps|
  {
    if steps != [] {
      CheckedStep(s, steps[0]);
      CheckedRun(Next(s, steps[0]), steps[1..]);
    }
  }

  function Smoothly(a: Attempt): Reply {
    if a.pc.Finalizing? then Stats(0, 0) else Fine
  }

  lemma EscapingMoves(row: Row, a: Attempt)
    requires row.status == Running && (PastLastCheck(a) || RecordsOther(a))
    requires row.errorCode == NoError
    ensures Fits(a.pc, Smoothly(a)) && Scheduled(row, a, Smoothly(a)) == []
    ensures var (row', a') := ActOnce(row, a, Smoothly(a), 0);
            if a.pc.Commit? then row'.status == Success && row'.errorCode == NoError
            else if a.pc.Record? then row'.status == Failed && row'.errorCode == a.pc.code
            else
              && row' == row && PcRank(a'.pc) < PcRank(a.pc)
              && (PastLastCheck(a) ==> PastLastCheck(a'))
              && (RecordsOther(a) ==> RecordsOther(a'))
  {
  }

  lemma {:induction false} EscapingEnds(s: System, i: nat) returns (steps: seq<Step>)
    requires Inv(s) && s.row.status == Running && i < |s.attempts|
    requires PastLastCheck(s.attempts[i]) || RecordsOther(s.attempts[i])
    ensures Possible(s, steps) && EndedOtherwise(Run(s, steps).row)
    ensures PastLastCheck(s.attempts[i]) ==> Run(s, steps).row.status == Success
    decreases PcRank(s.attempts[i].pc)
  {
    var a := s.attempts[i];
    EscapingMoves(s.row, a);
    var step := Act(i, Smoothly(a), 0);
    var s' := Next(s, step);
    StepKeeps(s, step);
    if a.pc.Commit? || a.pc.Record? {
      RunFrom(s, step, []);
      steps := [step] + [];
    } else {
      var rest := EscapingEnds(s', i);
      RunFrom(s, step, rest);
      steps := [step] + rest;
    }
  }

  /** A flagged running job can still succeed exactly when some attempt is past its last check. */
  lemma SucceedsExactly(s: System)
    requires Inv(s) && s.row.status == Running && CancelRequested(s.row)
    ensures CanSucceed(s) <==> SomePast(s)
  {
    if SomePast(s) {
      var i :| 0 <= i < |s.attempts| && PastLastCheck(s.attempts[i]);
      var steps := EscapingEnds(s, i);
    } else {
      forall steps | Possible(s, steps) ensures Run(s, steps).row.status != Success {
        CheckedRun(s, steps);
      }
    }
  }

  // --- when a request means a cancelled job ---

  lemma CancellingAct(row: Row, a: Attempt, reply: Reply, now: Time)
    requires RowInv(row) && AttemptInv(row, a) && CancelRequested(row) && !EndedOtherwise(row)
    requires Fits(a.pc, reply) && !PastLastCheck(a) && !RecordsOther(a)
    ensures !RecordsOther(ActOnce(row, a, reply, now).1)
    ensures !EndedOtherwise(ActOnce(row, a, reply, now).0)
  {
    CheckedAct(row, a, reply, now);
    if !reply.Raise? {
      match a.pc
      case Record(_, _) =>
      case Begin =>
      case _ =>
    }
  }

  lemma CancellingStep(s: System, step: Step)
    requires Inv(s) && CancelRequested(s.row) && !SomeEscaping(s) && !EndedOtherwise(s.row) && Enabled(s, step)
    ensures var s' := Next(s, step); CancelRequested(s'.row) && !SomeEscaping(s') && !EndedOtherwise(s'.row)
  {
    if step.Act? {
      var a := s.attempts[step.i];
      assert a in s.attempts && AttemptInv(s.row, a);
      CheckedAct(s.row, a, step.reply, step.now);
      CancellingAct(s.row, a, step.reply, step.now);
    }
  }

  lemma {:induction false} CancellingRun(s: System, steps: seq<Step>)
    requires Inv(s) && CancelRequested(s.row) && !SomeEscaping(s) && !EndedOtherwise(s.row) && Possible(s, steps)
    ensures !EndedOtherwise(Run(s, steps).row)
    decreases |steps|
  {
    if steps != [] {
      StepKeeps(s, steps[0]);
      CancellingStep(s, steps[0]);
      CancellingRun(Next(s, steps[0]), steps[1..]);
    }
  }

  /** Every run that finishes a flagged running job finishes it as CANCELLED, exactly when no attempt
      is past its last check or recording another failure. */
  lemma CancelledExactly(s: System)
    requires Inv(s) && s.row.status == Running && CancelRequested(s.row)
    ensures CanEndOtherwise(s) <==> SomeEscaping(s)
  {
    if SomeEscaping(s) {
      var i :| 0 <= i < |s.attempts| && (PastLastCheck(s.attempts[i]) || RecordsOther(s.attempts[i]));
      var steps := EscapingEnds(s, i);
    } else {
      forall steps | Possible(s, steps) ensures !EndedOtherwise(Run(s, steps).row) {
        CancellingRun(s, steps);
      }
    }
  }
}
