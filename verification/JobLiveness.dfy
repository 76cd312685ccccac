/** Runs without crashes and redeliveries end: few attempts, few steps, and a finished job. */
module JobLiveness {
  import opened JobRow
  import opened JobProtocol
  import opened JobSafety

  predicate CrashFree(steps: seq<Step>) {
    forall step | step in steps :: !step.Crash? && !step.Redeliver?
  }

  /** Failed by a cancel call before any attempt had started it. */
  predicate CancelledInQueue(row: Row) {
    row.startedAt.None? && CancelRequested(row)
  }

  /** What the last attempt of a chain and the row agree on. */
  ghost predicate LastInv(row: Row, last: Attempt) {
    && (!last.pc.Begin? && !last.pc.Over? ==> row.status == Running)
    && (last.pc.Begin? || last.escaped ==> !Terminal(row.status) || CancelledInQueue(row))
    && (last.pc.Over? ==> last.escaped || Terminal(row.status))
  }

  /** The attempts form a chain: only the last one can still be running, and when it is over the
      job is finished, unless an exception has left the task. */
  ghost predicate ChainInv(s: System) {
    && 1 <= |s.attempts| <= MAX_TRANSIENT_RETRIES + 1
    && (forall i | 0 <= i < |s.attempts| :: s.attempts[i].retries == i)
    && (forall i | 0 <= i < |s.attempts| - 1 :: s.attempts[i].pc.Over? && !s.attempts[i].escaped)
    && LastInv(s.row, s.attempts[|s.attempts| - 1])
  }

  const STEPS_PER_ATTEMPT := 20

  /** How many worker steps a chain can still take. */
  function Budget(s: System): int
    requires s.attempts != []
  {
    PcRank(s.attempts[|s.attempts| - 1].pc) + STEPS_PER_ATTEMPT * (MAX_TRANSIENT_RETRIES + 1 - |s.attempts|)
  }

  function WorkerSteps(steps: seq<Step>): nat {
    if steps == [] then 0 else (if steps[0].Act? then 1 else 0) + WorkerSteps(steps[1..])
  }

  lemma ActMovesOn(row: Row, a: Attempt, reply: Reply, now: Time)
    requires Fits(a.pc, reply)
    ensures PcRank(ActOnce(row, a, reply, now).1.pc) < PcRank(a.pc)
  {
    if !reply.Raise? {
      AdvanceMovesOn(row, a, reply, now);
    }
  }

  lemma AdvanceMovesOn(row: Row, a: Attempt, reply: Reply, now: Time)
    requires Fits(a.pc, reply) && !reply.Raise?
    ensures PcRank(Advance(row, a, reply, now).1.pc) < PcRank(a.pc)
  {
    match a.pc
    case Handle(fault) => assert FailureRecord(row, fault, a.retries).Some? ==>
        PcRank(FailureRecord(row, fault, a.retries).value) < PcRank(a.pc);
    case FirstCheck =>
    case Resolve =>
    case Build =>
    case _ =>
  }

  lemma LastActs(row: Row, a: Attempt, reply: Reply, now: Time)
    requires RowInv(row) && AttemptInv(row, a) && Fits(a.pc, reply) && LastInv(row, a)
    ensures var (row', a') := ActOnce(row, a, reply, now);
            if Scheduled(row, a, reply) == [] then
              LastInv(row', a')
            else
              && Scheduled(row, a, reply) == [FreshAttempt(a.retries + 1, row)]
              && a.retries < MAX_TRANSIENT_RETRIES && a'.pc.Over? && !a'.escaped
              && row' == row && row.status == Running
  {
  }

  lemma ActKeepsChain(s: System, i: nat, reply: Reply, now: Time)
    requires Inv(s) && ChainInv(s) && i < |s.attempts| && Fits(s.attempts[i].pc, reply)
    ensures ChainInv(Next(s, Act(i, reply, now)))
    ensures Budget(Next(s, Act(i, reply, now))) < Budget(s)
  {
    var a, n := s.attempts[i], |s.attempts|;
    assert AttemptInv(s.row, a);
    assert i == n - 1;
    ActMovesOn(s.row, a, reply, now);
    LastActs(s.row, a, reply, now);
    var acted := ActOnce(s.row, a, reply, now).1;
    var s' := Next(s, Act(i, reply, now));
    var before := s.attempts[..n - 1];
    assert forall j | 0 <= j < n - 1 :: before[j] == s.attempts[j];
    if Scheduled(s.row, a, reply) == [] {
      assert s'.attempts == before + [acted];
      ChainOf(s', before, acted);
    } else {
      assert s'.attempts == before + [acted, FreshAttempt(a.retries + 1, s.row)];
      assert s'.attempts == (before + [acted]) + [FreshAttempt(a.retries + 1, s.row)];
      ChainOf(s', before + [acted], FreshAttempt(a.retries + 1, s.row));
    }
  }

  lemma ChainOf(s: System, before: seq<Attempt>, last: Attempt)
    requires s.attempts == before + [last] && |before| <= MAX_TRANSIENT_RETRIES
    requires forall j | 0 <= j < |before| :: before[j].retries == j && before[j].pc.Over? && !before[j].escaped
    requires last.retries == |before| && LastInv(s.row, last)
    ensures ChainInv(s)
  {
    assert forall j | 0 <= j < |before| :: s.attempts[j] == before[j];
  }

  lemma StepKeepsChain(s: System, step: Step)
    requires Inv(s) && ChainInv(s) && Enabled(s, step) && !step.Crash? && !step.Redeliver?
    ensures ChainInv(Next(s, step))
    ensures Budget(Next(s, step)) + (if step.Act? then 1 else 0) <= Budget(s)
  {
    if step.Act? {
      ActKeepsChain(s, step.i, step.reply, step.now);
    }
  }

  lemma {:induction false} ChainRun(s: System, steps: seq<Step>)
    requires Inv(s) && ChainInv(s) && Possible(s, steps) && CrashFree(steps)
    ensures ChainInv(Run(s, steps)) && Inv(Run(s, steps))
    ensures WorkerSteps(steps) + Budget(Run(s, steps)) <= Budget(s)
    decreases |steps|
  {
    if steps != [] {
      assert steps[0] in steps;
      assert forall step | step in steps[1..] :: step in steps;
      StepKeeps(s, steps[0]);
      StepKeepsChain(s, steps[0]);
      ChainRun(Next(s, steps[0]), steps[1..]);
    }
  }

  predicate AllOver(s: System) {
    forall a | a in s.attempts :: a.pc.Over?
  }

  predicate Escaped(s: System) {
    exists a | a in s.attempts :: a.escaped
  }

  ghost predicate CanAct(a: Attempt) {
    exists reply :: Fits(a.pc, reply) && !reply.Raise?
  }

  /** Every crash-free run of a submitted job takes at most four attempts, a first one and three
      retries, and a bounded number of worker steps, and until its attempts are over the last one can move. Once
      they are over, the job is unfinished exactly when an exception has left the task and no cancel
      call had failed the job in the queue. */
  lemma CrashFreeRunsEnd(transform: TransformType, nlPrompt: string, pattern: string, steps: seq<Step>)
    requires Possible(Initial(transform, nlPrompt, pattern), steps) && CrashFree(steps)
    ensures var s := Run(Initial(transform, nlPrompt, pattern), steps);
            && |s.attempts| <= 4
            && WorkerSteps(steps) < STEPS_PER_ATTEMPT * (MAX_TRANSIENT_RETRIES + 1)
            && (!AllOver(s) ==> CanAct(s.attempts[|s.attempts| - 1]))
            && (AllOver(s) ==> (!Terminal(s.row.status) <==> Escaped(s) && !CancelledInQueue(s.row)))
  {
    var s0 := Initial(transform, nlPrompt, pattern);
    InvOfInitial(transform, nlPrompt, pattern);
    ChainRun(s0, steps);
    var s := Run(s0, steps);
    var last := s.attempts[|s.attempts| - 1];
    assert last in s.attempts;
    if AllOver(s) {
      EscapedIsLast(s);
    } else {
      var reply := if last.pc.AskForPattern? || last.pc.AskForSpec? then Answer("x", false)
                   else if last.pc.Finalizing? then Stats(0, 0)
                   else Fine;
      assert Fits(last.pc, reply);
    }
  }

  lemma EscapedIsLast(s: System)
    requires ChainInv(s)
    ensures Escaped(s) <==> s.attempts[|s.attempts| - 1].escaped
  {
  }

  // --- a job that no worker will finish ---

  /** Some run without crashes and redeliveries leads from one state to the other. */
  ghost predicate ReachesCalmly(s0: System, s: System) {
    exists steps :: Possible(s0, steps) && CrashFree(steps) && Run(s0, steps) == s
  }

  lemma Calm(s0: System, s: System, reply: Reply) returns (after: System)
    requires ReachesCalmly(s0, s) && |s.attempts| == 1 && Fits(s.attempts[0].pc, reply)
    requires Scheduled(s.row, s.attempts[0], reply) == []
    ensures ReachesCalmly(s0, after)
    ensures after.row == ActOnce(s.row, s.attempts[0], reply, 1).0
    ensures after.attempts == [ActOnce(s.row, s.attempts[0], reply, 1).1]
  {
    var steps :| Possible(s0, steps) && CrashFree(steps) && Run(s0, steps) == s;
    var step := Act(0, reply, 1);
    RunThenStep(s0, steps, step);
    assert CrashFree(steps + [step]);
    after := Next(s, step);
  }

  /** An attempt hits its time limit, and cancelling its Spark jobs raises: the failure is never
      recorded, no attempt is left, and the job stays RUNNING. */
  lemma LeftRunning(nlPrompt: string, pattern: string) returns (s: System)
    ensures ReachesCalmly(Initial(RegexReplace, nlPrompt, pattern), s)
    ensures AllOver(s) && Escaped(s) && s.row.status == Running && !CancelRequested(s.row)
  {
    var s0 := Initial(RegexReplace, nlPrompt, pattern);
    assert Possible(s0, []) && CrashFree([]) && Run(s0, []) == s0;
    s := Calm(s0, s0, Fine);
    assert s.attempts[0].pc == LoadJob;
    s := Calm(s0, s, Fine);
    assert s.attempts[0].pc == FirstCheck && s.row.status == Running;
    s := TimedOut(s0, s);
  }

  lemma TimedOut(s0: System, s: System) returns (after: System)
    requires ReachesCalmly(s0, s) && |s.attempts| == 1 && s.attempts[0].pc == FirstCheck
    requires s.row.status == Running && !CancelRequested(s.row)
    ensures ReachesCalmly(s0, after) && after.row == s.row
    ensures AllOver(after) && Escaped(after)
  {
    after := Calm(s0, s, Raise(SoftTimeLimit));
    assert after.attempts[0].pc == Handle(SoftTimeLimit) && after.row == s.row;
    after := Calm(s0, after, Fine);
    assert after.attempts[0].pc == CancelSpark;
    after := Calm(s0, after, Raise(Unexpected));
    assert after.attempts[0].escaped;
  }
}
