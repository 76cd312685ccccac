/** As long as attempts do not overlap, no attempt is stale, so that what is saved is reused whatever
    happens afterwards (backend/apps/jobs/tasks.py, lines 132-148; transform_builders.py, lines
    42-94). */
module JobGeneration {
  import opened JobRow
  import opened JobProtocol
  import opened JobSafety
  import opened JobStaleness

  predicate Live(a: Attempt) {
    !a.pc.Begin? && !a.pc.Over?
  }

  /** An attempt starts only when no other is running. */
  predicate Exclusive(s: System, step: Step)
    requires Enabled(s, step)
  {
    step.Act? && s.attempts[step.i].pc.Begin? ==> forall a | a in s.attempts :: !Live(a)
  }

  predicate Sequential(s: System, steps: seq<Step>)
    requires Possible(s, steps)
    decreases |steps|
  {
    steps == [] || (Exclusive(s, steps[0]) && Sequential(Next(s, steps[0]), steps[1..]))
  }

  predicate BeforePattern(pc: Pc) {
    pc.FirstCheck? || pc.Resolve? || pc.AskForPattern? || pc.SavePattern?
  }

  predicate BeforeSpec(pc: Pc) {
    || BeforePattern(pc) || pc.SecondCheck? || pc.OpenSource? || pc.Build?
    || pc.SampleCheck? || pc.AskForSpec? || pc.SaveSpec?
  }

  /** The attempt's copy of the row is still right about what it has not yet decided. */
  ghost predicate CopyCurrent(row: Row, a: Attempt) {
    && (BeforePattern(a.pc) ==> a.job.pattern == row.pattern)
    && (BeforeSpec(a.pc) ==> a.job.spec == row.spec)
    && (BeforeSpec(a.pc) || a.pc.SpecCheck? || Applying(a.pc) ==> a.job.transform == row.transform)
  }

  /** The language model is asked only for what the row does not have. */
  ghost predicate AsksForMissing(row: Row, a: Attempt) {
    && (a.pc.AskForPattern? || a.pc.SavePattern? ==> row.pattern == "")
    && (a.pc.SavePattern? ==> a.pc.text != "")
    && (a.pc.SampleCheck? || a.pc.AskForSpec? || a.pc.SaveSpec? ==> row.spec.None?)
    && (a.pc.SampleCheck? || a.pc.AskForSpec? || a.pc.SaveSpec? || a.pc.SpecCheck? ==> !row.transform.RegexReplace?)
  }

  ghost predicate AppliesSaved(row: Row, a: Attempt) {
    && (BeforeSpec(a.pc) && !BeforePattern(a.pc) && row.transform.RegexReplace? ==> Applies(row, a))
    && (a.pc.SpecCheck? || Applying(a.pc) ==> Applies(row, a))
  }

  /** What a running attempt and the row agree on, when the attempt is the only one. */
  ghost predicate Agrees(row: Row, a: Attempt) {
    CopyCurrent(row, a) && AsksForMissing(row, a) && AppliesSaved(row, a)
  }

  ghost predicate SoloInv(s: System) {
    && (forall i, j | 0 <= i < |s.attempts| && 0 <= j < |s.attempts| && Live(s.attempts[i]) && Live(s.attempts[j]) ::
          i == j)
    && (forall i | 0 <= i < |s.attempts| && Live(s.attempts[i]) :: Agrees(s.row, s.attempts[i]))
  }

  lemma ActOnceAgrees(row: Row, a: Attempt, reply: Reply, now: Time)
    requires Fits(a.pc, reply) && (Live(a) ==> Agrees(row, a))
    ensures Live(ActOnce(row, a, reply, now).1) ==> Agrees(ActOnce(row, a, reply, now).0, ActOnce(row, a, reply, now).1)
  {
    if Live(ActOnce(row, a, reply, now).1) {
      CopyStaysCurrent(row, a, reply, now);
      AsksOnlyForMissing(row, a, reply, now);
      KeepsApplying(row, a, reply, now);
    }
  }

  lemma CopyStaysCurrent(row: Row, a: Attempt, reply: Reply, now: Time)
    requires Fits(a.pc, reply) && (Live(a) ==> CopyCurrent(row, a) && AsksForMissing(row, a))
    ensures CopyCurrent(ActOnce(row, a, reply, now).0, ActOnce(row, a, reply, now).1)
  {
    WhatAnActTouches(row, a, reply, now);
    NextBefore(row, a, reply, now);
  }

  lemma WhatAnActTouches(row: Row, a: Attempt, reply: Reply, now: Time)
    requires Fits(a.pc, reply)
    ensures var (row', a') := ActOnce(row, a, reply, now);
            && row'.transform == row.transform
            && (row'.pattern != row.pattern ==> a.pc.SavePattern? && !reply.Raise?)
            && (row'.spec != row.spec ==> a.pc.SaveSpec? && !reply.Raise?)
            && a'.job == if a.pc.LoadJob? && !reply.Raise? then row else a.job
  {
  }

  lemma NextBefore(row: Row, a: Attempt, reply: Reply, now: Time)
    requires Fits(a.pc, reply)
    ensures var pc := ActOnce(row, a, reply, now).1.pc;
            && (BeforePattern(pc) ==> a.pc.LoadJob? || (BeforePattern(a.pc) && !a.pc.SavePattern?))
            && (BeforeSpec(pc) ==> a.pc.LoadJob? || (BeforeSpec(a.pc) && !a.pc.SaveSpec?))
            && (pc.SpecCheck? || Applying(pc) ==> BeforeSpec(a.pc) || a.pc.SpecCheck? || Applying(a.pc))
  {
  }

  lemma AsksOnlyForMissing(row: Row, a: Attempt, reply: Reply, now: Time)
    requires Fits(a.pc, reply) && (Live(a) ==> CopyCurrent(row, a) && AsksForMissing(row, a))
    ensures AsksForMissing(ActOnce(row, a, reply, now).0, ActOnce(row, a, reply, now).1)
  {
    if !reply.Raise? {
      match a.pc
      case Begin =>
      case LoadJob =>
      case Resolve =>
      case Build =>
      case Handle(_) =>
      case _ =>
    }
  }

  lemma KeepsApplying(row: Row, a: Attempt, reply: Reply, now: Time)
    requires Fits(a.pc, reply) && (Live(a) ==> Agrees(row, a))
    ensures AppliesSaved(ActOnce(row, a, reply, now).0, ActOnce(row, a, reply, now).1)
  {
    if !reply.Raise? {
      match a.pc
      case Begin => NothingToApply(ActOnce(row, a, reply, now).0, ActOnce(row, a, reply, now).1);
      case Commit(_, _) => NothingToApply(ActOnce(row, a, reply, now).0, ActOnce(row, a, reply, now).1);
      case Handle(_) => NothingToApply(ActOnce(row, a, reply, now).0, ActOnce(row, a, reply, now).1);
      case Record(_, _) => NothingToApply(ActOnce(row, a, reply, now).0, ActOnce(row, a, reply, now).1);
      case _ =>
    }
  }

  lemma NothingToApply(row: Row, a: Attempt)
    requires a.pc.LoadJob? || InHandler(a.pc) || a.pc.Over?
    ensures AppliesSaved(row, a)
  {
  }

  lemma OtherRowSame(before: Row, after: Row, a: Attempt)
    requires Agrees(before, a)
    requires after.pattern == before.pattern && after.spec == before.spec && after.transform == before.transform
    ensures Agrees(after, a)
  {
  }

  lemma StepKeepsSolo(s: System, step: Step)
    requires SoloInv(s) && Enabled(s, step) && Exclusive(s, step)
    ensures SoloInv(Next(s, step))
  {
    var s' := Next(s, step);
    if step.Act? {
      var a := s.attempts[step.i];
      assert a in s.attempts;
      ActOnceAgrees(s.row, a, step.reply, step.now);
      assert forall i | 0 <= i < |s.attempts| :: s.attempts[i] in s.attempts;
      if a.pc.Begin? {
        IdleActChangesNothing(s.row, a, step.reply, step.now);
      }
    } else {
      forall i | 0 <= i < |s'.attempts| && Live(s'.attempts[i]) ensures Agrees(s'.row, s'.attempts[i]) {
        assert i < |s.attempts| && s'.attempts[i] == s.attempts[i];
        OtherRowSame(s.row, s'.row, s.attempts[i]);
      }
    }
  }

  lemma IdleActChangesNothing(row: Row, a: Attempt, reply: Reply, now: Time)
    requires Fits(a.pc, reply) && a.pc.Begin?
    ensures var row' := ActOnce(row, a, reply, now).0;
            row'.pattern == row.pattern && row'.spec == row.spec && row'.transform == row.transform
  {
  }

  lemma {:induction false} SequentialKeepsSolo(s: System, steps: seq<Step>)
    requires Inv(s) && SoloInv(s) && Possible(s, steps) && Sequential(s, steps)
    ensures Inv(Run(s, steps)) && SoloInv(Run(s, steps))
    decreases |steps|
  {
    if steps != [] {
      StepKeeps(s, steps[0]);
      StepKeepsSolo(s, steps[0]);
      SequentialKeepsSolo(Next(s, steps[0]), steps[1..]);
    }
  }

  lemma SoloIsFresh(s: System)
    requires Inv(s) && SoloInv(s) && Saved(s.row)
    ensures !SomeStale(s) && AllAligned(s)
  {
    forall a | a in s.attempts ensures !Stale(s.row, a) && Aligned(s.row, a) {
      assert KindInv(s.row, a);
    }
  }

  lemma InitialIsSolo(transform: TransformType, nlPrompt: string, pattern: string)
    ensures SoloInv(Initial(transform, nlPrompt, pattern))
  {
  }

  /** If attempts do not overlap until a pattern (or specification) is saved, then in every run from
      there, overlapping or not, it stays, the language model is not asked again, and every attempt
      that transforms data applies it. */
  lemma SavedWorkIsReused(transform: TransformType, nlPrompt: string, pattern: string, before: seq<Step>,
                          after: seq<Step>)
    requires Possible(Initial(transform, nlPrompt, pattern), before)
    requires Sequential(Initial(transform, nlPrompt, pattern), before)
    requires Saved(Run(Initial(transform, nlPrompt, pattern), before).row)
    requires Possible(Run(Initial(transform, nlPrompt, pattern), before), after)
    ensures var saved := Run(Initial(transform, nlPrompt, pattern), before);
            var end := Run(saved, after);
            && SameWork(saved, end)
            && (forall a | a in end.attempts && Applying(a.pc) :: Applies(end.row, a))
  {
    var s0 := Initial(transform, nlPrompt, pattern);
    InvOfInitial(transform, nlPrompt, pattern);
    InitialIsSolo(transform, nlPrompt, pattern);
    SequentialKeepsSolo(s0, before);
    var saved := Run(s0, before);
    SoloIsFresh(saved);
    FreshRun(saved, after);
    AlignedRun(saved, after);
  }
}
