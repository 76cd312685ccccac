/** When every attempt applies what the row has saved (backend/apps/jobs/tasks.py, lines 74-84 and
    132-148; transform_builders.py, lines 34-94). */
module JobApplied {
  import opened Wrappers
  import opened JobRow
  import opened JobProtocol
  import opened JobSafety
  import opened JobStaleness

  /** What the row has saved for its kind of job. */
  function SavedWork(row: Row): Option<string> {
    if row.transform.RegexReplace? then Some(row.pattern) else row.spec
  }

  /** What an attempt that has resolved its work applies. */
  function AppliedWork(a: Attempt): Option<string> {
    if a.job.transform.RegexReplace? then a.resolved else a.spec
  }

  /** A running job that nobody has asked to cancel. */
  predicate GoesOn(row: Row) {
    row.status == Running && !CancelRequested(row)
  }

  /** Rows that agree on everything an attempt of a job that goes on looks at. */
  predicate Alike(before: Row, after: Row) {
    && after.transform == before.transform && after.nlPrompt == before.nlPrompt
    && after.pattern == before.pattern && after.spec == before.spec
    && GoesOn(before) && GoesOn(after)
  }

  predicate AllApply(s: System) {
    forall a | a in s.attempts && Applying(a.pc) :: Applies(s.row, a)
  }

  lemma AppliesByWork(row: Row, a: Attempt)
    requires KindInv(row, a)
    ensures Applies(row, a) ==> AppliedWork(a) == SavedWork(row)
  {
  }

  // --- where an undisturbed attempt is headed ---

  /** What the attempt comes to apply if nothing fails and the row stays as it is; None when it first
      has to ask, or has failed. */
  function Destined(row: Row, a: Attempt): Option<Option<string>> {
    match a.pc
    case Begin => if Saved(row) then Some(SavedWork(row)) else None
    case LoadJob => if Saved(row) then Some(SavedWork(row)) else None
    case FirstCheck => if Saved(a.job) then Some(SavedWork(a.job)) else None
    case Resolve => if a.job.pattern != "" then Some(Some(a.job.pattern)) else None
    case SecondCheck => Built(a)
    case OpenSource => Built(a)
    case Build => Built(a)
    case SpecCheck => Some(AppliedWork(a))
    case Transforming => Some(AppliedWork(a))
    case Finalizing => Some(AppliedWork(a))
    case Commit(_, _) => Some(AppliedWork(a))
    case _ => None
  }

  function Built(a: Attempt): Option<Option<string>> {
    if a.job.transform.RegexReplace? then Some(a.resolved) else if a.job.spec.Some? then Some(a.job.spec) else None
  }

  lemma AlignedIsDestined(row: Row, a: Attempt)
    requires Saved(row) && KindInv(row, a) && !a.pc.Begin? && !a.pc.LoadJob?
    ensures Aligned(row, a) <==> Destined(row, a).None? || Destined(row, a) == Some(SavedWork(row))
  {
  }

  lemma DestinedMoves(row: Row, a: Attempt)
    requires GoesOn(row) && KindInv(row, a) && Destined(row, a).Some? && !Applying(a.pc)
    ensures Fits(a.pc, Fine) && Scheduled(row, a, Fine) == []
    ensures var (row', a') := ActOnce(row, a, Fine, 0);
            && Alike(row, row') && Destined(row', a') == Destined(row, a)
            && PcRank(a'.pc) < PcRank(a.pc)
  {
  }

  lemma {:induction false} WalksOn(s: System, i: nat) returns (steps: seq<Step>)
    requires Inv(s) && i < |s.attempts| && GoesOn(s.row) && Destined(s.row, s.attempts[i]).Some?
    ensures Possible(s, steps)
    ensures var end := Run(s, steps);
            && Inv(end) && Alike(s.row, end.row) && |end.attempts| == |s.attempts|
            && (forall j | 0 <= j < |s.attempts| && j != i :: end.attempts[j] == s.attempts[j])
            && Applying(end.attempts[i].pc) && Some(AppliedWork(end.attempts[i])) == Destined(s.row, s.attempts[i])
    decreases PcRank(s.attempts[i].pc)
  {
    var a := s.attempts[i];
    if Applying(a.pc) {
      steps := [];
    } else {
      assert KindInv(s.row, a);
      DestinedMoves(s.row, a);
      var step := Act(i, Fine, 0);
      var s' := Next(s, step);
      StepKeeps(s, step);
      var rest := WalksOn(s', i);
      RunFrom(s, step, rest);
      steps := [step] + rest;
    }
  }

  /** An attempt headed for anything else comes to apply it. */
  lemma MisalignedApplies(s: System, i: nat) returns (steps: seq<Step>)
    requires Inv(s) && Saved(s.row) && GoesOn(s.row) && i < |s.attempts| && !Aligned(s.row, s.attempts[i])
    ensures Possible(s, steps) && !AllApply(Run(s, steps))
  {
    var a := s.attempts[i];
    assert KindInv(s.row, a);
    AlignedIsDestined(s.row, a);
    steps := WalksOn(s, i);
    var end := Run(s, steps);
    assert KindInv(end.row, end.attempts[i]);
    AppliesByWork(end.row, end.attempts[i]);
    assert end.attempts[i] in end.attempts;
  }

  // --- a stale attempt saves while another applies ---

  lemma StaleGoesOn(before: Row, after: Row, a: Attempt)
    requires Alike(before, after) && Stale(before, a)
    ensures Stale(after, a)
  {
  }

  /** The stale attempt moves on, or changes what is saved. */
  lemma StaleMovesOrSaves(row: Row, a: Attempt)
    requires Saved(row) && GoesOn(row) && Stale(row, a) && KindInv(row, a)
    ensures Fits(a.pc, Told(row, a)) && Scheduled(row, a, Told(row, a)) == []
    ensures var (row', a') := ActOnce(row, a, Told(row, a), 0);
            if HoldsOther(row, a) then
              row'.transform == row.transform && SavedWork(row') != SavedWork(row)
            else
              row' == row && Stale(row, a') && PcRank(a'.pc) < PcRank(a.pc)
  {
    NewAnswerIsNew(row);
  }

  lemma {:induction false} StaleSaves(s: System, i: nat) returns (steps: seq<Step>)
    requires Inv(s) && Saved(s.row) && GoesOn(s.row) && i < |s.attempts| && Stale(s.row, s.attempts[i])
    ensures Possible(s, steps)
    ensures var end := Run(s, steps);
            && Inv(end) && |end.attempts| == |s.attempts|
            && (forall j | 0 <= j < |s.attempts| && j != i :: end.attempts[j] == s.attempts[j])
            && SavedWork(end.row) != SavedWork(s.row)
    decreases PcRank(s.attempts[i].pc)
  {
    var a := s.attempts[i];
    assert KindInv(s.row, a);
    StaleMovesOrSaves(s.row, a);
    var step := Act(i, Told(s.row, a), 0);
    var s' := Next(s, step);
    StepKeeps(s, step);
    if HoldsOther(s.row, a) {
      RunFrom(s, step, []);
      steps := [step] + [];
      assert Run(s, steps) == s';
    } else {
      var rest := StaleSaves(s', i);
      RunFrom(s, step, rest);
      steps := [step] + rest;
    }
  }

  lemma {:induction false} RunAfterRun(s: System, first: seq<Step>, second: seq<Step>)
    requires Possible(s, first) && Possible(Run(s, first), second)
    ensures Possible(s, first + second) && Run(s, first + second) == Run(Run(s, first), second)
    decreases |first|
  {
    if first == [] {
      assert first + second == second;
    } else {
      assert (first + second)[1..] == first[1..] + second;
      RunAfterRun(Next(s, first[0]), first[1..], second);
    }
  }

  /** A redelivered attempt comes to apply what is saved; then the stale one saves something else. */
  lemma StaleUndercuts(s: System, i: nat) returns (steps: seq<Step>)
    requires Inv(s) && Saved(s.row) && GoesOn(s.row) && i < |s.attempts| && Stale(s.row, s.attempts[i])
    ensures Possible(s, steps) && !AllApply(Run(s, steps))
  {
    var n := |s.attempts|;
    var redelivered := Next(s, Redeliver(i));
    StepKeeps(s, Redeliver(i));
    var walk := WalksOn(redelivered, n);
    var applying := Run(redelivered, walk);
    StaleGoesOn(s.row, applying.row, s.attempts[i]);
    var save := StaleSaves(applying, i);
    var end := Run(applying, save);
    RunAfterRun(redelivered, walk, save);
    RunFrom(s, Redeliver(i), walk + save);
    steps := [Redeliver(i)] + (walk + save);
    assert end.attempts[n] in end.attempts && KindInv(end.row, end.attempts[n]);
    AppliesByWork(end.row, end.attempts[n]);
  }

  /** Once a pattern or specification is saved for a job that goes on: in every run every transforming
      attempt applies what the row has saved, exactly when no attempt is stale and all of them are
      aligned with what is saved. */
  lemma AppliedExactly(s: System)
    requires Inv(s) && Saved(s.row) && GoesOn(s.row)
    ensures (forall steps | Possible(s, steps) :: AllApply(Run(s, steps))) <==> !SomeStale(s) && AllAligned(s)
  {
    if SomeStale(s) {
      var i :| 0 <= i < |s.attempts| && Stale(s.row, s.attempts[i]);
      var steps := StaleUndercuts(s, i);
    } else if !AllAligned(s) {
      var i :| 0 <= i < |s.attempts| && !Aligned(s.row, s.attempts[i]);
      var steps := MisalignedApplies(s, i);
    } else {
      forall steps | Possible(s, steps) ensures AllApply(Run(s, steps)) {
        AlignedRun(s, steps);
      }
    }
  }
}
