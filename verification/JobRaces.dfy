/** Runs that show where the protocol's answers stop: what a cancel call does not promise, and what
    overlapping attempts can do. */
module JobRaces {
  import opened Wrappers
  import opened JobRow
  import opened JobProtocol

  /** A job with a pattern, at the first check of its only attempt. */
  lemma Started(s0: System, s: System, i: nat) returns (after: System)
    requires Reaches(s0, s) && i < |s.attempts| && s.attempts[i].pc == Begin
    requires s.row.status == Queued || s.row.status == Running
    requires !CancelRequested(s.row)
    ensures Reaches(s0, after) && |after.attempts| == |s.attempts|
    ensures after.attempts[i].pc == FirstCheck && after.attempts[i].job == after.row
    ensures forall j | 0 <= j < |s.attempts| && j != i :: after.attempts[j] == s.attempts[j]
    ensures after.row.status == Running && !CancelRequested(after.row)
    ensures after.row.pattern == s.row.pattern && after.row.nlPrompt == s.row.nlPrompt
    ensures after.row.transform == s.row.transform
    ensures after.cancels == s.cancels && after.patternCalls == s.patternCalls
  {
    var middle := Work(s0, s, i, Fine, 1);
    after := Work(s0, middle, i, Fine, 1);
  }

  /** A cancel call comes as far as its last query, having flagged the job. */
  lemma Flagged(s0: System, s: System) returns (after: System)
    requires Reaches(s0, s) && s.cancels == [] && s.row.status == Running && !CancelRequested(s.row)
    ensures Reaches(s0, after) && after.cancels == [Check] && after.attempts == s.attempts
    ensures after.row.status == Running && CancelRequested(after.row) && after.row.pattern == s.row.pattern
  {
    Then(s0, s, CallCancel);
    var called := Next(s, CallCancel);
    assert called.cancels == [FailIfQueued];
    Then(s0, called, CancelAct(0, 2));
    var tried := Next(called, CancelAct(0, 2));
    assert tried.cancels == [Flag] && tried.row == s.row;
    Then(s0, tried, CancelAct(0, 2));
    after := Next(tried, CancelAct(0, 2));
  }

  lemma Answered(s0: System, s: System) returns (after: System)
    requires Reaches(s0, s) && s.cancels == [Check]
    ensures Reaches(s0, after) && after.row == s.row && after.attempts == s.attempts
    ensures after.cancels == [if CancelPending(s.row) then Returned else Refused]
  {
    Then(s0, s, CancelAct(0, 5));
    after := Next(s, CancelAct(0, 5));
  }

  /** A refused cancel can still have cancelled the job: the worker acts on the flag between the
      two queries of `request_cancel`, and the second query then finds the job finished. */
  lemma RefusedYetCancelled(nlPrompt: string, pattern: string) returns (s: System)
    ensures Reaches(Initial(RegexReplace, nlPrompt, pattern), s)
    ensures s.cancels == [Refused]
    ensures s.row.status == Failed && s.row.errorCode == Cancelled
  {
    var s0 := Initial(RegexReplace, nlPrompt, pattern);
    s := Start(s0);
    s := Started(s0, s, 0);
    s := Flagged(s0, s);
    s := ActedOnFlag(s0, s, 0);
    s := Answered(s0, s);
  }

  lemma ActedOnFlag(s0: System, s: System, i: nat) returns (after: System)
    requires Reaches(s0, s) && i < |s.attempts| && s.attempts[i].pc == FirstCheck
    requires s.row.status == Running && CancelRequested(s.row)
    ensures Reaches(s0, after) && after.cancels == s.cancels && |after.attempts| == |s.attempts|
    ensures forall j | 0 <= j < |s.attempts| && j != i :: after.attempts[j] == s.attempts[j]
    ensures after.row.status == Failed && after.row.errorCode == Cancelled && after.row.pattern == s.row.pattern
  {
    after := Work(s0, s, i, Fine, 1);
    assert after.attempts[i].pc == Handle(JobCancelled) && after.row == s.row;
    after := Work(s0, after, i, Fine, 1);
    after := RecordedCancel(s0, after, i);
  }

  lemma RecordedCancel(s0: System, s: System, i: nat) returns (after: System)
    requires Reaches(s0, s) && i < |s.attempts| && s.attempts[i].pc == Record(Cancelled, CANCELLED_MESSAGE)
    requires s.row.status == Running
    ensures Reaches(s0, after) && after.cancels == s.cancels && |after.attempts| == |s.attempts|
    ensures forall j | 0 <= j < |s.attempts| && j != i :: after.attempts[j] == s.attempts[j]
    ensures after.row.status == Failed && after.row.errorCode == Cancelled && after.row.pattern == s.row.pattern
  {
    after := Work(s0, s, i, Fine, 1);
  }

  /** A cancel call that returned does not promise a cancelled job: after the last check of the
      worker, the job can still succeed. */
  lemma ReturnedYetSucceeded(pattern: string) returns (s: System)
    requires pattern != ""
    ensures Reaches(Initial(RegexReplace, "", pattern), s)
    ensures s.cancels == [Returned]
    ensures s.row.status == Success
  {
    var s0 := Initial(RegexReplace, "", pattern);
    s := Start(s0);
    s := Started(s0, s, 0);
    s := Checked(s0, s);
    s := Flagged(s0, s);
    s := Answered(s0, s);
    s := Transformed(s0, s);
  }

  lemma Checked(s0: System, s: System) returns (after: System)
    requires Reaches(s0, s) && |s.attempts| == 1 && s.attempts[0].pc == FirstCheck
    requires s.attempts[0].job.transform.RegexReplace? && s.attempts[0].job.pattern != ""
    requires !CancelRequested(s.row)
    ensures Reaches(s0, after) && after.row == s.row && after.cancels == s.cancels
    ensures |after.attempts| == 1 && after.attempts[0].pc == OpenSource && after.attempts[0].job == s.attempts[0].job
  {
    after := Work(s0, s, 0, Fine, 1);
    after := Work(s0, after, 0, Fine, 1);
    after := Work(s0, after, 0, Fine, 1);
  }

  lemma Transformed(s0: System, s: System) returns (after: System)
    requires Reaches(s0, s) && |s.attempts| == 1 && s.attempts[0].pc == OpenSource
    requires s.attempts[0].job.transform.RegexReplace? && s.row.status == Running
    ensures Reaches(s0, after) && after.row.status == Success && after.cancels == s.cancels
  {
    after := Work(s0, s, 0, Fine, 1);
    after := Work(s0, after, 0, Fine, 1);
    assert after.attempts[0].pc == Transforming && after.row == s.row;
    after := Finished(s0, after);
  }

  lemma Finished(s0: System, s: System) returns (after: System)
    requires Reaches(s0, s) && |s.attempts| == 1 && s.attempts[0].pc == Transforming && s.row.status == Running
    ensures Reaches(s0, after) && after.row.status == Success && after.cancels == s.cancels
  {
    after := Work(s0, s, 0, Fine, 1);
    after := Work(s0, after, 0, Stats(1, 1), 1);
    assert after.attempts[0].pc == Commit(1, 1) && after.row == s.row;
    after := Work(s0, after, 0, Fine, 1);
  }

  /** Without the exclusion of overlapping attempts a redelivered job calls the language model
      twice, and one attempt applies a pattern that the row does not keep. */
  lemma OverlapAsksTwice(nlPrompt: string, p: string, q: string) returns (s: System)
    requires nlPrompt != "" && p != "" && q != "" && p != q
    ensures Reaches(Initial(RegexReplace, nlPrompt, ""), s)
    ensures s.patternCalls == 2 && s.row.pattern == q
    ensures |s.attempts| == 2 && s.attempts[0].pc == Transforming && s.attempts[0].resolved == Some(p)
  {
    var s0 := Initial(RegexReplace, nlPrompt, "");
    s := BothAsking(nlPrompt);
    s := Saved(s0, s, 0, p);
    s := Saved(s0, s, 1, q);
    s := Builds(s0, s, 0);
  }

  lemma BothAsking(nlPrompt: string) returns (s: System)
    requires nlPrompt != ""
    ensures Reaches(Initial(RegexReplace, nlPrompt, ""), s) && |s.attempts| == 2 && s.patternCalls == 0
    ensures s.attempts[0].pc == AskForPattern && s.attempts[1].pc == AskForPattern
    ensures s.attempts[0].job.transform.RegexReplace? && !CancelRequested(s.row)
  {
    var s0 := Initial(RegexReplace, nlPrompt, "");
    s := Start(s0);
    Then(s0, s, Redeliver(0));
    s := Next(s, Redeliver(0));
    s := Started(s0, s, 0);
    s := Asking(s0, s, 0);
    s := Started(s0, s, 1);
    s := Asking(s0, s, 1);
  }

  /** From the second check to the pass over the data. */
  lemma Builds(s0: System, s: System, i: nat) returns (after: System)
    requires Reaches(s0, s) && i < |s.attempts| && s.attempts[i].pc == SecondCheck
    requires s.attempts[i].job.transform.RegexReplace? && !CancelRequested(s.row)
    ensures Reaches(s0, after) && |after.attempts| == |s.attempts| && after.row == s.row
    ensures after.attempts[i] == s.attempts[i].(pc := Transforming)
    ensures after.patternCalls == s.patternCalls
  {
    after := Work(s0, s, i, Fine, 1);
    after := Work(s0, after, i, Fine, 1);
    assert after.attempts[i] == s.attempts[i].(pc := Build) && after.row == s.row;
    after := Work(s0, after, i, Fine, 1);
  }

  lemma Saved(s0: System, s: System, i: nat, text: string) returns (after: System)
    requires Reaches(s0, s) && i < |s.attempts| && s.attempts[i].pc == AskForPattern && text != ""
    ensures Reaches(s0, after) && |after.attempts| == |s.attempts|
    ensures after.attempts[i] == s.attempts[i].(pc := SecondCheck, resolved := Some(text))
    ensures CancelRequested(after.row) == CancelRequested(s.row)
    ensures forall j | 0 <= j < |s.attempts| && j != i :: after.attempts[j] == s.attempts[j]
    ensures after.row.pattern == text && after.patternCalls == s.patternCalls + 1
  {
    after := Work(s0, s, i, Answer(text, false), 1);
    after := Work(s0, after, i, Fine, 1);
  }

  lemma Asking(s0: System, s: System, i: nat) returns (after: System)
    requires Reaches(s0, s) && i < |s.attempts| && s.attempts[i].pc == FirstCheck
    requires s.attempts[i].job.transform.RegexReplace?
    requires s.attempts[i].job.pattern == "" && s.attempts[i].job.nlPrompt != ""
    requires !CancelRequested(s.row)
    ensures Reaches(s0, after) && |after.attempts| == |s.attempts|
    ensures after.attempts[i].pc == AskForPattern
    ensures forall j | 0 <= j < |s.attempts| && j != i :: after.attempts[j] == s.attempts[j]
    ensures after.row == s.row && after.cancels == s.cancels && after.patternCalls == s.patternCalls
    ensures after.attempts[i].job == s.attempts[i].job
  {
    after := Work(s0, s, i, Fine, 1);
    after := Work(s0, after, i, Fine, 1);
  }

  /** A finished job can still change: an attempt that was asking when another one recorded the
      cancellation gets its answer and saves the pattern. */
  lemma SavedAfterTheEnd(nlPrompt: string, p: string) returns (finished: System, s: System)
    requires nlPrompt != "" && p != ""
    ensures Reaches(Initial(RegexReplace, nlPrompt, ""), finished) && Reaches(finished, s)
    ensures finished.row.status == Failed && finished.row.errorCode == Cancelled && finished.row.pattern == ""
    ensures s.row == finished.row.(pattern := p, llmCached := Some(false))
  {
    finished := AskedAndCancelled(nlPrompt);
    s := Start(finished);
    s := LateSave(finished, s, p);
  }

  /** One attempt is asking while a redelivered one is about to check for a cancel request. */
  lemma TwoUnderWay(nlPrompt: string) returns (s: System)
    requires nlPrompt != ""
    ensures Reaches(Initial(RegexReplace, nlPrompt, ""), s) && s.cancels == [] && |s.attempts| == 2
    ensures s.attempts[0].pc == AskForPattern && s.attempts[1].pc == FirstCheck
    ensures s.row.status == Running && !CancelRequested(s.row) && s.row.pattern == ""
  {
    var s0 := Initial(RegexReplace, nlPrompt, "");
    s := Start(s0);
    Then(s0, s, Redeliver(0));
    s := Next(s, Redeliver(0));
    s := Started(s0, s, 0);
    s := Asking(s0, s, 0);
    s := Started(s0, s, 1);
  }

  lemma AskedAndCancelled(nlPrompt: string) returns (s: System)
    requires nlPrompt != ""
    ensures Reaches(Initial(RegexReplace, nlPrompt, ""), s) && |s.attempts| == 2
    ensures s.attempts[0].pc == AskForPattern
    ensures s.row.status == Failed && s.row.errorCode == Cancelled && s.row.pattern == ""
  {
    var s0 := Initial(RegexReplace, nlPrompt, "");
    s := TwoUnderWay(nlPrompt);
    s := Flagged(s0, s);
    s := ActedOnFlag(s0, s, 1);
  }

  lemma LateSave(s0: System, s: System, text: string) returns (after: System)
    requires Reaches(s0, s) && |s.attempts| == 2 && s.attempts[0].pc == AskForPattern && text != ""
    ensures Reaches(s0, after) && after.row == s.row.(pattern := text, llmCached := Some(false))
  {
    after := Work(s0, s, 0, Answer(text, false), 1);
    after := Work(s0, after, 0, Fine, 1);
  }
}
