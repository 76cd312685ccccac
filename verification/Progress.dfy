/** Job progress: the percentage tracker shared by the task and the monitor thread, and the monitor's
    cancel-once flag (backend/processing/progress.py). Fractions and clock readings are exact reals. */
module Progress {
  import opened Wrappers

  /** The overall percentages each stage covers; 100 is reserved for success. */
  const STAGE_RANGES: map<string, (nat, nat)> := map[
    "GENERATING_REGEX" := (0, 5),
    "LOADING" := (5, 8),
    "GENERATING_SPEC" := (8, 10),
    "TRANSFORMING" := (10, 90),
    "FINALIZING" := (90, 99)]

  // --- the fraction of tasks completed ---

  function Smaller(a: nat, b: nat): nat {
    if a < b then a else b
  }

  function TotalTasks(stages: seq<(nat, nat)>): nat {
    if stages == [] then 0 else TotalTasks(stages[..|stages| - 1]) + stages[|stages| - 1].0
  }

  function CompletedTasks(stages: seq<(nat, nat)>): nat {
    if stages == [] then
      0
    else
      CompletedTasks(stages[..|stages| - 1]) + Smaller(stages[|stages| - 1].1, stages[|stages| - 1].0)
  }

  lemma {:induction false} CompletedWithinTotal(stages: seq<(nat, nat)>)
    ensures CompletedTasks(stages) <= TotalTasks(stages)
    ensures CompletedTasks(stages) == TotalTasks(stages) <==> forall stage | stage in stages :: stage.1 >= stage.0
  {
    if stages != [] {
      var init, last := stages[..|stages| - 1], stages[|stages| - 1];
      CompletedWithinTotal(init);
      assert stages == init + [last];
    }
  }

  lemma OneMoreStage(stages: seq<(nat, nat)>, i: nat)
    requires i < |stages|
    ensures TotalTasks(stages[..i + 1]) == TotalTasks(stages[..i]) + stages[i].0
    ensures CompletedTasks(stages[..i + 1]) == CompletedTasks(stages[..i]) + Smaller(stages[i].1, stages[i].0)
  {
    assert stages[..i + 1][..i] == stages[..i];
  }

  /** `task_fraction`: it lies between 0 and 1, and is 1 exactly when every task is complete. */
  method TaskFraction(stages: seq<(nat, nat)>) returns (fraction: real)
    ensures 0.0 <= fraction <= 1.0
    ensures TotalTasks(stages) == 0 ==> fraction == 0.0
    ensures TotalTasks(stages) > 0 ==> fraction * TotalTasks(stages) as real == CompletedTasks(stages) as real
    ensures TotalTasks(stages) > 0 ==> (fraction == 1.0 <==> forall stage | stage in stages :: stage.1 >= stage.0)
  {
    var total, completed := 0, 0;
    for i := 0 to |stages|
      invariant total == TotalTasks(stages[..i]) && completed == CompletedTasks(stages[..i])
    {
      OneMoreStage(stages, i);
      total := total + stages[i].0;
      completed := completed + Smaller(stages[i].1, stages[i].0);
    }
    assert stages[..|stages|] == stages;
    CompletedWithinTotal(stages);
    if total > 0 {
      fraction := Ratio(completed, total);
    } else {
      fraction := 0.0;
    }
  }

  method Ratio(part: nat, whole: nat) returns (q: real)
    requires 0 < whole && part <= whole
    ensures 0.0 <= q <= 1.0 && q * whole as real == part as real && (q == 1.0 <==> part == whole)
  {
    q := part as real / whole as real;
    QuotientBounds(part as real, whole as real);
  }

  lemma QuotientBounds(part: real, whole: real)
    requires 0.0 < whole && 0.0 <= part <= whole
    ensures part / whole * whole == part
    ensures 0.0 <= part / whole <= 1.0
    ensures part / whole == 1.0 <==> part == whole
  {
    var q := part / whole;
    assert q * whole == part;
    assert (1.0 - q) * whole == whole - part;
    if q < 0.0 {
      SameSign(q, whole);
    }
    if q > 1.0 {
      SameSign(1.0 - q, whole);
    }
    if q == 1.0 {
      assert q * whole == whole;
    }
  }

  lemma SameSign(x: real, y: real)
    requires x < 0.0 < y
    ensures x * y < 0.0
  {
  }

  // --- the tracker ---

  /** One call of the `emit` callback, whether or not it raises: the fields are updated before it. */
  datatype Emission = Emission(stage: string, percent: nat, at: real, byFraction: bool)

  /** The tracker's fields and what it has emitted; no `lastEmit` stands for minus infinity. */
  datatype Tracked = Tracked(stage: string, percent: nat, lastEmit: Option<real>, log: seq<Emission>)

  const UNTRACKED := Tracked("", 0, None, [])

  function Larger(a: nat, b: nat): nat {
    if a < b then b else a
  }

  function Clamp(fraction: real): real {
    if fraction < 0.0 then 0.0 else if fraction > 1.0 then 1.0 else fraction
  }

  /** The percentage for a fraction of a stage. */
  function PercentOf(range: (nat, nat), fraction: real): int
    requires range.0 <= range.1
  {
    range.0 + Scaled(range.1 - range.0, Clamp(fraction))
  }

  function Scaled(width: nat, f: real): int {
    (width as real * f).Floor
  }

  function Entered(s: Tracked, stage: string, now: real): Tracked
    requires stage in STAGE_RANGES
  {
    var percent := Larger(s.percent, STAGE_RANGES[stage].0);
    Tracked(stage, percent, Some(now), s.log + [Emission(stage, percent, now, false)])
  }

  predicate TooSoon(s: Tracked, minInterval: real, now: real) {
    s.lastEmit.Some? && now - s.lastEmit.value < minInterval
  }

  function Updated(s: Tracked, minInterval: real, fraction: real, now: real): Tracked {
    if s.stage !in STAGE_RANGES then
      s
    else
      var percent := PercentOf(STAGE_RANGES[s.stage], fraction);
      if percent <= s.percent || TooSoon(s, minInterval, now) then
        s
      else
        Tracked(s.stage, percent, Some(now), s.log + [Emission(s.stage, percent, now, true)])
  }

  /** Its methods run under one lock, so any interleaving of the two threads is a sequence of
      calls. */
  class ProgressTracker {
    const minInterval: real
    var stage: string
    var percent: nat
    var lastEmit: Option<real>
    var log: seq<Emission>

    function State(): Tracked
      reads this
    {
      Tracked(stage, percent, lastEmit, log)
    }

    constructor (minInterval: real)
      ensures State() == UNTRACKED && this.minInterval == minInterval
    {
      this.minInterval := minInterval;
      stage, percent, lastEmit, log := "", 0, None, [];
    }

    /** Returns false where the source raises KeyError, before anything changes. */
    method EnterStage(stage: string, now: real) returns (known: bool)
      modifies this
      ensures known <==> stage in STAGE_RANGES
      ensures State() == if known then Entered(old(State()), stage, now) else old(State())
    {
      known := stage in STAGE_RANGES;
      if known {
        var start := STAGE_RANGES[stage].0;
        this.stage := stage;
        percent := Larger(percent, start);
        lastEmit := Some(now);
        log := log + [Emission(this.stage, percent, now, false)];
      }
    }

    method UpdateFraction(fraction: real, now: real)
      modifies this
      ensures State() == Updated(old(State()), minInterval, fraction, now)
    {
      if stage !in STAGE_RANGES {
        return;
      }
      var reached := PercentOf(STAGE_RANGES[stage], fraction);
      if reached <= percent || (lastEmit.Some? && now - lastEmit.value < minInterval) {
        return;
      }
      percent := reached;
      lastEmit := Some(now);
      log := log + [Emission(stage, percent, now, true)];
    }
  }

  datatype Call = EnterCall(stage: string, now: real) | FractionCall(fraction: real, now: real)

  function Answered(s: Tracked, minInterval: real, call: Call): Tracked {
    match call
    case EnterCall(stage, now) => if stage in STAGE_RANGES then Entered(s, stage, now) else s
    case FractionCall(fraction, now) => Updated(s, minInterval, fraction, now)
  }

  function Played(s: Tracked, minInterval: real, calls: seq<Call>): Tracked
    decreases |calls|
  {
    if calls == [] then s else Played(Answered(s, minInterval, calls[0]), minInterval, calls[1..])
  }

  function FractionEmissions(log: seq<Emission>): nat {
    if log == [] then
      0
    else
      FractionEmissions(log[..|log| - 1]) + (if log[|log| - 1].byFraction then 1 else 0)
  }

  /** What the emissions of a tracker look like. */
  ghost predicate GoodLog(log: seq<Emission>, minInterval: real, stages: set<string>) {
    && (forall i | 0 <= i < |log| :: log[i].percent <= 99 && log[i].stage in stages)
    && (forall i, j | 0 <= i < j < |log| :: log[i].percent <= log[j].percent)
    && (forall i, j | 0 <= i < j < |log| && log[j].byFraction :: log[i].percent < log[j].percent)
    && (forall i, j | 0 <= i < j < |log| && i == j - 1 && log[j].byFraction :: log[j].at - log[i].at >= minInterval)
    && (log != [] ==> !log[0].byFraction)
  }

  ghost predicate TrackerInv(s: Tracked, minInterval: real, stages: set<string>) {
    && s.percent <= 99
    && GoodLog(s.log, minInterval, stages)
    && FractionEmissions(s.log) <= s.percent
    && (if s.log == [] then
          s == UNTRACKED
        else
          var last := s.log[|s.log| - 1];
          last.percent == s.percent && s.lastEmit == Some(last.at) && s.stage == last.stage)
  }

  lemma ProductWithin(width: real, f: real)
    requires 0.0 <= width && 0.0 <= f <= 1.0
    ensures 0.0 <= width * f <= width
  {
    assert width * f + width * (1.0 - f) == width;
  }

  lemma ScaledWithin(width: nat, f: real)
    requires 0.0 <= f <= 1.0
    ensures 0 <= Scaled(width, f) <= width
  {
    ProductWithin(width as real, f);
  }

  lemma FractionStaysInRange(range: (nat, nat), fraction: real)
    requires range.0 <= range.1 <= 99
    ensures range.0 <= PercentOf(range, fraction) <= range.1
  {
    ScaledWithin(range.1 - range.0, Clamp(fraction));
  }

  /** The emission `e` may follow the emissions of `log`. */
  ghost predicate MayFollow(log: seq<Emission>, minInterval: real, stages: set<string>, e: Emission) {
    && e.percent <= 99 && e.stage in stages
    && (if log == [] then
          !e.byFraction
        else
          var last := log[|log| - 1];
          && last.percent <= e.percent
          && (e.byFraction ==> last.percent < e.percent && e.at - last.at >= minInterval))
  }

  lemma GoodLogGrows(log: seq<Emission>, minInterval: real, stages: set<string>, e: Emission)
    requires GoodLog(log, minInterval, stages) && MayFollow(log, minInterval, stages, e)
    ensures GoodLog(log + [e], minInterval, stages)
  {
    var n, grown := |log|, log + [e];
    forall i, j | 0 <= i < j < |grown|
      ensures grown[i].percent <= grown[j].percent
      ensures grown[j].byFraction ==> grown[i].percent < grown[j].percent
      ensures i == j - 1 && grown[j].byFraction ==> grown[j].at - grown[i].at >= minInterval
    {
      assert grown[i] == log[i] && (j < n ==> grown[j] == log[j]);
      assert i < n - 1 ==> log[i].percent <= log[n - 1].percent;
    }
  }

  lemma LogGrows(s: Tracked, minInterval: real, stages: set<string>, e: Emission)
    requires TrackerInv(s, minInterval, stages) && MayFollow(s.log, minInterval, stages, e)
    requires s.percent <= e.percent
    ensures TrackerInv(Tracked(e.stage, e.percent, Some(e.at), s.log + [e]), minInterval, stages)
  {
    GoodLogGrows(s.log, minInterval, stages, e);
    var log := s.log + [e];
    assert log[..|log| - 1] == s.log;
  }

  lemma CallKeeps(s: Tracked, minInterval: real, call: Call)
    requires TrackerInv(s, minInterval, STAGE_RANGES.Keys)
    ensures TrackerInv(Answered(s, minInterval, call), minInterval, STAGE_RANGES.Keys)
    ensures s.percent <= Answered(s, minInterval, call).percent
  {
    match call
    case EnterCall(stage, now) =>
      if stage in STAGE_RANGES {
        var emission := Emission(stage, Larger(s.percent, STAGE_RANGES[stage].0), now, false);
        LogGrows(s, minInterval, STAGE_RANGES.Keys, emission);
      }
    case FractionCall(fraction, now) =>
      if s.stage in STAGE_RANGES {
        var percent := PercentOf(STAGE_RANGES[s.stage], fraction);
        FractionStaysInRange(STAGE_RANGES[s.stage], fraction);
        if percent > s.percent && !TooSoon(s, minInterval, now) {
          LogGrows(s, minInterval, STAGE_RANGES.Keys, Emission(s.stage, percent, now, true));
        }
      }
  }

  lemma {:induction false} CallsKeep(s: Tracked, minInterval: real, calls: seq<Call>)
    requires TrackerInv(s, minInterval, STAGE_RANGES.Keys)
    ensures TrackerInv(Played(s, minInterval, calls), minInterval, STAGE_RANGES.Keys)
    decreases |calls|
  {
    if calls != [] {
      CallKeeps(s, minInterval, calls[0]);
      CallsKeep(Answered(s, minInterval, calls[0]), minInterval, calls[1..]);
    }
  }

  /** Whatever the two threads call and whatever the clock says: emitted percentages lie in 0..99
      and never decrease; an emission for a fraction is strictly above all earlier ones and at
      least the minimum interval after the one before it; there are at most 99 of them. */
  lemma EmissionsAreOrderly(minInterval: real, calls: seq<Call>)
    ensures GoodLog(Played(UNTRACKED, minInterval, calls).log, minInterval, STAGE_RANGES.Keys)
    ensures FractionEmissions(Played(UNTRACKED, minInterval, calls).log) <= 99
  {
    CallsKeep(UNTRACKED, minInterval, calls);
  }

  /** Entering a known stage shows the larger of the percentage so far and the stage's start, at once. */
  lemma EnteringShows(s: Tracked, stage: string, now: real)
    requires stage in STAGE_RANGES
    ensures var s' := Entered(s, stage, now);
            var start := STAGE_RANGES[stage].0;
            && s'.stage == stage && s'.lastEmit == Some(now)
            && s'.percent == (if s.percent >= start then s.percent else start)
            && s'.log == s.log + [Emission(stage, s'.percent, now, false)]
  {
  }

  /** A fraction of the current stage is emitted exactly when it lifts the percentage and the interval
      has passed; the percentage then lies between the stage's ends and as far along as the fraction,
      rounded down. */
  lemma FractionShows(s: Tracked, minInterval: real, fraction: real, now: real)
    requires s.stage in STAGE_RANGES
    ensures var (start, end) := STAGE_RANGES[s.stage];
            var percent := PercentOf((start, end), fraction);
            var s' := Updated(s, minInterval, fraction, now);
            && start <= percent <= end
            && (fraction >= 1.0 ==> percent == end) && (fraction <= 0.0 ==> percent == start)
            && (0.0 <= fraction <= 1.0 ==>
                  (percent - start) as real <= (end - start) as real * fraction < (percent - start) as real + 1.0)
            && (s' != s <==> percent > s.percent && (s.lastEmit.Some? ==> now - s.lastEmit.value >= minInterval))
            && (s' != s ==> s' == Tracked(s.stage, percent, Some(now), s.log + [Emission(s.stage, percent, now, true)]))
  {
    var range := STAGE_RANGES[s.stage];
    FractionStaysInRange(range, fraction);
    assert (range.1 - range.0) as real * 1.0 == (range.1 - range.0) as real;
    assert (range.1 - range.0) as real * 0.0 == 0.0;
  }

  /** Before the first stage, or in none that is known, fractions are ignored. */
  lemma UnknownStageIsSilent(s: Tracked, minInterval: real, fraction: real, now: real)
    requires s.stage !in STAGE_RANGES
    ensures Updated(s, minInterval, fraction, now) == s
  {
  }

  /** The stages of a find-and-replace job and those of the others each cover 0 to 99 without going
      back, the pass over the data takes most of it, and only 100 is left for success. */
  lemma StagesTile()
    ensures STAGE_RANGES["GENERATING_REGEX"].0 == 0 && STAGE_RANGES["FINALIZING"].1 == 99
    ensures STAGE_RANGES["GENERATING_REGEX"].1 == STAGE_RANGES["LOADING"].0
    ensures STAGE_RANGES["LOADING"].1 == STAGE_RANGES["GENERATING_SPEC"].0
    ensures STAGE_RANGES["GENERATING_SPEC"].1 == STAGE_RANGES["TRANSFORMING"].0
    ensures STAGE_RANGES["TRANSFORMING"].1 == STAGE_RANGES["FINALIZING"].0
    ensures STAGE_RANGES["TRANSFORMING"].1 - STAGE_RANGES["TRANSFORMING"].0 == 80
    ensures forall stage | stage in STAGE_RANGES :: STAGE_RANGES[stage].0 < STAGE_RANGES[stage].1
  {
  }

  // --- the monitor ---

  /** What one tick finds: the answer of `should_cancel` (None when it raises), whether
      `cancelJobGroup` raises, and the fraction (None before any job has started). */
  datatype Observation = Observation(shouldCancel: Option<bool>, cancelRaises: bool, fraction: Option<Option<real>>)

  /** The monitor's flag, and what it has done: calls of `cancelJobGroup`, whether one has gone through
      and so stopped the group, and the fractions reported. */
  datatype Watch = Watch(cancelled: bool, cancelCalls: nat, stopped: bool, reported: seq<real>)

  const UNWATCHED := Watch(false, 0, false, [])

  function Ticked(w: Watch, o: Observation): Watch {
    if !w.cancelled && o.shouldCancel.None? then
      w
    else
      var cancels := !w.cancelled && o.shouldCancel == Some(true);
      var w' := if cancels then Watch(true, w.cancelCalls + 1, w.stopped || !o.cancelRaises, w.reported) else w;
      if cancels && o.cancelRaises then w'
      else if o.fraction.Some? && o.fraction.value.Some? then w'.(reported := w'.reported + [o.fraction.value.value])
      else w'
  }

  class SparkJobMonitor {
    var cancelled: bool
    var cancelCalls: nat
    var stopped: bool
    var reported: seq<real>

    function State(): Watch
      reads this
    {
      Watch(cancelled, cancelCalls, stopped, reported)
    }

    constructor ()
      ensures State() == UNWATCHED
    {
      cancelled, cancelCalls, stopped, reported := false, 0, false, [];
    }

    /** `_tick`: an exception ends the tick; it never leaves it. */
    method Tick(o: Observation)
      modifies this
      ensures State() == Ticked(old(State()), o)
    {
      if !cancelled {
        if o.shouldCancel.None? {
          return;
        }
        if o.shouldCancel.value {
          cancelled := true;
          cancelCalls := cancelCalls + 1;
          if o.cancelRaises {
            return;
          }
          stopped := true;
        }
      }
      if o.fraction.Some? && o.fraction.value.Some? {
        reported := reported + [o.fraction.value.value];
      }
    }
  }

  function Watched(w: Watch, observations: seq<Observation>): Watch
    decreases |observations|
  {
    if observations == [] then w else Watched(Ticked(w, observations[0]), observations[1..])
  }

  predicate AsksToCancel(o: Observation) {
    o.shouldCancel == Some(true)
  }

  lemma {:induction false} CancelsOnceFrom(w: Watch, observations: seq<Observation>)
    ensures Watched(w, observations).cancelCalls ==
            w.cancelCalls + (if !w.cancelled && (exists o | o in observations :: AsksToCancel(o)) then 1 else 0)
    ensures Watched(w, observations).cancelled <==> w.cancelled || exists o | o in observations :: AsksToCancel(o)
    decreases |observations|
  {
    if observations != [] {
      var first, rest := observations[0], observations[1..];
      CancelsOnceFrom(Ticked(w, first), rest);
      assert (exists o | o in observations :: AsksToCancel(o)) <==>
             AsksToCancel(first) || exists o | o in rest :: AsksToCancel(o) by {
        assert observations == [first] + rest;
      }
    }
  }

  /** Over any sequence of ticks the monitor cancels its job group once if some tick found a
      cancel request, and otherwise never. */
  lemma CancelsAtMostOnce(observations: seq<Observation>)
    ensures var calls := Watched(UNWATCHED, observations).cancelCalls;
            calls <= 1 && (calls == 1 <==> exists o | o in observations :: AsksToCancel(o))
  {
    CancelsOnceFrom(UNWATCHED, observations);
  }

  /** The first observation that asks to cancel is one whose call goes through. */
  predicate FirstCallGoesThrough(observations: seq<Observation>) {
    exists i | 0 <= i < |observations| :: IsFirstToAsk(observations, i) && !observations[i].cancelRaises
  }

  predicate IsFirstToAsk(observations: seq<Observation>, i: nat)
    requires i < |observations|
  {
    AsksToCancel(observations[i]) && forall j | 0 <= j < i :: !AsksToCancel(observations[j])
  }

  lemma {:induction false} StopsFrom(w: Watch, observations: seq<Observation>)
    ensures Watched(w, observations).stopped <==> w.stopped || (!w.cancelled && FirstCallGoesThrough(observations))
    decreases |observations|
  {
    if observations != [] {
      StopsFrom(Ticked(w, observations[0]), observations[1..]);
      FirstCallShifts(observations);
    }
  }

  lemma FirstCallShifts(observations: seq<Observation>)
    requires observations != []
    ensures FirstCallGoesThrough(observations) <==>
            if AsksToCancel(observations[0]) then !observations[0].cancelRaises
            else FirstCallGoesThrough(observations[1..])
  {
    var rest := observations[1..];
    if AsksToCancel(observations[0]) {
      assert IsFirstToAsk(observations, 0);
    } else {
      if FirstCallGoesThrough(observations) {
        var i :| 0 <= i < |observations| && IsFirstToAsk(observations, i) && !observations[i].cancelRaises;
        assert IsFirstToAsk(rest, i - 1);
      }
      if FirstCallGoesThrough(rest) {
        var i :| 0 <= i < |rest| && IsFirstToAsk(rest, i) && !rest[i].cancelRaises;
        assert forall j | 1 <= j <= i :: observations[j] == rest[j - 1];
        assert IsFirstToAsk(observations, i + 1);
      }
    }
  }

  /** Over any sequence of ticks the group is really stopped exactly when the call does not raise at
      the first tick that finds a request. */
  lemma StoppedExactly(observations: seq<Observation>)
    ensures Watched(UNWATCHED, observations).stopped <==> FirstCallGoesThrough(observations)
  {
    StopsFrom(UNWATCHED, observations);
  }

  /** A tick reports the fraction it finds, unless asking whether to cancel, or cancelling, or finding
      the fraction raises, or no job has started. */
  lemma ReportsExactly(w: Watch, o: Observation)
    ensures var asking := !w.cancelled;
            var raised := asking && (o.shouldCancel.None? || (AsksToCancel(o) && o.cancelRaises));
            Ticked(w, o).reported ==
            if !raised && o.fraction.Some? && o.fraction.value.Some? then w.reported + [o.fraction.value.value]
            else w.reported
  {
  }

  /** A call that raises is lost: the next tick finds the request again and could cancel, but does not
      try. */
  lemma LostCancel(first: Observation, second: Observation)
    requires AsksToCancel(first) && first.cancelRaises
    requires AsksToCancel(second) && !second.cancelRaises
    ensures var w := Watched(UNWATCHED, [first, second]); w.cancelled && w.cancelCalls == 1 && !w.stopped
  {
    var w := Ticked(UNWATCHED, first);
    assert [first, second][1..] == [second] && [second][1..] == [];
    assert Watched(UNWATCHED, [first, second]) == Watched(w, [second]) == Ticked(w, second);
  }
}
