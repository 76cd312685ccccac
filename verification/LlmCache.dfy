/** The shared cache of suggestions and the requests that go through it (backend/apps/llm/cache.py,
    lines 33-52; backend/apps/llm/service.py, lines 174-190). Workers look up, ask and store in
    separate steps, which interleave freely with each other, with evictions and with outages. */
module LlmCache {
  import opened Wrappers

  type Key = string

  /** The code around the cache: how a suggestion is dumped, how stored data is validated, and how
      the request behind a key turns a suggestion into a result, or refuses it. */
  datatype Codec<!D, !S, !R, !E> = Codec(
    dump: S -> D,
    validate: D -> Option<S>,
    interpret: (Key, S) -> Result<R, E>)

  /** What pydantic promises: a dumped suggestion validates to itself. */
  ghost predicate RoundTrips<D, S(!new), R, E>(c: Codec<D, S, R, E>) {
    forall s: S :: c.validate(c.dump(s)) == Some(s)
  }

  /** The result of a suggestion. Even one that is fine in itself may be refused because it was too
      slow at this attempt. */
  function Interpreted<D, S, R, E>(c: Codec<D, S, R, E>, key: Key, suggestion: S, slow: Option<E>): Result<R, E> {
    match c.interpret(key, suggestion)
    case Err(e) => Err(e)
    case Ok(r) => match slow case Some(e) => Err(e) case None => Ok(r)
  }

  /** The suggestion that a lookup finds: none during an outage, without an entry, or when the entry
      is malformed. */
  function Lookup<D, S, R, E>(c: Codec<D, S, R, E>, entries: map<Key, D>, key: Key, outage: bool): Option<S> {
    if outage || key !in entries then None else c.validate(entries[key])
  }

  // --- many workers on one cache ---

  datatype Pc<S, R> =
    | Idle
    | Missed(key: Key)
    | Holding(key: Key, suggestion: S, result: R)

  datatype Completion<S, R> = Completion(key: Key, suggestion: S, result: R, cached: bool)

  datatype System<D, S, R> = System(
    entries: map<Key, D>,
    workers: seq<Pc<S, R>>,
    log: seq<Completion<S, R>>)

  datatype Step<D, S, E> =
    | Look(worker: nat, key: Key, outage: bool, slow: Option<E>)
    | Ask(worker: nat, reply: Result<S, E>, slow: Option<E>)
    | Keep(worker: nat, outage: bool)
    | Die(worker: nat)
    | Evict(key: Key)
    | Corrupt(key: Key, data: D)

  predicate Enabled<D, S, R, E>(c: Codec<D, S, R, E>, sys: System<D, S, R>, step: Step<D, S, E>) {
    match step
    case Look(w, _, _, _) => w < |sys.workers| && sys.workers[w].Idle?
    case Ask(w, _, _) => w < |sys.workers| && sys.workers[w].Missed?
    case Keep(w, _) => w < |sys.workers| && sys.workers[w].Holding?
    case Die(w) => w < |sys.workers|
    case Evict(_) => true
    case Corrupt(_, data) => c.validate(data).None?
  }

  function Next<D, S, R, E>(c: Codec<D, S, R, E>, sys: System<D, S, R>, step: Step<D, S, E>): System<D, S, R>
    requires Enabled(c, sys, step)
  {
    match step
    case Look(w, key, outage, slow) =>
      (match Lookup(c, sys.entries, key, outage)
       case None => sys.(workers := sys.workers[w := Missed(key)])
       case Some(s) =>
         match Interpreted(c, key, s, slow)
         case Err(_) => sys
         case Ok(r) => sys.(log := sys.log + [Completion(key, s, r, true)]))
    case Ask(w, reply, slow) =>
      var key := sys.workers[w].key;
      (match reply
       case Err(_) => sys.(workers := sys.workers[w := Idle])
       case Ok(s) =>
         match Interpreted(c, key, s, slow)
         case Err(_) => sys.(workers := sys.workers[w := Idle])
         case Ok(r) => sys.(workers := sys.workers[w := Holding(key, s, r)]))
    case Keep(w, outage) =>
      var held := sys.workers[w];
      System(
        if outage then sys.entries else sys.entries[held.key := c.dump(held.suggestion)],
        sys.workers[w := Idle],
        sys.log + [Completion(held.key, held.suggestion, held.result, false)])
    case Die(w) => sys.(workers := sys.workers[w := Idle])
    case Evict(key) => sys.(entries := sys.entries - {key})
    case Corrupt(key, data) => sys.(entries := sys.entries[key := data])
  }

  predicate Possible<D, S, R, E>(c: Codec<D, S, R, E>, sys: System<D, S, R>, steps: seq<Step<D, S, E>>)
    decreases |steps|
  {
    steps == [] || (Enabled(c, sys, steps[0]) && Possible(c, Next(c, sys, steps[0]), steps[1..]))
  }

  function Run<D, S, R, E>(c: Codec<D, S, R, E>, sys: System<D, S, R>, steps: seq<Step<D, S, E>>): System<D, S, R>
    requires Possible(c, sys, steps)
    decreases |steps|
  {
    if steps == [] then sys else Run(c, Next(c, sys, steps[0]), steps[1..])
  }

  lemma RunFrom<D, S, R, E>(c: Codec<D, S, R, E>, sys: System<D, S, R>, step: Step<D, S, E>, rest: seq<Step<D, S, E>>)
    requires Enabled(c, sys, step) && Possible(c, Next(c, sys, step), rest)
    ensures Possible(c, sys, [step] + rest)
    ensures Run(c, sys, [step] + rest) == Run(c, Next(c, sys, step), rest)
  {
    assert ([step] + rest)[1..] == rest;
  }

  /** An empty cache, nothing under way. */
  ghost predicate Start<D, S, R>(sys: System<D, S, R>) {
    sys.entries == map[] && sys.log == [] && forall w | 0 <= w < |sys.workers| :: sys.workers[w] == Idle
  }

  // --- what every run keeps ---

  /** A request has asked for this key, and its suggestion was accepted with this result. */
  ghost predicate Vouched<S, R>(log: seq<Completion<S, R>>, key: Key, suggestion: S, result: R) {
    Completion(key, suggestion, result, false) in log
  }

  ghost predicate EntriesVouched<D, S, R, E>(c: Codec<D, S, R, E>, sys: System<D, S, R>) {
    forall key | key in sys.entries && c.validate(sys.entries[key]).Some? ::
      var s := c.validate(sys.entries[key]).value;
      && c.interpret(key, s).Ok?
      && Vouched(sys.log, key, s, c.interpret(key, s).value)
  }

  ghost predicate HitsVouched<D, S, R, E>(c: Codec<D, S, R, E>, log: seq<Completion<S, R>>) {
    forall i | 0 <= i < |log| ::
      && c.interpret(log[i].key, log[i].suggestion) == Ok(log[i].result)
      && (log[i].cached ==> Vouched(log[..i], log[i].key, log[i].suggestion, log[i].result))
  }

  ghost predicate HeldAccepted<D, S, R, E>(c: Codec<D, S, R, E>, workers: seq<Pc<S, R>>) {
    forall w | 0 <= w < |workers| && workers[w].Holding? ::
      c.interpret(workers[w].key, workers[w].suggestion) == Ok(workers[w].result)
  }

  ghost predicate Inv<D, S, R, E>(c: Codec<D, S, R, E>, sys: System<D, S, R>) {
    EntriesVouched(c, sys) && HitsVouched(c, sys.log) && HeldAccepted(c, sys.workers)
  }

  lemma LogGrows<D, S, R, E>(c: Codec<D, S, R, E>, log: seq<Completion<S, R>>, more: Completion<S, R>)
    requires HitsVouched(c, log)
    requires c.interpret(more.key, more.suggestion) == Ok(more.result)
    requires more.cached ==> Vouched(log, more.key, more.suggestion, more.result)
    ensures HitsVouched(c, log + [more])
  {
    var grown := log + [more];
    assert grown[..|log|] == log;
    forall i | 0 <= i < |grown|
      ensures c.interpret(grown[i].key, grown[i].suggestion) == Ok(grown[i].result)
      ensures grown[i].cached ==> Vouched(grown[..i], grown[i].key, grown[i].suggestion, grown[i].result)
    {
      if i < |log| {
        assert grown[i] == log[i] && grown[..i] == log[..i];
      }
    }
  }

  lemma StepKeeps<D, S(!new), R, E>(c: Codec<D, S, R, E>, sys: System<D, S, R>, step: Step<D, S, E>)
    requires RoundTrips(c) && Inv(c, sys) && Enabled(c, sys, step)
    ensures Inv(c, Next(c, sys, step))
  {
    var next := Next(c, sys, step);
    match step
    case Look(w, key, outage, slow) =>
      if Lookup(c, sys.entries, key, outage).Some? {
        var s := Lookup(c, sys.entries, key, outage).value;
        if Interpreted(c, key, s, slow).Ok? {
          LogGrows(c, sys.log, Completion(key, s, Interpreted(c, key, s, slow).value, true));
        }
      }
    case Keep(w, outage) =>
      var held := sys.workers[w];
      LogGrows(c, sys.log, Completion(held.key, held.suggestion, held.result, false));
      forall key | key in next.entries && c.validate(next.entries[key]).Some?
        ensures c.interpret(key, c.validate(next.entries[key]).value).Ok?
        ensures var s := c.validate(next.entries[key]).value; Vouched(next.log, key, s, c.interpret(key, s).value)
      {
        if key != held.key || outage {
          assert key in sys.entries && next.entries[key] == sys.entries[key];
        } else {
          assert c.validate(c.dump(held.suggestion)) == Some(held.suggestion);
        }
      }
    case _ =>
  }

  lemma {:induction false} RunKeeps<D, S(!new), R, E>(c: Codec<D, S, R, E>, sys: System<D, S, R>,
                                                      steps: seq<Step<D, S, E>>)
    requires RoundTrips(c) && Inv(c, sys) && Possible(c, sys, steps)
    ensures Inv(c, Run(c, sys, steps))
    decreases |steps|
  {
    if steps != [] {
      StepKeeps(c, sys, steps[0]);
      RunKeeps(c, Next(c, sys, steps[0]), steps[1..]);
    }
  }

  /** Over any run from an empty cache: every entry that can be used was accepted by the request that
      stored it, and every hit repeats the suggestion and the result of an earlier miss for its key. */
  lemma OnlyAcceptedIsCached<D, S(!new), R, E>(c: Codec<D, S, R, E>, sys: System<D, S, R>, steps: seq<Step<D, S, E>>)
    requires RoundTrips(c) && Start(sys) && Possible(c, sys, steps)
    ensures var end := Run(c, sys, steps);
            && (forall key | key in end.entries && c.validate(end.entries[key]).Some? ::
                 exists r :: Vouched(end.log, key, c.validate(end.entries[key]).value, r))
            && (forall i | 0 <= i < |end.log| && end.log[i].cached ::
                 exists j | 0 <= j < i :: end.log[j] == end.log[i].(cached := false))
  {
    RunKeeps(c, sys, steps);
    var end := Run(c, sys, steps);
    forall key | key in end.entries && c.validate(end.entries[key]).Some?
      ensures exists r :: Vouched(end.log, key, c.validate(end.entries[key]).value, r)
    {
      var s := c.validate(end.entries[key]).value;
      assert Vouched(end.log, key, s, c.interpret(key, s).value);
    }
    forall i | 0 <= i < |end.log| && end.log[i].cached
      ensures exists j | 0 <= j < i :: end.log[j] == end.log[i].(cached := false)
    {
      assert Vouched(end.log[..i], end.log[i].key, end.log[i].suggestion, end.log[i].result);
      var j :| 0 <= j < |end.log[..i]| && end.log[..i][j] == end.log[i].(cached := false);
      assert end.log[j] == end.log[i].(cached := false);
    }
  }

  // --- how often the model is asked ---

  /** Neither evicted nor damaged by this step. */
  predicate Spares<D, S, E>(step: Step<D, S, E>, key: Key) {
    !(step.Evict? && step.key == key) && !(step.Corrupt? && step.key == key)
  }

  predicate IsCached<D, S, R, E>(c: Codec<D, S, R, E>, sys: System<D, S, R>, key: Key) {
    Lookup(c, sys.entries, key, false).Some?
  }

  lemma {:induction false} StaysCached<D, S(!new), R, E>(c: Codec<D, S, R, E>, sys: System<D, S, R>,
                                                         steps: seq<Step<D, S, E>>, key: Key)
    requires RoundTrips(c) && Possible(c, sys, steps) && IsCached(c, sys, key)
    requires forall step | step in steps :: Spares(step, key)
    ensures IsCached(c, Run(c, sys, steps), key)
    decreases |steps|
  {
    if steps != [] {
      assert steps[0] in steps;
      if steps[0].Keep? {
        assert c.validate(c.dump(sys.workers[steps[0].worker].suggestion)).Some?;
      }
      StaysCached(c, Next(c, sys, steps[0]), steps[1..], key);
    }
  }

  /** Once a key is cached, and as long as it is neither evicted nor damaged, a lookup goes on to ask
      the model exactly when the cache cannot be reached. */
  lemma AsksExactlyInOutages<D, S(!new), R, E>(c: Codec<D, S, R, E>, sys: System<D, S, R>,
                                               steps: seq<Step<D, S, E>>, look: Step<D, S, E>)
    requires RoundTrips(c) && Possible(c, sys, steps) && look.Look? && IsCached(c, sys, look.key)
    requires forall step | step in steps :: Spares(step, look.key)
    requires Enabled(c, Run(c, sys, steps), look)
    ensures Next(c, Run(c, sys, steps), look).workers[look.worker].Missed? <==> look.outage
  {
    StaysCached(c, sys, steps, look.key);
  }

  /** The key has an answer and no worker is about to give it another. */
  ghost predicate Settled<D, S, R, E>(c: Codec<D, S, R, E>, sys: System<D, S, R>, key: Key, suggestion: S) {
    && Lookup(c, sys.entries, key, false) == Some(suggestion)
    && forall w | 0 <= w < |sys.workers| :: sys.workers[w].Idle? || sys.workers[w].key != key
  }

  /** Every lookup of the key reaches the cache. */
  predicate Reaches<D, S, E>(step: Step<D, S, E>, key: Key) {
    step.Look? && step.key == key ==> !step.outage
  }

  ghost predicate AnswersWith<S, R>(log: seq<Completion<S, R>>, from: nat, key: Key, suggestion: S) {
    forall i | from <= i < |log| && log[i].key == key :: log[i].cached && log[i].suggestion == suggestion
  }

  lemma SettledStep<D, S(!new), R, E>(c: Codec<D, S, R, E>, sys: System<D, S, R>, step: Step<D, S, E>, key: Key,
                                      suggestion: S)
    requires Settled(c, sys, key, suggestion) && Enabled(c, sys, step)
    requires Spares(step, key) && Reaches(step, key)
    ensures Settled(c, Next(c, sys, step), key, suggestion)
    ensures sys.log <= Next(c, sys, step).log
    ensures AnswersWith(Next(c, sys, step).log, |sys.log|, key, suggestion)
  {
  }

  /** Once a key is settled, every request for it, for as long as the cache can be reached and the
      entry is spared, is answered from the cache with that same suggestion. */
  lemma {:induction false} OneAnswerForEver<D, S(!new), R, E>(c: Codec<D, S, R, E>, sys: System<D, S, R>,
                                                              steps: seq<Step<D, S, E>>, key: Key, suggestion: S)
    requires Settled(c, sys, key, suggestion) && Possible(c, sys, steps)
    requires forall step | step in steps :: Spares(step, key) && Reaches(step, key)
    ensures Settled(c, Run(c, sys, steps), key, suggestion)
    ensures sys.log <= Run(c, sys, steps).log
    ensures AnswersWith(Run(c, sys, steps).log, |sys.log|, key, suggestion)
    decreases |steps|
  {
    if steps != [] {
      assert steps[0] in steps;
      SettledStep(c, sys, steps[0], key, suggestion);
      OneAnswerForEver(c, Next(c, sys, steps[0]), steps[1..], key, suggestion);
    }
  }

  // --- exactly when ---

  /** No step evicts or damages the entry of the key, and no lookup of it meets an outage. */
  ghost predicate Undisturbed<D, S, E>(steps: seq<Step<D, S, E>>, key: Key) {
    forall step | step in steps :: Spares(step, key) && Reaches(step, key)
  }

  /** Some worker is on its way to ask the model for the key. */
  predicate Asking<D, S, R>(sys: System<D, S, R>, key: Key) {
    exists w | 0 <= w < |sys.workers| :: sys.workers[w] == Missed(key)
  }

  lemma {:induction false} QuietRun<D, S(!new), R, E>(c: Codec<D, S, R, E>, sys: System<D, S, R>,
                                                      steps: seq<Step<D, S, E>>, key: Key)
    requires RoundTrips(c) && Possible(c, sys, steps) && Undisturbed(steps, key)
    requires IsCached(c, sys, key) && !Asking(sys, key)
    ensures !Asking(Run(c, sys, steps), key)
    decreases |steps|
  {
    if steps != [] {
      assert steps[0] in steps;
      QuietStep(c, sys, steps[0], key);
      QuietRun(c, Next(c, sys, steps[0]), steps[1..], key);
    }
  }

  lemma QuietStep<D, S(!new), R, E>(c: Codec<D, S, R, E>, sys: System<D, S, R>, step: Step<D, S, E>, key: Key)
    requires RoundTrips(c) && Enabled(c, sys, step) && Spares(step, key) && Reaches(step, key)
    requires IsCached(c, sys, key) && !Asking(sys, key)
    ensures IsCached(c, Next(c, sys, step), key) && !Asking(Next(c, sys, step), key)
  {
    if step.Keep? {
      assert c.validate(c.dump(sys.workers[step.worker].suggestion)).Some?;
    }
    var next := Next(c, sys, step);
    forall w | 0 <= w < |next.workers| ensures next.workers[w] != Missed(key) {
      assert sys.workers[w] != Missed(key);
    }
  }

  lemma MissAsks<D, S, R, E>(c: Codec<D, S, R, E>, sys: System<D, S, R>, key: Key) returns (steps: seq<Step<D, S, E>>)
    requires sys.workers != [] && !IsCached(c, sys, key)
    ensures Possible(c, sys, steps) && Undisturbed(steps, key) && Asking(Run(c, sys, steps), key)
  {
    var die, look: Step<D, S, E> := Die(0), Look(0, key, false, None);
    var idle := Next(c, sys, die);
    RunFrom(c, idle, look, []);
    RunFrom(c, sys, die, [look]);
    steps := [die] + [look];
    assert Next(c, idle, look).workers[0] == Missed(key);
  }

  /** As long as the cache can be reached and the entry is spared, no request for a key ever asks the
      model, exactly when the key is cached and nobody is asking for it already. */
  lemma NeverAskedExactly<D, S(!new), R, E>(c: Codec<D, S, R, E>, sys: System<D, S, R>, key: Key)
    requires RoundTrips(c) && sys.workers != []
    ensures (forall steps: seq<Step<D, S, E>> | Possible(c, sys, steps) && Undisturbed(steps, key) ::
               !Asking(Run(c, sys, steps), key))
            <==> IsCached(c, sys, key) && !Asking(sys, key)
  {
    if IsCached(c, sys, key) && !Asking(sys, key) {
      forall steps: seq<Step<D, S, E>> | Possible(c, sys, steps) && Undisturbed(steps, key)
        ensures !Asking(Run(c, sys, steps), key)
      {
        QuietRun(c, sys, steps, key);
      }
    } else if Asking(sys, key) {
      var none: seq<Step<D, S, E>> := [];
      assert Possible(c, sys, none) && Undisturbed(none, key) && Run(c, sys, none) == sys;
    } else {
      var steps := MissAsks(c, sys, key);
    }
  }

  /** A worker that is about to ask for the key, or to store it, can complete without the cache. */
  lemma UnsettledAnswers<D, S, R, E>(c: Codec<D, S, R, E>, sys: System<D, S, R>, w: nat, key: Key, suggestion: S)
    returns (steps: seq<Step<D, S, E>>)
    requires w < |sys.workers| && !sys.workers[w].Idle? && sys.workers[w].key == key
    requires c.interpret(key, suggestion).Ok?
    ensures Possible(c, sys, steps) && Undisturbed(steps, key)
    ensures !AnswersWith(Run(c, sys, steps).log, |sys.log|, key, suggestion)
  {
    var ask, keep: Step<D, S, E> := Ask(w, Ok(suggestion), None), Keep(w, false);
    if sys.workers[w].Missed? {
      var held := Next(c, sys, ask);
      RunFrom(c, held, keep, []);
      RunFrom(c, sys, ask, [keep]);
      steps := [ask] + [keep];
      assert Run(c, sys, steps) == Next(c, held, keep);
    } else {
      RunFrom(c, sys, keep, []);
      steps := [keep] + [];
      assert Run(c, sys, steps) == Next(c, sys, keep);
    }
    var last := Run(c, sys, steps).log[|sys.log|];
    assert last.key == key && !last.cached;
  }

  /** As long as the cache can be reached and the entry is spared, every request for a cached key is
      answered from the cache with the cached suggestion, exactly when the key is settled. */
  lemma OneAnswerExactly<D, S(!new), R, E>(c: Codec<D, S, R, E>, sys: System<D, S, R>, key: Key, suggestion: S)
    requires Lookup(c, sys.entries, key, false) == Some(suggestion) && c.interpret(key, suggestion).Ok?
    ensures (forall steps: seq<Step<D, S, E>> | Possible(c, sys, steps) && Undisturbed(steps, key) ::
               AnswersWith(Run(c, sys, steps).log, |sys.log|, key, suggestion))
            <==> Settled(c, sys, key, suggestion)
  {
    if Settled(c, sys, key, suggestion) {
      forall steps: seq<Step<D, S, E>> | Possible(c, sys, steps) && Undisturbed(steps, key)
        ensures AnswersWith(Run(c, sys, steps).log, |sys.log|, key, suggestion)
      {
        OneAnswerForEver(c, sys, steps, key, suggestion);
      }
    } else {
      var w :| 0 <= w < |sys.workers| && !sys.workers[w].Idle? && sys.workers[w].key == key;
      var steps := UnsettledAnswers(c, sys, w, key, suggestion);
    }
  }

  // --- what a completed request leaves behind ---

  /** A worker that holds an answer, the only one at work on its key, stores it; from then on, while
      the entry is spared and lookups reach the cache, every lookup of the key is a hit with it. */
  lemma StoredThenFound<D, S(!new), R, E>(c: Codec<D, S, R, E>, sys: System<D, S, R>, w: nat,
                                          rest: seq<Step<D, S, E>>, v: nat, slow: Option<E>)
    requires RoundTrips(c) && w < |sys.workers| && sys.workers[w].Holding?
    requires forall j | 0 <= j < |sys.workers| && j != w ::
               sys.workers[j].Idle? || sys.workers[j].key != sys.workers[w].key
    requires var keep: Step<D, S, E> := Keep(w, false); Possible(c, Next(c, sys, keep), rest)
    requires Undisturbed(rest, sys.workers[w].key)
    requires var keep: Step<D, S, E> := Keep(w, false);
             var end := Run(c, Next(c, sys, keep), rest); v < |end.workers| && end.workers[v].Idle?
    ensures var held := sys.workers[w];
            var keep: Step<D, S, E> := Keep(w, false);
            var end := Run(c, Next(c, sys, keep), rest);
            var look: Step<D, S, E> := Look(v, held.key, false, slow);
            && held.key in end.entries && c.validate(end.entries[held.key]) == Some(held.suggestion)
            && Next(c, end, look).workers == end.workers
            && (c.interpret(held.key, held.suggestion) == Ok(held.result) && slow.None? ==>
                  Next(c, end, look).log == end.log + [Completion(held.key, held.suggestion, held.result, true)])
  {
    var held := sys.workers[w];
    var keep: Step<D, S, E> := Keep(w, false);
    var kept := Next(c, sys, keep);
    assert c.validate(c.dump(held.suggestion)) == Some(held.suggestion);
    assert Settled(c, kept, held.key, held.suggestion);
    OneAnswerForEver(c, kept, rest, held.key, held.suggestion);
  }

  /** From an empty cache: once one request for a key has been answered and stored, the same request
      by any worker, at any later time, is answered from the cache with that suggestion and result. */
  lemma FirstAnswerIsKept<D, S(!new), R, E>(c: Codec<D, S, R, E>, sys: System<D, S, R>, w: nat, key: Key,
                                            suggestion: S, result: R, rest: seq<Step<D, S, E>>, v: nat)
    returns (first: seq<Step<D, S, E>>, stored: System<D, S, R>)
    requires RoundTrips(c) && Start(sys) && w < |sys.workers| && v < |sys.workers|
    requires c.interpret(key, suggestion) == Ok(result) && Undisturbed(rest, key)
    ensures first == [Look(w, key, false, None), Ask(w, Ok(suggestion), None), Keep(w, false)]
    ensures Possible(c, sys, first) && stored == Run(c, sys, first)
    ensures stored.log == [Completion(key, suggestion, result, false)]
    ensures Possible(c, stored, rest) && v < |Run(c, stored, rest).workers| && Run(c, stored, rest).workers[v].Idle? ==>
              var end := Run(c, stored, rest);
              var look: Step<D, S, E> := Look(v, key, false, None);
              Next(c, end, look) == end.(log := end.log + [Completion(key, suggestion, result, true)])
  {
    var look, ask, keep: Step<D, S, E> := Look(w, key, false, None), Ask(w, Ok(suggestion), None), Keep(w, false);
    var missed := Next(c, sys, look);
    var held := Next(c, missed, ask);
    stored := Next(c, held, keep);
    RunFrom(c, held, keep, []);
    RunFrom(c, missed, ask, [keep]);
    RunFrom(c, sys, look, [ask] + [keep]);
    first := [look] + ([ask] + [keep]);
    assert Run(c, stored, []) == stored;
    if Possible(c, stored, rest) && v < |Run(c, stored, rest).workers| && Run(c, stored, rest).workers[v].Idle? {
      StoredThenFound(c, held, w, rest, v, None);
    }
  }

  /** Two requests for one key that overlap both ask the model, outage or not: the second looks up
      before the first has stored. */
  lemma OverlapAsksTwice<D, S, R, E>(c: Codec<D, S, R, E>, key: Key)
    returns (sys: System<D, S, R>, steps: seq<Step<D, S, E>>)
    ensures Start(sys) && Possible(c, sys, steps)
    ensures forall step | step in steps :: Spares(step, key) && Reaches(step, key)
    ensures Run(c, sys, steps).workers == [Missed(key), Missed(key)]
  {
    sys := System(map[], [Idle, Idle], []);
    var first, second: Step<D, S, E> := Look(0, key, false, None), Look(1, key, false, None);
    var sys' := Next(c, sys, first);
    RunFrom(c, sys', second, []);
    RunFrom(c, sys, first, [second]);
    steps := [first] + [second];
  }

  // --- the code ---

  class SuggestionCache<D> {
    var entries: map<Key, D>

    constructor ()
      ensures entries == map[]
    {
      entries := map[];
    }

    method GetCached<S, R, E>(c: Codec<D, S, R, E>, key: Key, outage: bool) returns (suggestion: Option<S>)
      ensures suggestion == Lookup(c, entries, key, outage)
      ensures outage || key !in entries ==> suggestion.None?
      ensures !outage && key in entries ==> suggestion == c.validate(entries[key])
    {
      if outage {
        return None;
      }
      if key !in entries {
        return None;
      }
      suggestion := c.validate(entries[key]);
    }

    method Store(key: Key, data: D, outage: bool)
      modifies this
      ensures entries == if outage then old(entries) else old(entries)[key := data]
    {
      if outage {
        return;
      }
      entries := entries[key := data];
    }
  }

  /** `_complete`, run by an idle worker of some system: what it does to the cache, to the log and to
      the worker is what the steps it went through do, and it asks exactly when the lookup missed. */
  method Complete<D, S, R, E>(c: Codec<D, S, R, E>, cache: SuggestionCache<D>, key: Key, lookupFails: bool,
                              reply: Result<S, E>, slow: Option<E>, storeFails: bool,
                              ghost sys: System<D, S, R>, ghost w: nat)
    returns (answer: Result<Completion<S, R>, E>, asked: bool, ghost steps: seq<Step<D, S, E>>)
    requires sys.entries == cache.entries && w < |sys.workers| && sys.workers[w] == Idle
    modifies cache
    ensures steps <= [Look(w, key, lookupFails, slow), Ask(w, reply, slow), Keep(w, storeFails)] && steps != []
    ensures Possible(c, sys, steps)
    ensures Run(c, sys, steps) ==
            System(cache.entries, sys.workers, sys.log + if answer.Ok? then [answer.value] else [])
    ensures asked <==> Lookup(c, old(cache.entries), key, lookupFails).None?
    ensures asked <==> |steps| > 1
    ensures asked <==> lookupFails || key !in old(cache.entries) || c.validate(old(cache.entries)[key]).None?
    ensures cache.entries == if asked && answer.Ok? && !storeFails
                             then old(cache.entries)[key := c.dump(answer.value.suggestion)] else old(cache.entries)
    ensures answer.Ok? ==>
              && answer.value.key == key && slow.None?
              && c.interpret(key, answer.value.suggestion) == Ok(answer.value.result)
              && (asked ==> reply == Ok(answer.value.suggestion))
              && (!asked ==> c.validate(old(cache.entries)[key]) == Some(answer.value.suggestion))
    ensures asked && reply.Err? ==> answer == Err(reply.error)
    ensures asked && reply.Ok? && answer.Err? ==> Interpreted(c, key, reply.value, slow) == Err(answer.error)
    ensures !asked && answer.Err? ==>
              Interpreted(c, key, Lookup(c, old(cache.entries), key, lookupFails).value, slow) == Err(answer.error)
    ensures answer.Ok? ==> answer.value.cached == !asked
  {
    ghost var look: Step<D, S, E> := Look(w, key, lookupFails, slow);
    steps := [look] + [];
    RunFrom(c, sys, look, []);
    assert sys.workers[w := Idle] == sys.workers;
    var found := cache.GetCached(c, key, lookupFails);
    asked := found.None?;
    var suggestion;
    if asked {
      ghost var ask: Step<D, S, E> := Ask(w, reply, slow);
      RunFrom(c, Next(c, sys, look), ask, []);
      RunFrom(c, sys, look, [ask]);
      steps := [look] + [ask];
      assert sys.workers[w := Missed(key)][w := Idle] == sys.workers;
      if reply.Err? {
        return Err(reply.error), asked, steps;
      }
      suggestion := reply.value;
    } else {
      suggestion := found.value;
    }
    var result := Interpreted(c, key, suggestion, slow);
    if result.Err? {
      return Err(result.error), asked, steps;
    }
    if asked {
      ghost var ask: Step<D, S, E>, keep: Step<D, S, E> := Ask(w, reply, slow), Keep(w, storeFails);
      RunFrom(c, Next(c, Next(c, sys, look), ask), keep, []);
      RunFrom(c, Next(c, sys, look), ask, [keep]);
      RunFrom(c, sys, look, [ask] + [keep]);
      steps := [look] + ([ask] + [keep]);
      assert sys.workers[w := Missed(key)][w := Holding(key, suggestion, result.value)][w := Idle] == sys.workers;
      cache.Store(key, c.dump(suggestion), storeFails);
    }
    answer := Ok(Completion(key, suggestion, result.value, !asked));
  }
}
