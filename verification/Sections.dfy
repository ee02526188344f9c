/** What each critical section does to the fields of its worker and to its handler, and why no handler is stuck. */
module Sections {
  import opened Bytes
  import opened Worker
  import opened WorkerLifecycle
  import opened Wrappers

  // ----- Handlers -----

  /** A handler goes on exactly when its worker has a process then, and that process runs. */
  lemma EnsureDecides(s: State, h: HandlerId, w: WorkerId, health: Health, spawn: Spawn)
    requires Enabled(s, Ensure(h, w, health, spawn))
    ensures var s' := Next(s, Ensure(h, w, health, spawn));
            var before, after := s.workers[w], s'.workers[w];
            && s'.handlers == s.handlers[h := if after.process.Some? then Ready(w) else Finished]
            && (after.process.Some? ==> after.process.value in s'.running)
            && (if before.process.Some? && health == Alive then after == before else after.process == spawn.child)
            && after.activeRequests == before.activeRequests
  {
  }

  /** The request is counted from here to the end of the exchange. */
  lemma BeginCounts(s: State, h: HandlerId, w: WorkerId)
    requires Enabled(s, Begin(h, w))
    ensures var s' := Next(s, Begin(h, w));
            && s'.handlers == s.handlers[h := InFlight(w)]
            && s'.workers[w] == s.workers[w].(activeRequests := s.workers[w].activeRequests + 1)
  {
  }

  /**
   A reply is counted once and its figures are kept; the handler comes back for a recycle exactly when the engine is
   on and a figure exceeds the configured percentage or the request limit is met with this reply.
   */
  lemma ReplyDecides(s: State, h: HandlerId, w: WorkerId, memory: u64, peak: u64, proc: Option<ProcMemory>,
                     config: Config)
    requires Inv(s) && Enabled(s, Reply(h, w, memory, peak, proc, config)) && LimitTimesPercent(config) < TWO_64
    ensures var s' := Next(s, Reply(h, w, memory, peak, proc, config));
            var before, after := s.workers[w], s'.workers[w];
            && after.requestsHandled == before.requestsHandled + 1
            && after.activeRequests == before.activeRequests - 1
            && after.lastMemory == memory && after.lastPeak == peak && after.process == before.process
            && (before.pid.Some? && proc.Some? ==>
                  after.rssBytes == proc.value.rss && after.hwmBytes == proc.value.hwm)
            && (before.pid == None || proc == None ==> after.rssBytes == before.rssBytes)
            && s'.handlers == s.handlers[h :=
                 if config.antiOomEnabled
                    && (Exceeds(after.rssBytes, config) || Exceeds(memory, config) || Exceeds(peak, config)
                        || before.requestsHandled + 1 >= config.maxRequests)
                 then Reasoned(w) else Finished]
  {
    hide Threshold, LimitTimesPercent, Exceeds, Inv;
    DecrementIsExact(s, h, w);
    var after := Next(s, Reply(h, w, memory, peak, proc, config)).workers[w];
    ThresholdIsExact(config, after.rssBytes);
    ThresholdIsExact(config, memory);
    ThresholdIsExact(config, peak);
  }

  /** A broken exchange leaves the worker with a process that runs, or with none. */
  lemma BreakEnds(s: State, h: HandlerId, w: WorkerId, health: Health, spawn: Spawn)
    requires Inv(s) && Enabled(s, Break(h, w, health, spawn))
    ensures var s' := Next(s, Break(h, w, health, spawn));
            var before, after := s.workers[w], s'.workers[w];
            && s'.handlers == s.handlers[h := Finished]
            && after.activeRequests == before.activeRequests - 1
            && (after.process.Some? ==> after.process.value in s'.running)
            && (if before.process.Some? && health == Alive
                then after.process == before.process && after.requestsHandled == before.requestsHandled
                else after.process == spawn.child)
  {
    hide Inv;
    DecrementIsExact(s, h, w);
  }

  /** A recycle counts, its old process is stopped, and the new one, if it is spawned, starts at zero requests. */
  ghost predicate Replaces(s: State, s': State, w: WorkerId, spawn: Spawn)
    requires w in s.workers && w in s'.workers
  {
    var before, after := s.workers[w], s'.workers[w];
    && after.recycleCount == before.recycleCount + 1 && after.process == spawn.child && !after.draining
    && (spawn.child.Some? ==> after.requestsHandled == 0 && after.pid == spawn.child)
    && forall c :: c in s'.running <==> spawn.child == Some(c) || (c in s.running && before.process != Some(c))
  }

  lemma RecycledReplaces(s: State, w: WorkerId, before: WorkerState, spawn: Spawn)
    requires w in s.workers && Released(before)
    requires before.recycleCount == s.workers[w].recycleCount && before.process == s.workers[w].process
    ensures Replaces(s, AfterRecycle(s, w, before, spawn), w, spawn)
    ensures AfterRecycle(s, w, before, spawn).workers[w].activeRequests == before.activeRequests
  {
  }

  lemma MoveReplaces(s: State, t: State, h: HandlerId, phase: Phase, w: WorkerId, spawn: Spawn)
    requires w in s.workers && w in t.workers && Replaces(s, t, w, spawn)
    ensures Move(t, h, phase).handlers == t.handlers[h := phase] && Move(t, h, phase).workers == t.workers
    ensures Replaces(s, Move(t, h, phase), w, spawn)
  {
  }

  lemma TimeOutReplaces(s: State, h: HandlerId, w: WorkerId, spawn: Spawn)
    requires Inv(s) && Enabled(s, TimeOut(h, w, spawn))
    ensures var s' := Next(s, TimeOut(h, w, spawn));
            && s'.handlers == s.handlers[h := Finished] && Replaces(s, s', w, spawn)
            && s'.workers[w].activeRequests == s.workers[w].activeRequests - 1
  {
    hide Inv;
    InvAt(s, w);
    DecrementIsExact(s, h, w);
    RecycledReplaces(s, w, Less(s.workers[w]), spawn);
    hide AfterRecycle;
  }

  lemma AfterAsked(s: State, h: HandlerId, w: WorkerId, spawn: Spawn)
    requires w in s.workers
    ensures Enabled(s, Evict(w, spawn)) ==> Next(s, Evict(w, spawn)) == AfterRecycle(s, w, s.workers[w], spawn)
    ensures Enabled(s, Recycle(h, w, spawn)) ==>
              Next(s, Recycle(h, w, spawn)) == Move(AfterRecycle(s, w, s.workers[w], spawn), h, Finished)
  {
    hide AfterRecycle, Move;
  }

  lemma OnlyWorkersAndProcesses(s: State, w: WorkerId, before: WorkerState, spawn: Spawn)
    ensures AfterRecycle(s, w, before, spawn).handlers == s.handlers
  {
    hide Recycled, ChildOf, ChildOfSpawn;
  }

  /** A reason found with a reply is acted upon. */
  lemma RecycleReplaces(s: State, h: HandlerId, w: WorkerId, spawn: Spawn)
    requires Inv(s) && Enabled(s, Recycle(h, w, spawn))
    ensures var s' := Next(s, Recycle(h, w, spawn));
            s'.handlers == s.handlers[h := Finished] && Replaces(s, s', w, spawn)
  {
    AfterAsked(s, h, w, spawn);
    InvAt(s, w);
    hide Inv, Count, AfterRecycle, Next;
    RecycledReplaces(s, w, s.workers[w], spawn);
    OnlyWorkersAndProcesses(s, w, s.workers[w], spawn);
    MoveReplaces(s, AfterRecycle(s, w, s.workers[w], spawn), h, Finished, w, spawn);
    hide Released, Replaces, Move;
  }

  /** So is the monitor's choice. */
  lemma EvictReplaces(s: State, w: WorkerId, spawn: Spawn)
    requires Inv(s) && Enabled(s, Evict(w, spawn))
    ensures var s' := Next(s, Evict(w, spawn));
            s'.handlers == s.handlers && Replaces(s, s', w, spawn)
  {
    AfterAsked(s, 0, w, spawn);
    InvAt(s, w);
    hide Inv, Count, AfterRecycle, Next, Replaces;
    RecycledReplaces(s, w, s.workers[w], spawn);
    OnlyWorkersAndProcesses(s, w, s.workers[w], spawn);
    hide Released;
  }

  // ----- Monitor and reload -----

  /** The monitor may take any workers of the pools; it may visit and evict them until it lets go of them. */
  lemma MonitorHolds(s: State, ids: set<WorkerId>, w: WorkerId)
    requires Inv(s) && ids <= s.pool && w in ids
    ensures Enabled(s, Take(ids)) && Next(s, Take(ids)) == s.(held := s.held + ids)
    ensures var s' := Next(s, Take(ids));
            && Enabled(s', Evict(w, NO_SPAWN)) && Enabled(s', Release(w))
            && Next(s', Release(w)).held == s.held + ids - {w}
  {
  }

  /** The figures of a worker once the monitor has read its RSS call for a recycle. */
  predicate CallsForRecycle(before: WorkerState, rss: u64, config: Config) {
    config.antiOomEnabled
    && (Exceeds(rss, config) || Exceeds(before.lastMemory, config) || Exceeds(before.lastPeak, config)
        || before.requestsHandled >= config.maxRequests)
  }

  /** The RSS just read if there is a pid and a reading. */
  function RssSeen(before: WorkerState, proc: Option<ProcMemory>): u64 {
    if before.pid.Some? && proc.Some? then proc.value.rss else before.rssBytes
  }

  lemma SeenIsJudged(before: WorkerState, proc: Option<ProcMemory>, config: Config)
    requires LimitTimesPercent(config) < TWO_64
    ensures ShouldRestart(Refreshed(before, proc), config) <==> CallsForRecycle(before, RssSeen(before, proc), config)
    ensures var seen := Refreshed(before, proc);
            && seen.rssBytes == RssSeen(before, proc)
            && seen.(rssBytes := 0, hwmBytes := 0) == before.(rssBytes := 0, hwmBytes := 0)
  {
    hide Threshold, LimitTimesPercent, Exceeds;
    ThresholdIsExact(config, RssSeen(before, proc));
    ThresholdIsExact(config, before.lastMemory);
    ThresholdIsExact(config, before.lastPeak);
  }

  lemma AfterVisit(s: State, w: WorkerId, proc: Option<ProcMemory>, config: Config, spawn: Spawn)
    requires Enabled(s, Visit(w, proc, config, spawn))
    ensures var s', seen := Next(s, Visit(w, proc, config, spawn)), Refreshed(s.workers[w], proc);
            && s'.handlers == s.handlers
            && (ShouldRestart(seen, config) ==> s' == AfterRecycle(s, w, seen, spawn))
            && (!ShouldRestart(seen, config) ==> s'.workers[w] == seen)
  {
    hide ShouldRestart, Refreshed, Recycled, ChildOf, ChildOfSpawn;
  }

  /** A visit recycles exactly by the figures of that moment, the RSS just read if there is a pid and a reading. */
  lemma VisitJudges(s: State, w: WorkerId, proc: Option<ProcMemory>, config: Config, spawn: Spawn)
    requires Inv(s) && Enabled(s, Visit(w, proc, config, spawn)) && LimitTimesPercent(config) < TWO_64
    ensures var s' := Next(s, Visit(w, proc, config, spawn));
            var before, after := s.workers[w], s'.workers[w];
            && s'.handlers == s.handlers
            && if CallsForRecycle(before, RssSeen(before, proc), config) then Replaces(s, s', w, spawn)
               else after.rssBytes == RssSeen(before, proc)
                    && after.(rssBytes := 0, hwmBytes := 0) == before.(rssBytes := 0, hwmBytes := 0)
  {
    var before := s.workers[w];
    InvAt(s, w);
    hide Inv, Count, ShouldRestart, CallsForRecycle, RssSeen;
    SeenIsJudged(before, proc, config);
    SectionsKeepReleased(before, Alive, None, proc, 0, 0);
    RecycledReplaces(s, w, Refreshed(before, proc), spawn);
    hide Replaces, Recycled, Released, Refreshed, ChildOf, ChildOfSpawn, AfterRecycle, Known;
    AfterVisit(s, w, proc, config, spawn);
    hide Next;
  }

  /** A reload stops a worker's process, and starts a worker whatever process it has. */
  lemma ReloadRestarts(s: State, w: WorkerId, spawn: Spawn)
    ensures Enabled(s, ReloadStop(w)) ==>
              var s' := Next(s, ReloadStop(w));
              && s'.workers[w].process == None && s'.spawned == s.spawned
              && forall c :: c in s'.running <==> c in s.running && s.workers[w].process != Some(c)
    ensures Enabled(s, ReloadStart(w, spawn)) ==>
              var s' := Next(s, ReloadStart(w, spawn));
              && (spawn.child.Some? ==> s'.workers[w].process == spawn.child && spawn.child.value in s'.running)
              && (spawn.child == None ==> s'.workers[w] == s.workers[w])
  {
    if Enabled(s, ReloadStart(w, spawn)) && spawn.child == None {
      assert s.workers[w := s.workers[w]] == s.workers;
    }
  }

  // ----- Progress -----

  /** What waiting on the child would tell. */
  function Told(s: State, w: WorkerId): Health
    requires w in s.workers
  {
    var process := s.workers[w].process;
    if process.Some? && process.value in s.running then Alive else Exited
  }

  /** However a handler stands, it can end by its own sections, without a new process. */
  lemma HandlerCanEnd(s: State, h: HandlerId) returns (steps: seq<Step>)
    requires Inv(s) && h in s.handlers
    ensures Runs(s, steps) && After(s, steps).handlers == s.handlers[h := Finished]
  {
    assert Known(s, s.handlers[h]);
    match s.handlers[h]
    case Chosen(w) =>
      var step := Ensure(h, w, Told(s, w), NO_SPAWN);
      EnsureDecides(s, h, w, Told(s, w), NO_SPAWN);
      steps := EndAfter(s, step, h, w);
    case Ready(w) =>
      steps := [GiveUp(h, w)];
      OneStep(s, GiveUp(h, w));
    case InFlight(w) =>
      steps := [TimeOut(h, w, NO_SPAWN)];
      OneStep(s, TimeOut(h, w, NO_SPAWN));
    case Reasoned(w) =>
      steps := [Recycle(h, w, NO_SPAWN)];
      OneStep(s, Recycle(h, w, NO_SPAWN));
    case Finished =>
      steps := [];
      assert s.handlers[h := Finished] == s.handlers;
  }

  lemma EndAfter(s: State, step: Step, h: HandlerId, w: WorkerId) returns (steps: seq<Step>)
    requires Enabled(s, step) && w in Next(s, step).workers
    requires Next(s, step).handlers in {s.handlers[h := Finished], s.handlers[h := Ready(w)]}
    ensures Runs(s, steps) && After(s, steps).handlers == s.handlers[h := Finished]
  {
    hide Next;
    OneStep(s, step);
    steps := [step];
    var s' := Next(s, step);
    if s'.handlers != s.handlers[h := Finished] {
      OneStep(s', GiveUp(h, w));
      RunsAppend(s, [step], [GiveUp(h, w)]);
      steps := [step] + [GiveUp(h, w)];
      GivenUp(s', h, w);
      assert s.handlers[h := Ready(w)][h := Finished] == s.handlers[h := Finished];
    }
  }

  lemma GivenUp(s: State, h: HandlerId, w: WorkerId)
    requires Enabled(s, GiveUp(h, w))
    ensures Next(s, GiveUp(h, w)).handlers == s.handlers[h := Finished]
  {
  }

  function Unfinished(handlers: map<HandlerId, Phase>): set<HandlerId> {
    set h | h in handlers && handlers[h] != Finished
  }

  lemma {:induction false} AllCanEnd(s: State) returns (steps: seq<Step>)
    requires Inv(s)
    ensures Runs(s, steps)
    ensures var s' := After(s, steps);
            && s'.handlers.Keys == s.handlers.Keys && (forall h :: h in s'.handlers ==> s'.handlers[h] == Finished)
            && forall w :: w in s'.workers ==> s'.workers[w].activeRequests == 0
    decreases Unfinished(s.handlers)
  {
    hide Next, Enabled, Inv;
    if h :| h in Unfinished(s.handlers) {
      var first := HandlerCanEnd(s, h);
      RunKeepsInv(s, first);
      var t := After(s, first);
      assert Unfinished(t.handlers) == Unfinished(s.handlers) - {h};
      var rest := AllCanEnd(t);
      RunsAppend(s, first, rest);
      steps := first + rest;
    } else {
      steps := [];
      assert forall h :: h in s.handlers ==> s.handlers[h] == Finished || h in Unfinished(s.handlers);
      forall w | w in s.workers
        ensures s.workers[w].activeRequests == 0
      {
        InvAt(s, w);
        assert Holders(s.handlers, InFlight(w)) == {};
      }
    }
  }

  /** Any run can go on so that all its requests end, without another process, and then no worker counts any. */
  lemma RequestsCanEnd(steps: seq<Step>) returns (more: seq<Step>)
    requires Runs(INIT, steps)
    ensures Runs(INIT, steps + more)
    ensures var s, s' := After(INIT, steps), After(INIT, steps + more);
            && s'.handlers.Keys == s.handlers.Keys && (forall h :: h in s'.handlers ==> s'.handlers[h] == Finished)
            && forall w :: w in s'.workers ==> s'.workers[w].activeRequests == 0
  {
    RunKeepsInv(INIT, steps);
    more := AllCanEnd(After(INIT, steps));
    RunsAppend(INIT, steps, more);
  }
}
