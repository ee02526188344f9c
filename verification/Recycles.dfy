/** Recycles in the interleavings: none asked for is skipped, and none spares the requests in flight. */
module Recycles {
  import opened Bytes
  import opened ProcessAccounting
  import opened Worker
  import opened WorkerLifecycle
  import opened Wrappers

  /** The step asks worker w to be recycled: after a time-out, on a handler's reason, or by the monitor. */
  predicate AsksRecycle(s: State, step: Step, w: WorkerId)
    requires Enabled(s, step)
  {
    match step
    case TimeOut(_, v, _) => v == w
    case Recycle(_, v, _) => v == w
    case Evict(v, _) => v == w
    case Visit(v, proc, config, _) => v == w && ShouldRestart(Refreshed(s.workers[w], proc), config)
    case _ => false
  }

  function RecycleCount(s: State, w: WorkerId): nat {
    if w in s.workers then s.workers[w].recycleCount else 0
  }

  lemma SectionsOnRecycleCount(w: WorkerState, health: Health, spawn: Option<ProcessId>, proc: Option<ProcMemory>,
                               memory: u64, peak: u64)
    ensures Refreshed(w, proc).recycleCount == w.recycleCount && Stopped(w).recycleCount == w.recycleCount
    ensures Started(w, spawn, proc).recycleCount == w.recycleCount && Less(w).recycleCount == w.recycleCount
    ensures EnsuredRunning(w, health, spawn, proc).recycleCount == w.recycleCount
    ensures Updated(w, memory, peak, proc).recycleCount == w.recycleCount
  {
  }

  lemma AskedRecycleStep(s: State, step: Step, w: WorkerId)
    requires Inv(s) && Enabled(s, step) && AsksRecycle(s, step, w)
    ensures Next(s, step).workers[w].recycleCount == s.workers[w].recycleCount + 1
    ensures Next(s, step).workers[w].process == step.spawn.child
  {
    hide Inv, Released, Recycled, Refreshed, ShouldRestart, ChildOf, ChildOfSpawn;
    var before := s.workers[w];
    assert WorkerFits(s, w) by { InvAt(s, w); }
    var proc := if step.Visit? then step.proc else None;
    SectionsKeepReleased(before, Alive, None, proc, 0, 0);
    SectionsOnRecycleCount(before, Alive, None, proc, 0, 0);
    RecycleIsNotSkipped(before, step.spawn.child, step.spawn.memory);
    RecycleIsNotSkipped(Less(before), step.spawn.child, step.spawn.memory);
    RecycleIsNotSkipped(Refreshed(before, proc), step.spawn.child, step.spawn.memory);
  }

  lemma UnaskedStep(s: State, step: Step, w: WorkerId)
    requires Enabled(s, step) && !AsksRecycle(s, step, w)
    ensures RecycleCount(Next(s, step), w) == RecycleCount(s, w)
  {
    hide Recycled, Refreshed, Started, Stopped, EnsuredRunning, Updated, ShouldRestart, IsRunning, ChildOf,
      ChildOfSpawn;
    if w in s.workers {
      var before := s.workers[w];
      var health := if step.Ensure? || step.Break? then step.health else Alive;
      var spawn := if step.Ensure? || step.Break? || step.ReloadStart? then step.spawn else NO_SPAWN;
      SectionsOnRecycleCount(before, health, spawn.child, spawn.memory, 0, 0);
      SectionsOnRecycleCount(Less(before), health, spawn.child, spawn.memory, 0, 0);
      if step.Reply? || step.Visit? {
        var memory, peak := if step.Reply? then step.memory else 0, if step.Reply? then step.peak else 0;
        SectionsOnRecycleCount(before, health, None, step.proc, memory, peak);
        SectionsOnRecycleCount(Less(before), health, None, step.proc, memory, peak);
      }
    }
  }

  lemma RecycleStep(s: State, step: Step, w: WorkerId)
    requires Inv(s) && Enabled(s, step)
    ensures RecycleCount(Next(s, step), w) == RecycleCount(s, w) + (if AsksRecycle(s, step, w) then 1 else 0)
  {
    if AsksRecycle(s, step, w) {
      AskedRecycleStep(s, step, w);
    } else {
      UnaskedStep(s, step, w);
    }
  }

  function RecyclesAsked(s: State, steps: seq<Step>, w: WorkerId): nat
    requires Runs(s, steps)
    decreases |steps|
  {
    if steps == [] then 0
    else (if AsksRecycle(s, steps[0], w) then 1 else 0) + RecyclesAsked(Next(s, steps[0]), steps[1..], w)
  }

  lemma {:induction false} RecyclesOfRun(s: State, steps: seq<Step>, w: WorkerId)
    requires Inv(s) && Runs(s, steps)
    ensures RecycleCount(After(s, steps), w) == RecycleCount(s, w) + RecyclesAsked(s, steps, w)
    decreases |steps|
  {
    hide Inv, Next, AsksRecycle, RecycleCount;
    if steps != [] {
      NextKeepsInv(s, steps[0]);
      RecycleStep(s, steps[0], w);
      RecyclesOfRun(Next(s, steps[0]), steps[1..], w);
    }
  }

  /**
   In every interleaving no recycle asked for is skipped, for all that several handlers and the monitor may ask
   for the same worker: its recycle count is the number of times one was asked for.
   */
  lemma NoRecycleIsSkipped(steps: seq<Step>, w: WorkerId)
    requires Runs(INIT, steps)
    ensures RecycleCount(After(INIT, steps), w) == RecyclesAsked(INIT, steps, w)
  {
    RecyclesOfRun(INIT, steps, w);
  }

  // ----- The wait for requests in flight -----

  /** The worker as the recycle that the step asks for finds it. */
  function FoundByRecycle(s: State, step: Step, w: WorkerId): WorkerState
    requires Enabled(s, step) && AsksRecycle(s, step, w)
  {
    var before := s.workers[w];
    if step.TimeOut? then Less(before) else if step.Visit? then Refreshed(before, step.proc) else before
  }

  lemma RecycleLeavesCount(s: State, step: Step, w: WorkerId)
    requires Inv(s) && Enabled(s, step) && AsksRecycle(s, step, w)
    ensures var found := FoundByRecycle(s, step, w);
            && !found.draining && Next(s, step).workers[w].activeRequests == found.activeRequests
            && found.activeRequests == s.workers[w].activeRequests - (if step.TimeOut? then 1 else 0)
  {
    hide Inv, Count, Recycled, Refreshed, ShouldRestart, ChildOf, ChildOfSpawn;
    assert WorkerFits(s, w) by { InvAt(s, w); }
    if step.TimeOut? {
      DecrementIsExact(s, step.h, w);
    }
    var found, spawn := FoundByRecycle(s, step, w), step.spawn;
    SectionsKeepReleased(s.workers[w], Alive, None, if step.Visit? then step.proc else None, 0, 0);
    SectionsKeepReleased(found, Alive, spawn.child, spawn.memory, 0, 0);
  }

  lemma RecycleStopsProcess(s: State, step: Step, w: WorkerId, c: ProcessId)
    requires Inv(s) && Accounted(s) && Enabled(s, step) && AsksRecycle(s, step, w) && Names(s, w, c)
    ensures c !in Next(s, step).running
  {
    hide Inv, Released, Next, Refreshed, ShouldRestart;
    assert !s.workers[w].draining by { NotDraining(s, w); }
    assert Restarts(s, step);
    var spawn := RestartStep(s, step);
  }

  lemma NotDraining(s: State, w: WorkerId)
    requires Inv(s) && w in s.workers
    ensures !s.workers[w].draining
  {
    assert WorkerFits(s, w);
  }

  lemma RunAccounts(s: State, steps: seq<Step>)
    requires Accounted(s) && Runs(s, steps)
    ensures Accounted(After(s, steps))
  {
    OrphansOfRun(s, steps, 0);
  }

  /**
   In every interleaving the wait of a recycle is spent in vain. It lasts two seconds exactly when a handler, other
   than one that gives up its request in the same section, is in flight on the worker, and all that are in flight
   before it are so after it, when their process has been stopped.
   */
  lemma RecycleStopsUnderRequests(steps: seq<Step>, step: Step, w: WorkerId)
    requires Runs(INIT, steps) && Enabled(After(INIT, steps), step) && AsksRecycle(After(INIT, steps), step, w)
    ensures var s, s' := After(INIT, steps), Next(After(INIT, steps), step);
            var others := Count(s'.handlers, InFlight(w));
            && others == Count(s.handlers, InFlight(w)) - (if step.TimeOut? then 1 else 0)
            && RecycleWait(FoundByRecycle(s, step, w)) == (if others == 0 then 0 else 2000)
            && forall c: ProcessId :: Names(s, w, c) ==> c !in s'.running
  {
    hide Runs, After, Count, Inv, Released, Accounted, Next, Enabled;
    var s := After(INIT, steps);
    RunKeepsInv(INIT, steps) by { InitInv(); }
    RunAccounts(INIT, steps) by { InitInv(); }
    RecycleLeavesCount(s, step, w);
    NextKeepsInv(s, step);
    assert WorkerFits(s, w) by { AskedExists(s, step, w); InvAt(s, w); }
    assert WorkerFits(Next(s, step), w) by { AskedExists(s, step, w); InvAt(Next(s, step), w); }
    forall c: ProcessId | Names(s, w, c)
      ensures c !in Next(s, step).running
    {
      RecycleStopsProcess(s, step, w, c);
    }
  }

  lemma InitInv()
    ensures Inv(INIT) && Accounted(INIT)
  {
  }

  lemma AskedExists(s: State, step: Step, w: WorkerId)
    requires Enabled(s, step) && AsksRecycle(s, step, w)
    ensures w in s.workers && w in Next(s, step).workers
  {
  }
}
