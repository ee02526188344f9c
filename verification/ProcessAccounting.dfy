/**
 Which spawned PHP processes something can still stop, and when one is left running that nothing will.

 Everything that stops a process does so through the worker that names it, and a worker can be got at while it
 is in a pool, in the monitor's list, or in the hands of a handler that has not finished. A child is not killed
 when its handle is dropped, so a running process named by none of these workers goes on until it exits.
 */
module ProcessAccounting {
  import opened Bytes
  import opened Worker
  import opened WorkerLifecycle
  import opened Wrappers

  predicate Names(s: State, w: WorkerId, c: ProcessId) {
    w in s.workers && s.workers[w].process == Some(c)
  }

  predicate Holds(s: State, h: HandlerId, w: WorkerId) {
    h in s.handlers && s.handlers[h] != Finished && s.handlers[h].w == w
  }

  ghost predicate Reachable(s: State, w: WorkerId) {
    w in s.pool || w in s.held || exists h: HandlerId :: Holds(s, h, w)
  }

  ghost predicate IsOrphan(s: State, c: ProcessId) {
    c in s.running && forall w: WorkerId :: Names(s, w, c) ==> !Reachable(s, w)
  }

  ghost predicate NoOrphans(s: State) {
    forall c: ProcessId :: !IsOrphan(s, c)
  }

  /** Processes running or named have been spawned, and no two workers name the same one. */
  ghost predicate Accounted(s: State) {
    && s.running <= s.spawned
    && (forall w: WorkerId, c: ProcessId :: Names(s, w, c) ==> c in s.spawned)
    && (forall v: WorkerId, w: WorkerId, c: ProcessId :: Names(s, v, c) && Names(s, w, c) ==> v == w)
  }

  // ----- When a worker is let go of -----

  predicate OfHandler(step: Step) {
    || step.Arrive? || step.Ensure? || step.GiveUp? || step.Begin? || step.Reply? || step.Break?
    || step.TimeOut? || step.Recycle?
  }

  /** The section is the last of its handler. */
  predicate IsLast(s: State, step: Step)
    requires Enabled(s, step)
  {
    match step
    case Ensure(_, w, health, spawn) => !IsRunning(s.workers[w], health) && spawn.child == None
    case Reply(_, w, memory, peak, proc, config) =>
      !ShouldRestart(Updated(Less(s.workers[w]), memory, peak, proc), config)
    case _ => step.GiveUp? || step.Break? || step.TimeOut? || step.Recycle?
  }

  predicate Retires(step: Step, w: WorkerId) {
    (step.Resize? || step.DropPool?) && w in step.retired
  }

  /** The step gives up one hold on worker w. */
  predicate GivesUp(s: State, step: Step, w: WorkerId)
    requires Enabled(s, step)
  {
    Retires(step, w) || step == Release(w) || (OfHandler(step) && step.w == w && IsLast(s, step))
  }

  /** A pool, the monitor or another handler keeps worker w. */
  ghost predicate KeptByOthers(s: State, step: Step, w: WorkerId) {
    || (w in s.pool && !Retires(step, w))
    || (w in s.held && step != Release(w))
    || (exists h: HandlerId :: Holds(s, h, w) && !(OfHandler(step) && step.h == h))
  }

  /** The last hold on worker w is given up. */
  ghost predicate LetsGo(s: State, step: Step, w: WorkerId)
    requires Enabled(s, step)
  {
    GivesUp(s, step, w) && !KeptByOthers(s, step, w)
  }

  lemma HandlerStepHolds(s: State, step: Step, w: WorkerId)
    requires Enabled(s, step) && OfHandler(step) && w in s.workers
    ensures Reachable(Next(s, step), w) <==> Reachable(s, w) && !LetsGo(s, step, w)
  {
    hide EnsuredRunning, Recycled, Updated, ShouldRestart, IsRunning, Put;
    var s' := Next(s, step);
    assert s'.pool == s.pool && s'.held == s.held by { HandlerStepMoves(s, step); }
    assert s'.handlers == s.handlers[step.h := s'.handlers[step.h]] by { HandlerStepMoves(s, step); }
    var last := s'.handlers[step.h] == Finished;
    assert last <==> IsLast(s, step);
    assert !last ==> s'.handlers[step.h].w == step.w;
    assert Holds(s, step.h, step.w) || (step.Arrive? && step.w in s.pool && !last && step.h !in s.handlers);
    hide Next, Enabled, IsLast;
    assert forall h: HandlerId :: h != step.h ==> (Holds(s', h, w) <==> Holds(s, h, w));
    assert Holds(s', step.h, w) <==> !last && step.w == w;
  }

  lemma HandlerStepMoves(s: State, step: Step)
    requires Enabled(s, step) && OfHandler(step)
    ensures var s' := Next(s, step);
            && s'.pool == s.pool && s'.held == s.held && step.h in s'.handlers
            && s'.handlers == s.handlers[step.h := s'.handlers[step.h]]
  {
    hide EnsuredRunning, Recycled, Updated, ShouldRestart, IsRunning;
  }

  lemma OtherStepHolds(s: State, step: Step, w: WorkerId)
    requires Enabled(s, step) && !OfHandler(step) && w in s.workers
    ensures Reachable(Next(s, step), w) <==> Reachable(s, w) && !LetsGo(s, step, w)
  {
    hide EnsuredRunning, Recycled, Started, Stopped, Refreshed, ShouldRestart, IsRunning;
    var s' := Next(s, step);
    assert s'.handlers == s.handlers;
    assert forall h: HandlerId :: Holds(s', h, w) <==> Holds(s, h, w);
  }

  /** LetsGo is exactly how a worker is lost. */
  lemma WorkersLost(s: State, step: Step, w: WorkerId)
    requires Enabled(s, step) && w in s.workers
    ensures Reachable(Next(s, step), w) <==> Reachable(s, w) && !LetsGo(s, step, w)
  {
    if OfHandler(step) {
      HandlerStepHolds(s, step, w);
    } else {
      OtherStepHolds(s, step, w);
    }
  }

  /** A section acts on a worker that somebody has. */
  lemma ActsOnReachable(s: State, step: Step)
    requires Enabled(s, step)
    requires OfHandler(step) || step.Visit? || step.Evict? || step.ReloadStop? || step.ReloadStart?
    ensures Reachable(s, step.w)
  {
    assert OfHandler(step) && !step.Arrive? ==> Holds(s, step.h, step.w);
  }

  // ----- When a process is left behind -----

  /** The start of a reload replaces running process c, unstopped, by the one it spawns. */
  predicate Overwrites(s: State, step: Step, c: ProcessId) {
    step.ReloadStart? && step.spawn.child.Some? && Names(s, step.w, c) && c in s.running
  }

  /** The section stops the process of its worker and perhaps spawns another. */
  predicate Restarts(s: State, step: Step)
    requires Enabled(s, step)
  {
    match step
    case Ensure(_, w, health, _) => !IsRunning(s.workers[w], health)
    case Break(_, w, health, _) => !IsRunning(s.workers[w], health)
    case Visit(w, proc, config, _) => ShouldRestart(Refreshed(s.workers[w], proc), config) && !s.workers[w].draining
    case TimeOut(_, w, _) => !s.workers[w].draining
    case Recycle(_, w, _) => !s.workers[w].draining
    case Evict(w, _) => !s.workers[w].draining
    case _ => step.ReloadStop?
  }

  /** Told beforehand: worker w will name process c after the step, and c will run. */
  predicate WillRun(s: State, step: Step, w: WorkerId, c: ProcessId)
    requires Enabled(s, step)
  {
    if OfHandler(step) && Restarts(s, step) then step.spawn.child == Some(c) else Names(s, w, c) && c in s.running
  }

  /** The last hold is given up on a worker that will name running process c. */
  ghost predicate Abandons(s: State, step: Step, c: ProcessId)
    requires Enabled(s, step)
  {
    exists w: WorkerId :: LetsGo(s, step, w) && WillRun(s, step, w, c)
  }

  ghost predicate Forgets(s: State, step: Step, c: ProcessId)
    requires Enabled(s, step)
  {
    Overwrites(s, step, c) || Abandons(s, step, c)
  }

  /** The same seen from after the step. */
  ghost predicate HasAbandoned(s: State, step: Step, c: ProcessId)
    requires Enabled(s, step)
  {
    c in Next(s, step).running && exists w: WorkerId :: LetsGo(s, step, w) && Names(Next(s, step), w, c)
  }

  /** What the step does to reachability, as WorkersLost has it. */
  ghost predicate HoldsMove(s: State, step: Step)
    requires Enabled(s, step)
  {
    forall w: WorkerId :: w in s.workers ==> (Reachable(Next(s, step), w) <==> Reachable(s, w) && !LetsGo(s, step, w))
  }

  /** A step that leaves every process as it is. */
  lemma Unreplaced(s: State, step: Step, c: ProcessId)
    requires Accounted(s) && Enabled(s, step) && HoldsMove(s, step) && !step.ReloadStart?
    requires Next(s, step).running == s.running && Next(s, step).spawned == s.spawned
    requires forall w: WorkerId, d: ProcessId :: Names(Next(s, step), w, d) <==> Names(s, w, d)
    ensures Accounted(Next(s, step)) && (IsOrphan(Next(s, step), c) <==> IsOrphan(s, c) || HasAbandoned(s, step, c))
  {
    hide Next, Enabled, LetsGo, Reachable;
    var s' := Next(s, step);
    if IsOrphan(s', c) && !IsOrphan(s, c) {
      var w: WorkerId :| Names(s, w, c) && Reachable(s, w);
      assert Names(s', w, c) && LetsGo(s, step, w);
    }
    if IsOrphan(s, c) {
      assert forall w: WorkerId :: Names(s', w, c) ==> !Reachable(s', w);
    }
    if HasAbandoned(s, step, c) {
      var w: WorkerId :| LetsGo(s, step, w) && Names(s', w, c);
      assert forall v: WorkerId :: Names(s', v, c) ==> v == w;
    }
  }

  /** A section that stops the old process, if there is one, then perhaps spawns. */
  ghost predicate Replaces(s: State, step: Step, w: WorkerId, spawn: Spawn)
    requires Enabled(s, step)
  {
    && OnlyWorker(s, Next(s, step), w) && Fresh(s, spawn) && Next(s, step).workers[w].process == spawn.child
    && Next(s, step).running == s.running - ChildOf(s.workers[w]) + ChildOfSpawn(spawn)
    && Next(s, step).spawned == s.spawned + ChildOfSpawn(spawn)
  }

  lemma NamesAfterReplace(s: State, step: Step, w: WorkerId, spawn: Spawn)
    requires Enabled(s, step) && Replaces(s, step, w, spawn)
    ensures forall v: WorkerId, d: ProcessId :: v != w ==> (Names(Next(s, step), v, d) <==> Names(s, v, d))
    ensures forall d: ProcessId :: Names(Next(s, step), w, d) <==> spawn.child == Some(d)
    ensures forall d: ProcessId :: Names(s, w, d) <==> d in ChildOf(s.workers[w])
  {
    hide Next, Enabled;
  }

  lemma ReplacedAccounted(s: State, step: Step, w: WorkerId, spawn: Spawn)
    requires Accounted(s) && Enabled(s, step) && Replaces(s, step, w, spawn)
    ensures Accounted(Next(s, step))
  {
    hide Next, Enabled, Names;
    NamesAfterReplace(s, step, w, spawn);
  }

  lemma OrphansStayReplaced(s: State, step: Step, w: WorkerId, spawn: Spawn, c: ProcessId)
    requires Accounted(s) && Enabled(s, step) && HoldsMove(s, step) && Reachable(s, w) && Replaces(s, step, w, spawn)
    ensures IsOrphan(s, c) ==> IsOrphan(Next(s, step), c)
  {
    NamesAfterReplace(s, step, w, spawn);
    assert forall v: WorkerId, d: ProcessId :: Names(s, v, d) ==> v in s.workers;
    hide Next, Enabled, LetsGo, Reachable, Names;
    if IsOrphan(s, c) {
      assert !Names(s, w, c);
    }
  }

  lemma NewOrphansAreAbandoned(s: State, step: Step, w: WorkerId, spawn: Spawn, c: ProcessId)
    requires Accounted(s) && Enabled(s, step) && HoldsMove(s, step) && Reachable(s, w) && Replaces(s, step, w, spawn)
    ensures IsOrphan(Next(s, step), c) && !IsOrphan(s, c) ==> HasAbandoned(s, step, c)
  {
    NamesAfterReplace(s, step, w, spawn);
    assert forall v: WorkerId, d: ProcessId :: Names(s, v, d) ==> v in s.workers;
    hide Next, Enabled, LetsGo, Reachable, Names;
    var s' := Next(s, step);
    if IsOrphan(s', c) && !IsOrphan(s, c) {
      if spawn.child == Some(c) {
        assert Names(s', w, c) && LetsGo(s, step, w);
      } else {
        var v: WorkerId :| Names(s, v, c) && Reachable(s, v);
        assert Names(s', v, c) && LetsGo(s, step, v);
      }
    }
  }

  lemma AbandonedAreOrphans(s: State, step: Step, c: ProcessId)
    requires Enabled(s, step) && Accounted(Next(s, step)) && HoldsMove(s, step)
    requires Next(s, step).workers.Keys == s.workers.Keys
    ensures HasAbandoned(s, step, c) ==> IsOrphan(Next(s, step), c)
  {
    var s' := Next(s, step);
    if HasAbandoned(s, step, c) {
      var v: WorkerId :| LetsGo(s, step, v) && Names(s', v, c);
      assert v in s.workers;
      hide Next, Enabled, LetsGo, Reachable, Names;
      assert forall u: WorkerId :: Names(s', u, c) ==> u == v;
    }
  }

  lemma Replaced(s: State, step: Step, w: WorkerId, spawn: Spawn, c: ProcessId)
    requires Accounted(s) && Enabled(s, step) && HoldsMove(s, step) && Reachable(s, w) && Replaces(s, step, w, spawn)
    ensures Accounted(Next(s, step)) && (IsOrphan(Next(s, step), c) <==> IsOrphan(s, c) || HasAbandoned(s, step, c))
  {
    assert Next(s, step).workers.Keys == s.workers.Keys;
    hide Accounted, Next, Enabled, IsOrphan, HasAbandoned, HoldsMove, Replaces;
    ReplacedAccounted(s, step, w, spawn);
    OrphansStayReplaced(s, step, w, spawn, c);
    NewOrphansAreAbandoned(s, step, w, spawn, c);
    AbandonedAreOrphans(s, step, c);
  }

  lemma ReloadStartAccounts(s: State, step: Step, c: ProcessId)
    requires Accounted(s) && Enabled(s, step) && step.ReloadStart?
    ensures Accounted(Next(s, step))
    ensures IsOrphan(Next(s, step), c) <==> IsOrphan(s, c) || Overwrites(s, step, c)
  {
    var s', w, spawn := Next(s, step), step.w, step.spawn;
    assert forall v: WorkerId :: Reachable(s', v) <==> Reachable(s, v) by {
      assert forall v: WorkerId, h: HandlerId :: Holds(s', h, v) <==> Holds(s, h, v);
    }
    assert forall v: WorkerId, d: ProcessId :: v != w ==> (Names(s', v, d) <==> Names(s, v, d));
    assert forall d: ProcessId ::
        Names(s', w, d) <==> if spawn.child == None then Names(s, w, d) else spawn.child == Some(d);
    assert Reachable(s, w);
    hide Next, Enabled, Reachable;
    if IsOrphan(s, c) {
      assert !Names(s, w, c);
      assert forall v: WorkerId :: Names(s', v, c) ==> !Reachable(s', v);
    }
    if IsOrphan(s', c) && !Overwrites(s, step, c) {
      assert c in s.running;
      assert forall v: WorkerId :: Names(s, v, c) ==> !Reachable(s, v);
    }
  }

  lemma ExitAccounts(s: State, d: ProcessId, c: ProcessId)
    requires Accounted(s) && Enabled(s, Exit(d))
    ensures Accounted(Next(s, Exit(d))) && (IsOrphan(Next(s, Exit(d)), c) <==> IsOrphan(s, c) && c != d)
  {
    var s' := Next(s, Exit(d));
    assert forall w: WorkerId, e: ProcessId :: Names(s', w, e) <==> Names(s, w, e);
    assert forall w: WorkerId :: Reachable(s', w) <==> Reachable(s, w) by {
      assert forall w: WorkerId, h: HandlerId :: Holds(s', h, w) <==> Holds(s, h, w);
    }
    hide Reachable;
  }

  lemma SectionsOnProcess(w: WorkerState, health: Health, spawn: Spawn, proc: Option<ProcMemory>,
                          memory: u64, peak: u64)
    ensures EnsuredRunning(w, health, spawn.child, spawn.memory).process
            == if IsRunning(w, health) then w.process else spawn.child
    ensures Recycled(w, spawn.child, spawn.memory).process == if w.draining then w.process else spawn.child
    ensures Refreshed(w, proc).process == w.process && Refreshed(w, proc).draining == w.draining
    ensures Updated(w, memory, peak, proc).process == w.process && Stopped(w).process == None
    ensures IsRunning(Less(w), health) == IsRunning(w, health)
  {
  }

  lemma RestartStep(s: State, step: Step) returns (spawn: Spawn)
    requires Enabled(s, step) && Restarts(s, step)
    ensures || step.Ensure? || step.Break? || step.TimeOut? || step.Recycle? || step.Visit? || step.Evict?
            || step.ReloadStop?
    ensures spawn == if step.ReloadStop? then NO_SPAWN else step.spawn
    ensures OnlyWorker(s, Next(s, step), step.w) && Fresh(s, spawn)
    ensures Next(s, step).workers[step.w].process == spawn.child
    ensures Next(s, step).running == s.running - ChildOf(s.workers[step.w]) + ChildOfSpawn(spawn)
    ensures Next(s, step).spawned == s.spawned + ChildOfSpawn(spawn)
  {
    hide EnsuredRunning, Recycled, Updated, Refreshed, Started, Stopped, ShouldRestart, IsRunning;
    spawn := if step.ReloadStop? then NO_SPAWN else step.spawn;
    var health := if step.Ensure? || step.Break? then step.health else Alive;
    var proc := if step.Visit? then step.proc else None;
    var w := s.workers[step.w];
    SectionsOnProcess(w, health, spawn, proc, 0, 0);
    SectionsOnProcess(Less(w), health, spawn, proc, 0, 0);
    SectionsOnProcess(Refreshed(w, proc), health, spawn, proc, 0, 0);
  }

  lemma QuietSection(s: State, step: Step)
    requires Enabled(s, step) && !Restarts(s, step) && (OfHandler(step) || step.Visit? || step.Evict?)
    ensures var s' := Next(s, step);
            && s'.running == s.running && s'.spawned == s.spawned && OnlyWorker(s, s', step.w)
            && s'.workers[step.w].process == s.workers[step.w].process
  {
    hide EnsuredRunning, Recycled, Updated, Refreshed, Started, Stopped, ShouldRestart, IsRunning;
    var health := if step.Ensure? || step.Break? then step.health else Alive;
    var spawn := if step.Ensure? || step.Break? || step.TimeOut? || step.Recycle? || step.Visit? || step.Evict?
                 then step.spawn else NO_SPAWN;
    var proc := if step.Visit? || step.Reply? then step.proc else None;
    var memory, peak := if step.Reply? then step.memory else 0, if step.Reply? then step.peak else 0;
    var w := s.workers[step.w];
    assert s.workers[step.w := w] == s.workers;
    SectionsOnProcess(w, health, spawn, proc, memory, peak);
    SectionsOnProcess(Less(w), health, spawn, proc, memory, peak);
    SectionsOnProcess(Refreshed(w, proc), health, spawn, proc, memory, peak);
  }

  lemma QuietStep(s: State, step: Step)
    requires Enabled(s, step) && !Restarts(s, step) && !step.ReloadStart? && !step.Exit?
    ensures Next(s, step).running == s.running && Next(s, step).spawned == s.spawned
    ensures forall w: WorkerId, d: ProcessId :: Names(Next(s, step), w, d) <==> Names(s, w, d)
  {
    if OfHandler(step) || step.Visit? || step.Evict? {
      hide Next, Enabled, Restarts;
      QuietSection(s, step);
    }
  }

  lemma AbandonedAsTold(s: State, step: Step, c: ProcessId)
    requires Enabled(s, step)
    ensures Abandons(s, step, c) <==> HasAbandoned(s, step, c)
  {
    hide Next, Enabled, KeptByOthers, IsLast, Restarts;
    if step.ReloadStart? || step.Exit? {
      assert forall w: WorkerId :: !LetsGo(s, step, w);
    } else if Restarts(s, step) {
      var spawn := RestartStep(s, step);
      assert forall w: WorkerId :: LetsGo(s, step, w) ==> OfHandler(step) && step.w == w;
    } else {
      QuietStep(s, step);
    }
  }

  /**
   A process is left behind by exactly two kinds of steps, both to be told beforehand: the start of a reload on a
   worker whose process is running, and the end of the last hold on a worker whose process will be running then.
   Left behind it stays until it exits by itself: no step stops it.
   */
  lemma OrphansArise(s: State, step: Step, c: ProcessId)
    requires Accounted(s) && Enabled(s, step)
    ensures Accounted(Next(s, step))
    ensures IsOrphan(Next(s, step), c) <==> (IsOrphan(s, c) && step != Exit(c)) || Forgets(s, step, c)
  {
    hide Accounted, IsOrphan, Next, Enabled, LetsGo, Restarts, Abandons, HasAbandoned, Overwrites;
    AbandonedAsTold(s, step, c);
    if step.ReloadStart? {
      NothingAbandoned(s, step, c);
      ReloadStartAccounts(s, step, c);
    } else if step.Exit? {
      NothingAbandoned(s, step, c);
      ExitAccounts(s, step.c, c);
    } else {
      forall w: WorkerId | w in s.workers
        ensures Reachable(Next(s, step), w) <==> Reachable(s, w) && !LetsGo(s, step, w)
      {
        WorkersLost(s, step, w);
      }
      assert !Overwrites(s, step, c) by { OnlyStartsOverwrite(s, step, c); }
      if Restarts(s, step) {
        var spawn := RestartStep(s, step);
        ActsOnReachable(s, step);
        Replaced(s, step, step.w, spawn, c);
      } else {
        QuietStep(s, step);
        Unreplaced(s, step, c);
      }
    }
  }

  lemma NothingAbandoned(s: State, step: Step, c: ProcessId)
    requires Enabled(s, step) && (step.ReloadStart? || step.Exit?)
    ensures !Abandons(s, step, c) && (step.Exit? ==> !Overwrites(s, step, c))
  {
    assert forall w: WorkerId :: !LetsGo(s, step, w);
  }

  lemma OnlyStartsOverwrite(s: State, step: Step, c: ProcessId)
    requires !step.ReloadStart?
    ensures !Overwrites(s, step, c)
  {
  }

  // ----- Over whole runs -----

  /** Some step of the run leaves process c behind, and c does not exit after that. */
  ghost predicate ForgottenIn(s: State, steps: seq<Step>, c: ProcessId)
    requires Runs(s, steps)
    decreases |steps|
  {
    steps != [] &&
    ((Forgets(s, steps[0], c) && Exit(c) !in steps[1..]) || ForgottenIn(Next(s, steps[0]), steps[1..], c))
  }

  lemma {:induction false} OrphansOfRun(s: State, steps: seq<Step>, c: ProcessId)
    requires Accounted(s) && Runs(s, steps)
    ensures Accounted(After(s, steps))
    ensures IsOrphan(After(s, steps), c) <==> (IsOrphan(s, c) && Exit(c) !in steps) || ForgottenIn(s, steps, c)
    decreases |steps|
  {
    hide Accounted, IsOrphan, Next, Forgets, Enabled;
    if steps != [] {
      OrphansArise(s, steps[0], c);
      OrphansOfRun(Next(s, steps[0]), steps[1..], c);
      assert steps == [steps[0]] + steps[1..];
    }
  }

  /** After every run the orphans are exactly the processes that a step left behind and that have not exited since. */
  lemma OrphansExactly(steps: seq<Step>, c: ProcessId)
    requires Runs(INIT, steps)
    ensures IsOrphan(After(INIT, steps), c) <==> ForgottenIn(INIT, steps, c)
  {
    OrphansOfRun(INIT, steps, c);
  }

  /** No step of the run leaves a process behind. */
  ghost predicate Clean(s: State, steps: seq<Step>)
    requires Runs(s, steps)
    decreases |steps|
  {
    steps != [] ==> (forall c: ProcessId :: !Forgets(s, steps[0], c)) && Clean(Next(s, steps[0]), steps[1..])
  }

  /** At no moment of the run is a process left behind. */
  ghost predicate NeverOrphans(s: State, steps: seq<Step>)
    requires Runs(s, steps)
    decreases |steps|
  {
    NoOrphans(s) && (steps != [] ==> NeverOrphans(Next(s, steps[0]), steps[1..]))
  }

  lemma {:induction false} CleanRuns(s: State, steps: seq<Step>)
    requires Accounted(s) && Runs(s, steps) && NoOrphans(s)
    ensures Clean(s, steps) <==> NeverOrphans(s, steps)
    decreases |steps|
  {
    hide Accounted, IsOrphan, Next, Forgets, Enabled;
    if steps != [] {
      var s' := Next(s, steps[0]);
      forall c: ProcessId
        ensures Accounted(s') && (IsOrphan(s', c) <==> Forgets(s, steps[0], c))
      {
        OrphansArise(s, steps[0], c);
      }
      assert Accounted(s') by { OrphansArise(s, steps[0], 0); }
      if NoOrphans(s') {
        CleanRuns(s', steps[1..]);
      } else {
        var c: ProcessId :| IsOrphan(s', c);
        assert Forgets(s, steps[0], c);
      }
    }
  }

  /** A run never leaves a process behind exactly when none of its steps does what Forgets describes. */
  lemma NoOrphansExactly(steps: seq<Step>)
    requires Runs(INIT, steps)
    ensures Clean(INIT, steps) <==> NeverOrphans(INIT, steps)
  {
    CleanRuns(INIT, steps);
  }

  // ----- It happens -----

  function Running(c: ProcessId): WorkerState {
    NEW_WORKER.(process := Some(c), pid := Some(c))
  }

  function Start(w: WorkerId, c: ProcessId): Step {
    ReloadStart(w, Spawn(Some(c), None))
  }

  lemma Then(s: State, a: seq<Step>, t: State, step: Step, u: State)
    requires Runs(s, a) && After(s, a) == t && Enabled(t, step) && Next(t, step) == u
    ensures Runs(s, a + [step]) && After(s, a + [step]) == u
  {
    hide Next, Enabled, Runs, After;
    OneStep(t, step);
    RunsAppend(s, a, [step]);
  }

  /** A request has chosen the only worker of a pool, and a reload has just stopped that worker. */
  const RELOAD_BEGUN: seq<Step> := [Resize({}, {0})] + [Start(0, 1)] + [Arrive(0, 0)] + [ReloadStop(0)]

  function Begun(w: WorkerState, phase: Phase, spawned: set<ProcessId>, running: set<ProcessId>): State {
    State(map[0 := w], {0}, {}, map[0 := phase], spawned, running)
  }

  function Alone(w: WorkerState, handlers: map<HandlerId, Phase>, spawned: set<ProcessId>): State {
    State(map[0 := w], {0}, {}, handlers, spawned, spawned)
  }

  lemma NewWorker()
    ensures Enabled(INIT, Resize({}, {0})) && Next(INIT, Resize({}, {0})) == Alone(NEW_WORKER, map[], {})
  {
  }

  lemma NewWorkerStarts()
    ensures var s := Alone(NEW_WORKER, map[], {});
            Enabled(s, Start(0, 1)) && Next(s, Start(0, 1)) == Alone(Running(1), map[], {1})
  {
  }

  lemma RequestArrives()
    ensures var s := Alone(Running(1), map[], {1});
            Enabled(s, Arrive(0, 0)) && Next(s, Arrive(0, 0)) == Begun(Running(1), Chosen(0), {1}, {1})
  {
  }

  lemma ReloadStops()
    ensures var s := Begun(Running(1), Chosen(0), {1}, {1});
            Enabled(s, ReloadStop(0)) && Next(s, ReloadStop(0)) == Begun(NEW_WORKER, Chosen(0), {1}, {})
  {
  }

  lemma ReloadBegins()
    ensures Runs(INIT, RELOAD_BEGUN) && After(INIT, RELOAD_BEGUN) == Begun(NEW_WORKER, Chosen(0), {1}, {})
  {
    hide Runs, After, Next, Enabled, Alone, Begun, Running;
    var s1, s2 := Alone(NEW_WORKER, map[], {}), Alone(Running(1), map[], {1});
    var s3 := Begun(Running(1), Chosen(0), {1}, {1});
    NewWorker();
    NewWorkerStarts();
    RequestArrives();
    ReloadStops();
    OneStep(INIT, Resize({}, {0}));
    Then(INIT, [Resize({}, {0})], s1, Start(0, 1), s2);
    Then(INIT, [Resize({}, {0})] + [Start(0, 1)], s2, Arrive(0, 0), s3);
    Then(INIT, [Resize({}, {0})] + [Start(0, 1)] + [Arrive(0, 0)], s3, ReloadStop(0),
         Begun(NEW_WORKER, Chosen(0), {1}, {}));
  }

  lemma RequestRestarts()
    ensures var s, ensure := Begun(NEW_WORKER, Chosen(0), {1}, {}), Ensure(0, 0, Alive, Spawn(Some(2), None));
            Enabled(s, ensure) && Next(s, ensure) == Begun(Running(2), Ready(0), {1, 2}, {2})
  {
  }

  lemma ReloadForgets()
    ensures var s, s' := Begun(Running(2), Ready(0), {1, 2}, {2}), Begun(Running(3), Ready(0), {1, 2, 3}, {2, 3});
            Enabled(s, Start(0, 3)) && Next(s, Start(0, 3)) == s' && IsOrphan(s', 2)
  {
  }

  /** The request restarts the worker between the reload's stop and its start, which forgets process 2. */
  lemma ReloadCanForget()
    ensures var steps := RELOAD_BEGUN + [Ensure(0, 0, Alive, Spawn(Some(2), None))] + [Start(0, 3)];
            Runs(INIT, steps) && IsOrphan(After(INIT, steps), 2)
  {
    hide Runs, After;
    var ensure := Ensure(0, 0, Alive, Spawn(Some(2), None));
    var s0, s1 := Begun(NEW_WORKER, Chosen(0), {1}, {}), Begun(Running(2), Ready(0), {1, 2}, {2});
    var s2 := Begun(Running(3), Ready(0), {1, 2, 3}, {2, 3});
    RequestRestarts();
    ReloadForgets();
    hide Next, Enabled, IsOrphan, Begun, Running;
    ReloadBegins();
    Then(INIT, RELOAD_BEGUN, s0, ensure, s1);
    Then(INIT, RELOAD_BEGUN + [ensure], s1, Start(0, 3), s2);
  }

  /** The reload makes the pool one of two new workers; the old one is left to the request. */
  function Retired(w: WorkerState, phase: Phase, spawned: set<ProcessId>, running: set<ProcessId>): State {
    State(map[0 := w, 1 := NEW_WORKER, 2 := NEW_WORKER], {1, 2}, {}, map[0 := phase], spawned, running)
  }

  const PLAIN: Config := Config(false, 128, 80, 1000)

  /**
   A request that has chosen its worker before a reload changes the number of workers starts process 2 on the
   retired worker, is answered by it, and leaves it behind.
   */
  lemma RetiredWorkerKeepsProcess()
    ensures var steps := RELOAD_BEGUN + [Resize({0}, {1, 2})] + [Ensure(0, 0, Alive, Spawn(Some(2), None))]
                         + [Begin(0, 0)] + [Reply(0, 0, 0, 0, None, PLAIN)];
            Runs(INIT, steps) && IsOrphan(After(INIT, steps), 2)
  {
    hide Runs, After;
    var resize, ensure := Resize({0}, {1, 2}), Ensure(0, 0, Alive, Spawn(Some(2), None));
    var reply := Reply(0, 0, 0, 0, None, PLAIN);
    var s0 := Begun(NEW_WORKER, Chosen(0), {1}, {});
    var s1 := Retired(NEW_WORKER, Chosen(0), {1}, {});
    var s2 := Retired(Running(2), Ready(0), {1, 2}, {2});
    var s3 := Retired(Running(2).(activeRequests := 1), InFlight(0), {1, 2}, {2});
    var s4 := Retired(Running(2).(requestsHandled := 1), Finished, {1, 2}, {2});
    RetiresWorker();
    RetiredRequestStarts();
    RetiredRequestBegins();
    RetiredRequestEnds();
    hide Next, Enabled, IsOrphan, Begun, Retired, Running;
    ReloadBegins();
    Then(INIT, RELOAD_BEGUN, s0, resize, s1);
    Then(INIT, RELOAD_BEGUN + [resize], s1, ensure, s2);
    Then(INIT, RELOAD_BEGUN + [resize] + [ensure], s2, Begin(0, 0), s3);
    Then(INIT, RELOAD_BEGUN + [resize] + [ensure] + [Begin(0, 0)], s3, reply, s4);
  }

  lemma RetiresWorker()
    ensures var s, resize := Begun(NEW_WORKER, Chosen(0), {1}, {}), Resize({0}, {1, 2});
            Enabled(s, resize) && Next(s, resize) == Retired(NEW_WORKER, Chosen(0), {1}, {})
    ensures IsOrphan(Retired(Running(2).(requestsHandled := 1), Finished, {1, 2}, {2}), 2)
  {
  }

  lemma RetiredRequestStarts()
    ensures var s, ensure := Retired(NEW_WORKER, Chosen(0), {1}, {}), Ensure(0, 0, Alive, Spawn(Some(2), None));
            Enabled(s, ensure) && Next(s, ensure) == Retired(Running(2), Ready(0), {1, 2}, {2})
  {
  }

  lemma RetiredRequestBegins()
    ensures var s := Retired(Running(2), Ready(0), {1, 2}, {2});
            Enabled(s, Begin(0, 0)) &&
            Next(s, Begin(0, 0)) == Retired(Running(2).(activeRequests := 1), InFlight(0), {1, 2}, {2})
  {
  }

  lemma RetiredRequestEnds()
    ensures var s := Retired(Running(2).(activeRequests := 1), InFlight(0), {1, 2}, {2});
            var reply := Reply(0, 0, 0, 0, None, PLAIN);
            Enabled(s, reply) &&
            Next(s, reply) == Retired(Running(2).(requestsHandled := 1), Finished, {1, 2}, {2})
  {
  }

  function Pair(w: WorkerState, pool: set<WorkerId>, running: set<ProcessId>): State {
    State(map[0 := w, 1 := NEW_WORKER], pool, {}, map[], running, running)
  }

  lemma NewPair()
    ensures Enabled(INIT, Resize({}, {0, 1})) && Next(INIT, Resize({}, {0, 1})) == Pair(NEW_WORKER, {0, 1}, {})
  {
  }

  lemma OneOfPairStarts()
    ensures var s := Pair(NEW_WORKER, {0, 1}, {});
            Enabled(s, Start(0, 1)) && Next(s, Start(0, 1)) == Pair(Running(1), {0, 1}, {1})
  {
  }

  lemma OtherOfPairFails()
    ensures var s := Pair(Running(1), {0, 1}, {1});
            && Enabled(s, ReloadStart(1, NO_SPAWN)) && Next(s, ReloadStart(1, NO_SPAWN)) == s
            && Enabled(s, DropPool({0, 1})) && Next(s, DropPool({0, 1})) == Pair(Running(1), {}, {1})
  {
  }

  /** A pool of two is dropped because its second worker does not start; process 1 of the first is left behind. */
  lemma DroppedPoolKeepsProcess()
    ensures var steps := [Resize({}, {0, 1})] + [Start(0, 1)] + [ReloadStart(1, NO_SPAWN)] + [DropPool({0, 1})];
            Runs(INIT, steps) && IsOrphan(After(INIT, steps), 1)
  {
    hide Runs, After;
    var s1, s2, s3 := Pair(NEW_WORKER, {0, 1}, {}), Pair(Running(1), {0, 1}, {1}), Pair(Running(1), {}, {1});
    NewPair();
    OneOfPairStarts();
    OtherOfPairFails();
    assert IsOrphan(s3, 1);
    hide Next, Enabled, IsOrphan, Pair;
    OneStep(INIT, Resize({}, {0, 1}));
    Then(INIT, [Resize({}, {0, 1})], s1, Start(0, 1), s2);
    Then(INIT, [Resize({}, {0, 1})] + [Start(0, 1)], s2, ReloadStart(1, NO_SPAWN), s2);
    Then(INIT, [Resize({}, {0, 1})] + [Start(0, 1)] + [ReloadStart(1, NO_SPAWN)], s2, DropPool({0, 1}), s3);
  }
}
