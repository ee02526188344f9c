/**
 Request handlers (handlers.rs), the memory monitor (anti_oom.rs) and reload (worker_pool.rs), interleaved. A
 step is one critical section under a worker's mutex. No handler is cancelled between two of its sections.
 */
module WorkerLifecycle {
  import opened Bytes
  import opened Worker
  import opened Wrappers

  type WorkerId = nat
  type HandlerId = nat

  /** Where a handler stands between its critical sections, and on which worker object. */
  datatype Phase =
    | Chosen(w: WorkerId)
    | Ready(w: WorkerId)
    | InFlight(w: WorkerId)
    | Reasoned(w: WorkerId)
    | Finished

  /**
   All worker objects ever made; those in the pools; those in a list the monitor has taken and not yet let go;
   the handlers, each of which holds its worker until it has finished; the processes ever spawned, and those of
   them that have neither been stopped nor exited.
   */
  datatype State = State(workers: map<WorkerId, WorkerState>, pool: set<WorkerId>, held: set<WorkerId>,
                         handlers: map<HandlerId, Phase>, spawned: set<ProcessId>, running: set<ProcessId>)

  const INIT: State := State(map[], {}, {}, map[], {}, {})

  /** What spawning gave, if it came to that, and the /proc reading after it. */
  datatype Spawn = Spawn(child: Option<ProcessId>, memory: Option<ProcMemory>)

  const NO_SPAWN: Spawn := Spawn(None, None)

  /**
   The sections of a handler on its worker (handlers.rs): making sure it runs, giving up on the body, marking
   the request in flight, and the three outcomes of the exchange; acting on a restart reason is a section of
   its own. Then the monitor, which takes a pool's list, visits, perhaps evicts, and lets go; and reload, which
   stops, perhaps puts new workers in place of the retired ones, and starts. A new pool is Resize({}, ids), and
   DropPool is what becomes of it when one of its workers fails to start or another pool takes its name. A process
   may exit at any time.
   */
  datatype Step =
    | Arrive(h: HandlerId, w: WorkerId)
    | Ensure(h: HandlerId, w: WorkerId, health: Health, spawn: Spawn)
    | GiveUp(h: HandlerId, w: WorkerId)
    | Begin(h: HandlerId, w: WorkerId)
    | Reply(h: HandlerId, w: WorkerId, memory: u64, peak: u64, proc: Option<ProcMemory>, config: Config)
    | Break(h: HandlerId, w: WorkerId, health: Health, spawn: Spawn)
    | TimeOut(h: HandlerId, w: WorkerId, spawn: Spawn)
    | Recycle(h: HandlerId, w: WorkerId, spawn: Spawn)
    | Take(ids: set<WorkerId>)
    | Visit(w: WorkerId, proc: Option<ProcMemory>, config: Config, spawn: Spawn)
    | Evict(w: WorkerId, spawn: Spawn)
    | Release(w: WorkerId)
    | ReloadStop(w: WorkerId)
    | ReloadStart(w: WorkerId, spawn: Spawn)
    | Resize(retired: set<WorkerId>, ids: set<WorkerId>)
    | DropPool(retired: set<WorkerId>)
    | Exit(c: ProcessId)

  predicate Fresh(s: State, spawn: Spawn) {
    spawn.child.Some? ==> spawn.child.value !in s.spawned
  }

  /** Handler h stands at phase, on a worker that exists. */
  predicate At(s: State, h: HandlerId, phase: Phase) {
    h in s.handlers && s.handlers[h] == phase && (phase == Finished || phase.w in s.workers)
  }

  /** Waiting on the child does not lie about it. */
  predicate Observed(s: State, w: WorkerId, health: Health)
    requires w in s.workers
  {
    s.workers[w].process.Some? ==>
      && (health == Alive ==> s.workers[w].process.value in s.running)
      && (health == Exited ==> s.workers[w].process.value !in s.running)
  }

  predicate Enabled(s: State, step: Step) {
    match step
    case Arrive(h, w) => h !in s.handlers && w in s.pool && w in s.workers
    case Ensure(h, w, health, spawn) => At(s, h, Chosen(w)) && Observed(s, w, health) && Fresh(s, spawn)
    case GiveUp(h, w) => At(s, h, Ready(w))
    case Begin(h, w) => At(s, h, Ready(w))
    case Reply(h, w, _, _, _, _) => At(s, h, InFlight(w))
    case Break(h, w, health, spawn) => At(s, h, InFlight(w)) && Observed(s, w, health) && Fresh(s, spawn)
    case TimeOut(h, w, spawn) => At(s, h, InFlight(w)) && Fresh(s, spawn)
    case Recycle(h, w, spawn) => At(s, h, Reasoned(w)) && Fresh(s, spawn)
    case Take(ids) => ids <= s.pool
    case Visit(w, _, _, spawn) => w in s.held && w in s.workers && Fresh(s, spawn)
    case Evict(w, spawn) => w in s.held && w in s.workers && Fresh(s, spawn)
    case Release(w) => w in s.held
    case ReloadStop(w) => w in s.pool && w in s.workers
    case ReloadStart(w, spawn) => w in s.pool && w in s.workers && Fresh(s, spawn)
    case Resize(retired, ids) => retired <= s.pool && ids !! s.workers.Keys
    case DropPool(retired) => retired <= s.pool
    case Exit(c) => c in s.running
  }

  /** saturating_sub(1). */
  function Less(w: WorkerState): WorkerState {
    w.(activeRequests := if w.activeRequests == 0 then 0 else w.activeRequests - 1)
  }

  function ChildOf(w: WorkerState): set<ProcessId> {
    if w.process.Some? then {w.process.value} else {}
  }

  function ChildOfSpawn(spawn: Spawn): set<ProcessId> {
    if spawn.child.Some? then {spawn.child.value} else {}
  }

  /** Worker w becomes w'; on the way some processes are stopped and perhaps one is spawned. */
  function Put(s: State, w: WorkerId, w': WorkerState, stopped: set<ProcessId>, spawn: Spawn): State {
    s.(workers := s.workers[w := w'], spawned := s.spawned + ChildOfSpawn(spawn),
       running := s.running - stopped + ChildOfSpawn(spawn))
  }

  function Move(s: State, h: HandlerId, phase: Phase): State {
    s.(handlers := s.handlers[h := phase])
  }

  function AfterEnsure(s: State, w: WorkerId, before: WorkerState, health: Health, spawn: Spawn): State {
    var w' := EnsuredRunning(before, health, spawn.child, spawn.memory);
    if IsRunning(before, health) then Put(s, w, w', {}, NO_SPAWN) else Put(s, w, w', ChildOf(before), spawn)
  }

  function AfterRecycle(s: State, w: WorkerId, before: WorkerState, spawn: Spawn): State {
    var w' := Recycled(before, spawn.child, spawn.memory);
    if before.draining then Put(s, w, w', {}, NO_SPAWN) else Put(s, w, w', ChildOf(before), spawn)
  }

  function Next(s: State, step: Step): State
    requires Enabled(s, step)
  {
    match step
    case Arrive(h, w) => Move(s, h, Chosen(w))
    case Ensure(h, w, health, spawn) =>
      var ok := IsRunning(s.workers[w], health) || spawn.child.Some?;
      Move(AfterEnsure(s, w, s.workers[w], health, spawn), h, if ok then Ready(w) else Finished)
    case GiveUp(h, _) => Move(s, h, Finished)
    case Begin(h, w) =>
      var before := s.workers[w];
      Move(Put(s, w, before.(activeRequests := before.activeRequests + 1), {}, NO_SPAWN), h, InFlight(w))
    case Reply(h, w, memory, peak, proc, config) =>
      var w' := Updated(Less(s.workers[w]), memory, peak, proc);
      Move(Put(s, w, w', {}, NO_SPAWN), h, if ShouldRestart(w', config) then Reasoned(w) else Finished)
    case Break(h, w, health, spawn) => Move(AfterEnsure(s, w, Less(s.workers[w]), health, spawn), h, Finished)
    case TimeOut(h, w, spawn) => Move(AfterRecycle(s, w, Less(s.workers[w]), spawn), h, Finished)
    case Recycle(h, w, spawn) => Move(AfterRecycle(s, w, s.workers[w], spawn), h, Finished)
    case Take(ids) => s.(held := s.held + ids)
    case Visit(w, proc, config, spawn) =>
      var seen := Refreshed(s.workers[w], proc);
      if ShouldRestart(seen, config) then AfterRecycle(s, w, seen, spawn) else Put(s, w, seen, {}, NO_SPAWN)
    case Evict(w, spawn) => AfterRecycle(s, w, s.workers[w], spawn)
    case Release(w) => s.(held := s.held - {w})
    case ReloadStop(w) => Put(s, w, Stopped(s.workers[w]), ChildOf(s.workers[w]), NO_SPAWN)
    case ReloadStart(w, spawn) => Put(s, w, Started(s.workers[w], spawn.child, spawn.memory), {}, spawn)
    case Resize(retired, ids) =>
      s.(workers := s.workers + (map w | w in ids :: NEW_WORKER), pool := s.pool - retired + ids)
    case DropPool(retired) => s.(pool := s.pool - retired)
    case Exit(c) => s.(running := s.running - {c})
  }

  predicate Runs(s: State, steps: seq<Step>)
    decreases |steps|
  {
    steps != [] ==> Enabled(s, steps[0]) && Runs(Next(s, steps[0]), steps[1..])
  }

  function After(s: State, steps: seq<Step>): State
    requires Runs(s, steps)
    decreases |steps|
  {
    if steps == [] then s else After(Next(s, steps[0]), steps[1..])
  }

  lemma {:induction false} RunsAppend(s: State, a: seq<Step>, b: seq<Step>)
    requires Runs(s, a) && Runs(After(s, a), b)
    ensures Runs(s, a + b) && After(s, a + b) == After(After(s, a), b)
    decreases |a|
  {
    hide Next, Enabled;
    if a == [] {
      assert a + b == b;
    } else {
      assert (a + b)[1..] == a[1..] + b;
      RunsAppend(Next(s, a[0]), a[1..], b);
    }
  }

  lemma OneStep(s: State, step: Step)
    requires Enabled(s, step)
    ensures Runs(s, [step]) && After(s, [step]) == Next(s, step)
  {
    hide Next, Enabled;
    assert [step][1..] == [];
    assert Runs(Next(s, step), []);
  }

  // ----- Counting handlers -----

  function Holders(handlers: map<HandlerId, Phase>, phase: Phase): set<HandlerId> {
    set h | h in handlers && handlers[h] == phase
  }

  function Count(handlers: map<HandlerId, Phase>, phase: Phase): nat {
    |Holders(handlers, phase)|
  }

  /** 1 if handler h stands at the phase, else 0. */
  function Stands(handlers: map<HandlerId, Phase>, h: HandlerId, phase: Phase): nat {
    if h in handlers && handlers[h] == phase then 1 else 0
  }

  lemma CountAfterMove(handlers: map<HandlerId, Phase>, h: HandlerId, phase: Phase, target: Phase)
    ensures Count(handlers[h := phase], target)
            == Count(handlers, target) - Stands(handlers, h, target) + (if phase == target then 1 else 0)
  {
    CountOthers(handlers, h, target);
    HoldersAfterMove(handlers, h, phase, target);
    hide Holders;
  }

  lemma HoldersAfterMove(handlers: map<HandlerId, Phase>, h: HandlerId, phase: Phase, target: Phase)
    ensures Holders(handlers[h := phase], target)
            == Holders(handlers, target) - {h} + (if phase == target then {h} else {})
  {
  }

  lemma CountOthers(handlers: map<HandlerId, Phase>, h: HandlerId, target: Phase)
    ensures |Holders(handlers, target) - {h}| == Count(handlers, target) - Stands(handlers, h, target)
  {
    if h in Holders(handlers, target) {
      assert Holders(handlers, target) == (Holders(handlers, target) - {h}) + {h};
    } else {
      assert Holders(handlers, target) - {h} == Holders(handlers, target);
    }
  }

  lemma StandsMeansCounted(handlers: map<HandlerId, Phase>, h: HandlerId, phase: Phase)
    ensures Stands(handlers, h, phase) <= Count(handlers, phase)
  {
    if Stands(handlers, h, phase) == 1 {
      assert h in Holders(handlers, phase);
    }
  }

  // ----- In-flight requests and lock release -----

  predicate WorkerFits(s: State, w: WorkerId)
    requires w in s.workers
  {
    Released(s.workers[w]) && s.workers[w].activeRequests == Count(s.handlers, InFlight(w))
  }

  predicate Known(s: State, phase: Phase) {
    phase == Finished || phase.w in s.workers
  }

  predicate Inv(s: State) {
    && (forall h :: h in s.handlers ==> Known(s, s.handlers[h]))
    && s.pool <= s.workers.Keys && s.held <= s.workers.Keys
    && (forall w :: w in s.workers ==> WorkerFits(s, w))
  }

  /** A section on worker w: no other worker, no pool and no list of the monitor changes. */
  predicate OnlyWorker(s: State, s': State, w: WorkerId) {
    && w in s.workers && w in s'.workers && s'.workers == s.workers[w := s'.workers[w]]
    && s'.pool == s.pool && s'.held == s.held
  }

  lemma SectionKeepsInv(s: State, s': State, w: WorkerId)
    requires Inv(s) && OnlyWorker(s, s', w) && s'.handlers == s.handlers
    requires Released(s'.workers[w]) && s'.workers[w].activeRequests == s.workers[w].activeRequests
    ensures Inv(s')
  {
    hide Count, Released;
    assert WorkerFits(s, w);
  }

  /** A handler that changes its worker's count changes its own phase in the same section. */
  lemma MoveKeepsInv(s: State, s': State, w: WorkerId, h: HandlerId, phase: Phase)
    requires Inv(s) && OnlyWorker(s, s', w) && s'.handlers == s.handlers[h := phase]
    requires Released(s'.workers[w]) && (phase == Finished || phase.w == w)
    requires h in s.handlers && s.handlers[h] != Finished ==> s.handlers[h].w == w
    requires s'.workers[w].activeRequests == s.workers[w].activeRequests - Stands(s.handlers, h, InFlight(w))
                                             + (if phase == InFlight(w) then 1 else 0)
    ensures Inv(s')
  {
    hide Count, Released;
    forall v | v in s'.workers
      ensures WorkerFits(s', v)
    {
      assert WorkerFits(s, v);
      CountAfterMove(s.handlers, h, phase, InFlight(v));
    }
  }

  lemma PhaseStepKeepsInv(s: State, step: Step)
    requires Inv(s) && Enabled(s, step) && (step.Arrive? || step.GiveUp?)
    ensures Inv(Next(s, step))
  {
    hide Count, Released;
    assert s.workers[step.w := s.workers[step.w]] == s.workers;
    assert WorkerFits(s, step.w);
    MoveKeepsInv(s, Next(s, step), step.w, step.h, if step.Arrive? then Chosen(step.w) else Finished);
  }

  lemma NobodyOnUnknown(s: State, w: WorkerId)
    requires Inv(s) && w !in s.workers
    ensures Count(s.handlers, InFlight(w)) == 0
  {
    assert forall h :: h in s.handlers ==> Known(s, s.handlers[h]);
    assert Holders(s.handlers, InFlight(w)) == {};
  }

  lemma ResizeKeepsInv(s: State, retired: set<WorkerId>, ids: set<WorkerId>)
    requires Inv(s) && Enabled(s, Resize(retired, ids))
    ensures Inv(Next(s, Resize(retired, ids)))
  {
    hide Count;
    var s' := Next(s, Resize(retired, ids));
    forall w | w in s'.workers
      ensures WorkerFits(s', w)
    {
      if w in ids {
        NobodyOnUnknown(s, w);
      } else {
        assert WorkerFits(s, w);
      }
    }
  }

  /** A handler about to decrement is counted, so saturating_sub(1) takes exactly one. */
  lemma DecrementIsExact(s: State, h: HandlerId, w: WorkerId)
    requires Inv(s) && At(s, h, InFlight(w))
    ensures Less(s.workers[w]).activeRequests == s.workers[w].activeRequests - 1
  {
    hide Count;
    assert WorkerFits(s, w);
    StandsMeansCounted(s.handlers, h, InFlight(w));
  }

  lemma InvAt(s: State, w: WorkerId)
    requires Inv(s) && w in s.workers
    ensures WorkerFits(s, w)
  {
  }

  lemma HandlerKeepsInv(s: State, step: Step)
    requires Inv(s) && Enabled(s, step)
    requires step.Ensure? || step.Begin? || step.Reply? || step.Break? || step.TimeOut? || step.Recycle?
    ensures Inv(Next(s, step))
  {
    hide Inv, Count, Released, Recycled, EnsuredRunning, Updated, ShouldRestart, IsRunning, ChildOf, ChildOfSpawn;
    var w := step.w;
    assert WorkerFits(s, w) by { InvAt(s, w); }
    SectionsKeepReleased(s.workers[w], Alive, None, None, 0, 0);
    var before := s.workers[w];
    if step.Reply? || step.Break? || step.TimeOut? {
      DecrementIsExact(s, step.h, w);
      before := Less(before);
    }
    var health := if step.Ensure? || step.Break? then step.health else Alive;
    var spawn := if step.Begin? || step.Reply? then NO_SPAWN else step.spawn;
    SectionsKeepReleased(before, health, spawn.child, spawn.memory, 0, 0);
    if step.Reply? {
      SectionsKeepReleased(before, health, spawn.child, step.proc, step.memory, step.peak);
    }
    var s' := Next(s, step);
    MoveKeepsInv(s, s', w, step.h, s'.handlers[step.h]);
  }

  lemma OthersKeepInv(s: State, step: Step)
    requires Inv(s) && Enabled(s, step)
    requires step.Visit? || step.Evict? || step.ReloadStop? || step.ReloadStart?
    ensures Inv(Next(s, step))
  {
    hide Inv, Count, Released, Recycled, Refreshed, Started, Stopped, ShouldRestart, ChildOf, ChildOfSpawn;
    var w := step.w;
    assert WorkerFits(s, w) by { InvAt(s, w); }
    var spawn := if step.ReloadStop? then NO_SPAWN else step.spawn;
    var proc := if step.Visit? then step.proc else None;
    SectionsKeepReleased(s.workers[w], Alive, spawn.child, spawn.memory, 0, 0);
    SectionsKeepReleased(s.workers[w], Alive, None, proc, 0, 0);
    SectionsKeepReleased(Refreshed(s.workers[w], proc), Alive, spawn.child, spawn.memory, 0, 0);
    SectionKeepsInv(s, Next(s, step), w);
  }

  lemma BookkeepingKeepsInv(s: State, step: Step)
    requires Inv(s) && Enabled(s, step) && (step.Take? || step.Release? || step.DropPool? || step.Exit?)
    ensures Inv(Next(s, step))
  {
    hide Count, Released;
    var s' := Next(s, step);
    assert forall w :: w in s'.workers && WorkerFits(s, w) ==> WorkerFits(s', w);
  }

  lemma NextKeepsInv(s: State, step: Step)
    requires Inv(s) && Enabled(s, step)
    ensures Inv(Next(s, step))
  {
    hide Inv, Next;
    match step
    case Arrive(_, _) => PhaseStepKeepsInv(s, step);
    case GiveUp(_, _) => PhaseStepKeepsInv(s, step);
    case Resize(retired, ids) => ResizeKeepsInv(s, retired, ids);
    case Visit(_, _, _, _) => OthersKeepInv(s, step);
    case Evict(_, _) => OthersKeepInv(s, step);
    case ReloadStop(_) => OthersKeepInv(s, step);
    case ReloadStart(_, _) => OthersKeepInv(s, step);
    case Take(_) => BookkeepingKeepsInv(s, step);
    case Release(_) => BookkeepingKeepsInv(s, step);
    case DropPool(_) => BookkeepingKeepsInv(s, step);
    case Exit(_) => BookkeepingKeepsInv(s, step);
    case _ => HandlerKeepsInv(s, step);
  }

  lemma {:induction false} RunKeepsInv(s: State, steps: seq<Step>)
    requires Inv(s) && Runs(s, steps)
    ensures Inv(After(s, steps))
    decreases |steps|
  {
    hide Inv, Next;
    if steps != [] {
      NextKeepsInv(s, steps[0]);
      RunKeepsInv(Next(s, steps[0]), steps[1..]);
    }
  }

  /**
   In every interleaving, recycles and resizes included, a worker's in-flight count is the number of handlers
   between their increment and their decrement on it, and the worker is released: not draining, and without a
   process it has no pid and no memory figures.
   */
  lemma InFlightCountIsExact(steps: seq<Step>, w: WorkerId)
    requires Runs(INIT, steps) && w in After(INIT, steps).workers
    ensures var s := After(INIT, steps);
            s.workers[w].activeRequests == Count(s.handlers, InFlight(w)) && Released(s.workers[w])
  {
    RunKeepsInv(INIT, steps);
    InvAt(After(INIT, steps), w);
  }

  /** In every interleaving a decrement finds a positive count. */
  lemma DecrementNeverSaturates(steps: seq<Step>, h: HandlerId, w: WorkerId)
    requires Runs(INIT, steps) && At(After(INIT, steps), h, InFlight(w))
    ensures After(INIT, steps).workers[w].activeRequests >= 1
  {
    RunKeepsInv(INIT, steps);
    DecrementIsExact(After(INIT, steps), h, w);
  }

  /** When all handlers have finished, no worker counts a request in flight. */
  lemma CountsReturnToZero(steps: seq<Step>, w: WorkerId)
    requires Runs(INIT, steps) && w in After(INIT, steps).workers
    requires forall h :: h in After(INIT, steps).handlers ==> After(INIT, steps).handlers[h] == Finished
    ensures After(INIT, steps).workers[w].activeRequests == 0
  {
    InFlightCountIsExact(steps, w);
    assert Holders(After(INIT, steps).handlers, InFlight(w)) == {};
  }
}
