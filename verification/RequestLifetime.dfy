/**
 How many replies a PHP process gives before it is replaced, with the anti-OOM engine enabled. Only replies are
 counted: LifetimeIsReached.FailuresAreNotCounted gives runs in which a process takes any number of requests.
 */
module RequestLifetime {
  import opened Worker
  import opened WorkerLifecycle
  import opened Wrappers

  /** Every configuration a handler or the monitor acts with has the engine on and a limit of at most max. */
  predicate Limited(step: Step, max: nat) {
    step.Reply? || step.Visit? ==> step.config.antiOomEnabled && step.config.maxRequests <= max
  }

  predicate AllLimited(steps: seq<Step>, max: nat) {
    forall i :: 0 <= i < |steps| ==> Limited(steps[i], max)
  }

  /** The replies counted for a process are fewer than max, not counting the handlers yet to act on a reason. */
  predicate Young(s: State, w: WorkerId, max: nat)
    requires w in s.workers
  {
    s.workers[w].process.Some? ==> s.workers[w].requestsHandled < max + Count(s.handlers, Reasoned(w))
  }

  predicate AllYoung(s: State, max: nat) {
    forall w :: w in s.workers ==> Young(s, w, max)
  }

  /** What a section does to the life of the process: it goes on, or it ends and perhaps another begins. */
  lemma SectionsOnLife(w: WorkerState, health: Health, spawn: Spawn, proc: Option<ProcMemory>)
    requires Released(w)
    ensures var e := EnsuredRunning(w, health, spawn.child, spawn.memory);
            e.process.Some? ==> e.requestsHandled == 0 || (w.process.Some? && e.requestsHandled == w.requestsHandled)
    ensures var r := Recycled(w, spawn.child, spawn.memory); r.process.Some? ==> r.requestsHandled == 0
    ensures var f := Refreshed(w, proc);
            f.process == w.process && f.requestsHandled == w.requestsHandled && Released(f)
    ensures Stopped(w).process == None
    ensures var t := Started(w, spawn.child, spawn.memory);
            t.process.Some? ==> t.requestsHandled == 0 || (w.process.Some? && t.requestsHandled == w.requestsHandled)
  {
  }

  lemma MoveKeepsYoung(s: State, s': State, w: WorkerId, h: HandlerId, phase: Phase, max: nat)
    requires AllYoung(s, max) && OnlyWorker(s, s', w) && s'.handlers == s.handlers[h := phase]
    requires phase == Finished || phase.w == w
    requires h in s.handlers && s.handlers[h] != Finished ==> s.handlers[h].w == w
    requires s'.workers[w].process.Some? ==>
               s'.workers[w].requestsHandled < max + Count(s.handlers, Reasoned(w))
                                               - Stands(s.handlers, h, Reasoned(w))
                                               + (if phase == Reasoned(w) then 1 else 0)
    ensures AllYoung(s', max)
  {
    hide Count;
    forall v | v in s'.workers
      ensures Young(s', v, max)
    {
      CountAfterMove(s.handlers, h, phase, Reasoned(v));
      assert v != w ==> Young(s, v, max);
    }
  }

  lemma SectionKeepsYoung(s: State, s': State, w: WorkerId, max: nat)
    requires AllYoung(s, max) && OnlyWorker(s, s', w) && s'.handlers == s.handlers && max > 0
    requires s'.workers[w].process.Some? ==>
               s'.workers[w].requestsHandled == 0
               || (s.workers[w].process.Some? && s'.workers[w].requestsHandled == s.workers[w].requestsHandled)
    ensures AllYoung(s', max)
  {
    hide Count;
    assert Young(s, w, max);
  }

  lemma PhaseStepKeepsYoung(s: State, step: Step, max: nat)
    requires AllYoung(s, max) && Enabled(s, step) && (step.Arrive? || step.GiveUp?)
    ensures AllYoung(Next(s, step), max)
  {
    hide Count;
    assert s.workers[step.w := s.workers[step.w]] == s.workers;
    assert Young(s, step.w, max);
    MoveKeepsYoung(s, Next(s, step), step.w, step.h, if step.Arrive? then Chosen(step.w) else Finished, max);
  }

  lemma ReplyKeepsYoung(s: State, step: Step, max: nat)
    requires AllYoung(s, max) && Enabled(s, step) && Limited(step, max) && step.Reply?
    ensures AllYoung(Next(s, step), max)
  {
    hide Count, AllYoung;
    var w := step.w;
    assert Young(s, w, max) by { YoungAt(s, w, max); }
    MoveKeepsYoung(s, Next(s, step), w, step.h, Next(s, step).handlers[step.h], max);
  }

  lemma YoungAt(s: State, w: WorkerId, max: nat)
    requires AllYoung(s, max) && w in s.workers
    ensures Young(s, w, max)
  {
  }

  lemma HandlerKeepsYoung(s: State, step: Step, max: nat)
    requires Inv(s) && AllYoung(s, max) && Enabled(s, step) && max > 0
    requires step.Ensure? || step.Begin? || step.Break? || step.TimeOut? || step.Recycle?
    ensures AllYoung(Next(s, step), max)
  {
    hide Inv, AllYoung, Count, Released, Recycled, EnsuredRunning, IsRunning, ChildOf, ChildOfSpawn;
    var w := step.w;
    assert Young(s, w, max) by { YoungAt(s, w, max); }
    assert WorkerFits(s, w) by { InvAt(s, w); }
    SectionsKeepReleased(s.workers[w], Alive, None, None, 0, 0);
    StandsMeansCounted(s.handlers, step.h, Reasoned(w));
    var before := if step.Break? || step.TimeOut? then Less(s.workers[w]) else s.workers[w];
    var health := if step.Ensure? || step.Break? then step.health else Alive;
    var spawn := if step.Begin? then NO_SPAWN else step.spawn;
    SectionsOnLife(before, health, spawn, None);
    var s' := Next(s, step);
    MoveKeepsYoung(s, s', w, step.h, s'.handlers[step.h], max);
  }

  lemma OthersKeepYoung(s: State, step: Step, max: nat)
    requires Inv(s) && AllYoung(s, max) && Enabled(s, step) && max > 0
    requires step.Visit? || step.Evict? || step.ReloadStop? || step.ReloadStart?
    ensures AllYoung(Next(s, step), max)
  {
    hide Inv, AllYoung, Count, Released, Recycled, Refreshed, Started, Stopped, ShouldRestart, ChildOf, ChildOfSpawn;
    var w := step.w;
    assert WorkerFits(s, w) by { InvAt(s, w); }
    var spawn := if step.ReloadStop? then NO_SPAWN else step.spawn;
    var proc := if step.Visit? then step.proc else None;
    SectionsOnLife(s.workers[w], Alive, spawn, proc);
    SectionsOnLife(Refreshed(s.workers[w], proc), Alive, spawn, proc);
    SectionKeepsYoung(s, Next(s, step), w, max);
  }

  lemma BookkeepingKeepsYoung(s: State, step: Step, max: nat)
    requires AllYoung(s, max) && Enabled(s, step)
    requires step.Resize? || step.Take? || step.Release? || step.DropPool? || step.Exit?
    ensures AllYoung(Next(s, step), max)
  {
    hide Count;
    var s' := Next(s, step);
    forall w | w in s'.workers
      ensures Young(s', w, max)
    {
      assert w in s.workers ==> Young(s, w, max);
    }
  }

  lemma NextKeepsYoung(s: State, step: Step, max: nat)
    requires Inv(s) && AllYoung(s, max) && Enabled(s, step) && Limited(step, max) && max > 0
    ensures AllYoung(Next(s, step), max)
  {
    hide Inv, AllYoung, Next;
    match step
    case Arrive(_, _) => PhaseStepKeepsYoung(s, step, max);
    case GiveUp(_, _) => PhaseStepKeepsYoung(s, step, max);
    case Reply(_, _, _, _, _, _) => ReplyKeepsYoung(s, step, max);
    case Visit(_, _, _, _) => OthersKeepYoung(s, step, max);
    case Evict(_, _) => OthersKeepYoung(s, step, max);
    case ReloadStop(_) => OthersKeepYoung(s, step, max);
    case ReloadStart(_, _) => OthersKeepYoung(s, step, max);
    case Resize(_, _) => BookkeepingKeepsYoung(s, step, max);
    case Take(_) => BookkeepingKeepsYoung(s, step, max);
    case Release(_) => BookkeepingKeepsYoung(s, step, max);
    case DropPool(_) => BookkeepingKeepsYoung(s, step, max);
    case Exit(_) => BookkeepingKeepsYoung(s, step, max);
    case _ => HandlerKeepsYoung(s, step, max);
  }

  lemma {:induction false} RunKeepsYoung(s: State, steps: seq<Step>, max: nat)
    requires Inv(s) && AllYoung(s, max) && Runs(s, steps) && AllLimited(steps, max) && max > 0
    ensures AllYoung(After(s, steps), max)
    decreases |steps|
  {
    hide Inv, Next, AllYoung;
    if steps != [] {
      NextKeepsInv(s, steps[0]);
      NextKeepsYoung(s, steps[0], max);
      RunKeepsYoung(Next(s, steps[0]), steps[1..], max);
    }
  }

  /**
   In every interleaving, failed spawns and recycles by others included, the replies counted for a process are
   fewer than the limit plus the handlers that hold a restart reason they have not acted on.
   */
  lemma LifetimeBound(steps: seq<Step>, w: WorkerId, max: nat)
    requires Runs(INIT, steps) && AllLimited(steps, max) && max > 0 && w in After(INIT, steps).workers
    ensures var s := After(INIT, steps);
            s.workers[w].process.Some? ==> s.workers[w].requestsHandled < max + Count(s.handlers, Reasoned(w))
  {
    RunKeepsYoung(INIT, steps, max);
    YoungAt(After(INIT, steps), w, max);
  }

  /** When no handler holds a restart reason, the configured limit itself bounds the replies of a process. */
  lemma LimitHoldsAtRest(steps: seq<Step>, w: WorkerId, max: nat)
    requires Runs(INIT, steps) && AllLimited(steps, max) && max > 0 && w in After(INIT, steps).workers
    requires forall h :: h in After(INIT, steps).handlers ==> After(INIT, steps).handlers[h] != Reasoned(w)
    ensures After(INIT, steps).workers[w].process.Some? ==> After(INIT, steps).workers[w].requestsHandled < max
  {
    LifetimeBound(steps, w, max);
    assert Holders(After(INIT, steps).handlers, Reasoned(w)) == {};
  }
}
