/**
 How many requests a PHP process takes before it is replaced. The limit counts replies; a request taken is one
 replied to, still in flight, or ended by an exchange that failed and left the process in place.
 */
module RequestsTaken {
  import opened Bytes
  import opened ProcessAccounting
  import opened RequestLifetime
  import opened Worker
  import opened WorkerLifecycle
  import opened Wrappers

  /** Of the process a worker has: the requests begun on it, and the exchanges that failed and left it in place. */
  datatype Tally = Tally(taken: nat, failed: nat)

  const NOTHING: Tally := Tally(0, 0)

  function ProcessOf(s: State, w: WorkerId): Option<ProcessId> {
    if w in s.workers then s.workers[w].process else None
  }

  /** The tally starts anew with every change of the process. */
  function Tallied(s: State, step: Step, w: WorkerId, t: Tally): Tally
    requires Enabled(s, step)
  {
    if ProcessOf(Next(s, step), w) != ProcessOf(s, w) then NOTHING
    else if step.Begin? && step.w == w then t.(taken := t.taken + 1)
    else if step.Break? && step.w == w then t.(failed := t.failed + 1)
    else t
  }

  /** The tally of worker w after the run, begun with tally t. */
  function TallyOf(s: State, steps: seq<Step>, w: WorkerId, t: Tally): Tally
    requires Runs(s, steps)
    decreases |steps|
  {
    if steps == [] then t else TallyOf(Next(s, steps[0]), steps[1..], w, Tallied(s, steps[0], w, t))
  }

  predicate TallyFits(s: State, w: WorkerId, t: Tally) {
    ProcessOf(s, w).Some? ==>
      t.taken <= s.workers[w].requestsHandled + t.failed + s.workers[w].activeRequests
  }

  /** While a process stays, its counter moves with replies, and the in-flight count with beginnings and ends. */
  predicate SameLife(before: WorkerState, after: WorkerState, step: Step, w: WorkerId) {
    var own := OfHandler(step) && step.w == w;
    && after.requestsHandled == before.requestsHandled + (if own && step.Reply? then 1 else 0)
    && after.activeRequests == before.activeRequests + (if own && step.Begin? then 1 else 0)
                               - (if own && (step.Reply? || step.Break?) then 1 else 0)
  }

  /** A section that could replace the process and has not. */
  lemma KeptOnLife(w: WorkerState, health: Health, spawn: Spawn, proc: Option<ProcMemory>, memory: u64, peak: u64)
    ensures IsRunning(w, health) ==> EnsuredRunning(w, health, spawn.child, spawn.memory) == w
    ensures Started(w, None, spawn.memory) == w
    ensures Refreshed(w, proc).requestsHandled == w.requestsHandled
    ensures Refreshed(w, proc).activeRequests == w.activeRequests && Refreshed(w, proc).draining == w.draining
    ensures var u := Updated(w, memory, peak, proc);
            u.requestsHandled == w.requestsHandled + 1 && u.activeRequests == w.activeRequests
    ensures Less(w).requestsHandled == w.requestsHandled && Less(w).draining == w.draining
    ensures IsRunning(Less(w), health) == IsRunning(w, health)
  {
  }

  /** A process replaced is replaced by another: the new one has a fresh name. */
  lemma ReplacedByAnother(s: State, step: Step, w: WorkerId)
    requires Accounted(s) && Enabled(s, step) && ProcessOf(s, w).Some?
    requires (Restarts(s, step) && step.w == w) || (step.ReloadStart? && step.w == w && step.spawn.child.Some?)
    ensures ProcessOf(Next(s, step), w) != ProcessOf(s, w)
  {
    hide EnsuredRunning, Recycled, Updated, Stopped, ShouldRestart, IsRunning;
    assert Names(s, w, s.workers[w].process.value);
    if !step.ReloadStart? {
      var spawn := RestartStep(s, step);
    }
  }

  /** A section on worker w that leaves its process in place. */
  lemma OwnSectionKeepsLife(s: State, step: Step, w: WorkerId)
    requires Inv(s) && Enabled(s, step) && w in s.workers && !Restarts(s, step)
    requires OfHandler(step) || step.Visit? || step.Evict? || step.ReloadStop? || step.ReloadStart?
    requires step.w == w && (step.ReloadStart? ==> step.spawn.child == None)
    ensures SameLife(s.workers[w], Next(s, step).workers[w], step, w)
  {
    hide Inv, Count, EnsuredRunning, Recycled, Updated, Refreshed, Started, Stopped, ShouldRestart, IsRunning;
    var before := s.workers[w];
    assert !before.draining by { InvAt(s, w); }
    if step.Reply? || step.Break? {
      DecrementIsExact(s, step.h, w);
    }
    var health := if step.Ensure? || step.Break? then step.health else Alive;
    var spawn := if step.Ensure? || step.Break? || step.ReloadStart? then step.spawn else NO_SPAWN;
    var proc := if step.Visit? || step.Reply? then step.proc else None;
    var memory, peak := if step.Reply? then step.memory else 0, if step.Reply? then step.peak else 0;
    KeptOnLife(before, health, spawn, proc, memory, peak);
    KeptOnLife(Less(before), health, spawn, proc, memory, peak);
  }

  lemma OtherStepKeepsWorker(s: State, step: Step, w: WorkerId)
    requires Enabled(s, step) && w in s.workers
    requires OfHandler(step) || step.Visit? || step.Evict? || step.ReloadStop? || step.ReloadStart? ==> step.w != w
    ensures w in Next(s, step).workers && Next(s, step).workers[w] == s.workers[w]
  {
    hide EnsuredRunning, Recycled, Updated, Refreshed, Started, Stopped, ShouldRestart, IsRunning;
  }

  lemma TallyStep(s: State, step: Step, w: WorkerId, t: Tally)
    requires Inv(s) && Accounted(s) && Enabled(s, step) && TallyFits(s, w, t)
    ensures TallyFits(Next(s, step), w, Tallied(s, step, w, t))
  {
    hide Inv, Accounted, Next, Restarts;
    if w in s.workers && ProcessOf(s, w).Some? && ProcessOf(Next(s, step), w) == ProcessOf(s, w) {
      if (OfHandler(step) || step.Visit? || step.Evict? || step.ReloadStop? || step.ReloadStart?) && step.w == w {
        if Restarts(s, step) || (step.ReloadStart? && step.spawn.child.Some?) {
          ReplacedByAnother(s, step, w);
        } else {
          OwnSectionKeepsLife(s, step, w);
        }
      } else {
        OtherStepKeepsWorker(s, step, w);
      }
    }
  }

  lemma {:induction false} TallyOfRun(s: State, steps: seq<Step>, w: WorkerId, t: Tally)
    requires Inv(s) && Accounted(s) && Runs(s, steps) && TallyFits(s, w, t)
    ensures TallyFits(After(s, steps), w, TallyOf(s, steps, w, t))
    decreases |steps|
  {
    hide Inv, Accounted, Next, Enabled, TallyFits, Tallied;
    if steps != [] {
      NextKeepsInv(s, steps[0]);
      OrphansArise(s, steps[0], 0);
      TallyStep(s, steps[0], w, t);
      TallyOfRun(Next(s, steps[0]), steps[1..], w, Tallied(s, steps[0], w, t));
    }
  }

  /**
   In every interleaving a process has taken fewer requests than the limit, plus the handlers that hold a restart
   reason, plus those in flight, plus the exchanges that failed and left it in place.
   */
  lemma TakenBound(steps: seq<Step>, w: WorkerId, max: nat)
    requires Runs(INIT, steps) && AllLimited(steps, max) && max > 0 && w in After(INIT, steps).workers
    ensures var s, t := After(INIT, steps), TallyOf(INIT, steps, w, NOTHING);
            s.workers[w].process.Some? ==>
              t.taken < max + Count(s.handlers, Reasoned(w)) + Count(s.handlers, InFlight(w)) + t.failed
  {
    hide Runs, After, TallyOf, Count;
    TallyOfRun(INIT, steps, w, NOTHING);
    InFlightCountIsExact(steps, w);
    LifetimeBound(steps, w, max);
  }

  lemma {:induction false} NoBreakNoFailure(s: State, steps: seq<Step>, w: WorkerId, t: Tally)
    requires Runs(s, steps) && t.failed == 0
    requires forall i :: 0 <= i < |steps| ==> !(steps[i].Break? && steps[i].w == w)
    ensures TallyOf(s, steps, w, t).failed == 0
    decreases |steps|
  {
    hide Next, Enabled;
    if steps != [] {
      assert !(steps[0].Break? && steps[0].w == w);
      NoBreakNoFailure(Next(s, steps[0]), steps[1..], w, Tallied(s, steps[0], w, t));
    }
  }

  /** When no exchange on the worker fails and no handler is busy on it, the limit does bound the requests taken. */
  lemma LimitBoundsRequests(steps: seq<Step>, w: WorkerId, max: nat)
    requires Runs(INIT, steps) && AllLimited(steps, max) && max > 0 && w in After(INIT, steps).workers
    requires forall i :: 0 <= i < |steps| ==> !(steps[i].Break? && steps[i].w == w)
    requires forall h :: h in After(INIT, steps).handlers ==>
               After(INIT, steps).handlers[h] != Reasoned(w) && After(INIT, steps).handlers[h] != InFlight(w)
    ensures After(INIT, steps).workers[w].process.Some? ==> TallyOf(INIT, steps, w, NOTHING).taken < max
  {
    hide Runs, After, TallyOf;
    TakenBound(steps, w, max);
    NoBreakNoFailure(INIT, steps, w, NOTHING);
    assert Holders(After(INIT, steps).handlers, Reasoned(w)) == {};
    assert Holders(After(INIT, steps).handlers, InFlight(w)) == {};
  }

  lemma {:induction false} TallyAppend(s: State, a: seq<Step>, b: seq<Step>, w: WorkerId, t: Tally)
    requires Runs(s, a) && Runs(After(s, a), b) && Runs(s, a + b)
    ensures TallyOf(s, a + b, w, t) == TallyOf(After(s, a), b, w, TallyOf(s, a, w, t))
    decreases |a|
  {
    hide Next, Enabled, Tallied;
    if a == [] {
      assert a + b == b;
    } else {
      assert (a + b)[1..] == a[1..] + b;
      TallyAppend(Next(s, a[0]), a[1..], b, w, Tallied(s, a[0], w, t));
    }
  }
}
