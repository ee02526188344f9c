/**
 The bounds on the replies a process gives and on the requests it takes are reached, for every limit, and the limit
 alone does not bound the requests.
 */
module LifetimeIsReached {
  import opened RequestLifetime
  import opened RequestsTaken
  import opened Worker
  import opened WorkerLifecycle
  import opened Wrappers

  function Limit(max: nat): Config
    requires max < 0x1_0000_0000_0000_0000
  {
    Config(true, 1, 100, max)
  }

  /** One worker, whose process 1 is the only one ever spawned. */
  function Solo(handlers: map<HandlerId, Phase>, handled: nat, active: nat): State {
    var w := NEW_WORKER.(process := Some(1), pid := Some(1), requestsHandled := handled, activeRequests := active);
    State(map[0 := w], {0}, {}, handlers, {1}, {1})
  }

  lemma SoloWorker(handlers: map<HandlerId, Phase>, handled: nat, active: nat)
    ensures var s := Solo(handlers, handled, active);
            && 0 in s.workers && s.workers[0].process == Some(1) && s.handlers == handlers
            && s.workers[0].requestsHandled == handled && s.workers[0].activeRequests == active
  {
  }

  // ----- Runs and what they lead to -----

  predicate Reaches(steps: seq<Step>, s: State, t: Tally, max: nat) {
    && Runs(INIT, steps) && After(INIT, steps) == s && AllLimited(steps, max)
    && TallyOf(INIT, steps, 0, NOTHING) == t
  }

  lemma OneTally(s: State, step: Step, w: WorkerId, t: Tally)
    requires Enabled(s, step) && Runs(s, [step])
    ensures TallyOf(s, [step], w, t) == Tallied(s, step, w, t)
  {
    hide Next, Enabled, Tallied;
    assert [step][1..] == [];
  }

  lemma OneMore(steps: seq<Step>, s: State, t: Tally, step: Step, s': State, max: nat)
    requires Reaches(steps, s, t, max) && Enabled(s, step) && Next(s, step) == s' && Limited(step, max)
    ensures Reaches(steps + [step], s', Tallied(s, step, 0, t), max)
  {
    hide Next, Enabled, Runs, After, TallyOf, Tallied, Limited;
    OneStep(s, step);
    RunsAppend(INIT, steps, [step]);
    OneTally(s, step, 0, t);
    TallyAppend(INIT, steps, [step], 0, NOTHING);
  }

  const START_UP: seq<Step> := [] + [Resize({}, {0})] + [ReloadStart(0, Spawn(Some(1), None))]

  lemma NothingRun(max: nat)
    ensures Reaches([], INIT, NOTHING, max)
  {
  }

  lemma StartUpSteps()
    ensures var idle := State(map[0 := NEW_WORKER], {0}, {}, map[], {}, {});
            && Enabled(INIT, Resize({}, {0})) && Next(INIT, Resize({}, {0})) == idle
            && Enabled(idle, ReloadStart(0, Spawn(Some(1), None)))
            && Next(idle, ReloadStart(0, Spawn(Some(1), None))) == Solo(map[], 0, 0)
  {
  }

  lemma StartUp(max: nat)
    ensures Reaches(START_UP, Solo(map[], 0, 0), NOTHING, max)
  {
    hide Enabled, Next, Reaches, Solo, Tallied;
    var idle := State(map[0 := NEW_WORKER], {0}, {}, map[], {}, {});
    StartUpSteps();
    NothingRun(max);
    OneMore([], INIT, NOTHING, Resize({}, {0}), idle, max);
    assert Tallied(INIT, Resize({}, {0}), 0, NOTHING) == NOTHING by { QuietTally(INIT, Resize({}, {0}), NOTHING); }
    OneMore([] + [Resize({}, {0})], idle, NOTHING, ReloadStart(0, Spawn(Some(1), None)), Solo(map[], 0, 0), max);
    QuietTally(idle, ReloadStart(0, Spawn(Some(1), None)), NOTHING);
  }

  /** A step that neither begins nor ends a request leaves a tally alone or starts it anew. */
  lemma QuietTally(s: State, step: Step, t: Tally)
    requires Enabled(s, step) && !step.Begin? && !step.Break?
    ensures Tallied(s, step, 0, t) in {t, NOTHING}
    ensures ProcessOf(Next(s, step), 0) == ProcessOf(s, 0) ==> Tallied(s, step, 0, t) == t
  {
    hide Next, Enabled;
  }

  // ----- A request in flight -----

  lemma ArriveAndBegin(handlers: map<HandlerId, Phase>, active: nat, h: HandlerId)
    requires h !in handlers
    ensures var s0, s1, s2 := Solo(handlers, 0, active), Solo(handlers[h := Chosen(0)], 0, active),
              Solo(handlers[h := Ready(0)], 0, active);
            && Enabled(s0, Arrive(h, 0)) && Next(s0, Arrive(h, 0)) == s1
            && Enabled(s1, Ensure(h, 0, Alive, NO_SPAWN)) && Next(s1, Ensure(h, 0, Alive, NO_SPAWN)) == s2
            && Enabled(s2, Begin(h, 0)) && Next(s2, Begin(h, 0)) == Solo(handlers[h := InFlight(0)], 0, active + 1)
  {
  }

  lemma ProcessStays(handlers: map<HandlerId, Phase>, handled: nat, active: nat)
    ensures ProcessOf(Solo(handlers, handled, active), 0) == Some(1)
  {
  }

  /** The first three sections of handler h, up to its request being in flight. */
  function Sent(before: seq<Step>, h: HandlerId): seq<Step> {
    before + [Arrive(h, 0)] + [Ensure(h, 0, Alive, NO_SPAWN)] + [Begin(h, 0)]
  }

  lemma SentRuns(before: seq<Step>, handlers: map<HandlerId, Phase>, active: nat, t: Tally, h: HandlerId, max: nat)
    requires Reaches(before, Solo(handlers, 0, active), t, max) && h !in handlers
    ensures Reaches(Sent(before, h), Solo(handlers[h := InFlight(0)], 0, active + 1), t.(taken := t.taken + 1), max)
  {
    hide Next, Enabled, Solo, Reaches;
    var a, b, c := Arrive(h, 0), Ensure(h, 0, Alive, NO_SPAWN), Begin(h, 0);
    var h1, h2, h3 := handlers[h := Chosen(0)], handlers[h := Ready(0)], handlers[h := InFlight(0)];
    ArriveAndBegin(handlers, active, h);
    ProcessStays(handlers, 0, active);
    ProcessStays(h1, 0, active);
    ProcessStays(h2, 0, active);
    ProcessStays(h3, 0, active + 1);
    OneMore(before, Solo(handlers, 0, active), t, a, Solo(h1, 0, active), max);
    OneMore(before + [a], Solo(h1, 0, active), t, b, Solo(h2, 0, active), max);
    OneMore(before + [a] + [b], Solo(h2, 0, active), t, c, Solo(h3, 0, active + 1), max);
  }

  // ----- Requests that end without a reply -----

  /** After the start, n handlers in turn send a request whose answer cannot be used, to a process found alive. */
  function Rounds(n: nat): seq<Step> {
    if n == 0 then START_UP else Sent(Rounds(n - 1), n - 1) + [Break(n - 1, 0, Alive, NO_SPAWN)]
  }

  function DoneHandlers(n: nat): (m: map<HandlerId, Phase>)
    ensures |m| == n && forall h :: h in m ==> h < n
  {
    if n == 0 then map[] else DoneHandlers(n - 1)[n - 1 := Finished]
  }

  lemma BreakStep(handlers: map<HandlerId, Phase>, h: HandlerId)
    ensures var s, step := Solo(handlers[h := InFlight(0)], 0, 1), Break(h, 0, Alive, NO_SPAWN);
            Enabled(s, step) && Next(s, step) == Solo(handlers[h := Finished], 0, 0)
  {
    assert handlers[h := InFlight(0)][h := Finished] == handlers[h := Finished];
  }

  lemma {:induction false} RoundsRun(n: nat, max: nat)
    ensures Reaches(Rounds(n), Solo(DoneHandlers(n), 0, 0), Tally(n, n), max)
  {
    hide Reaches, Next, Enabled, Solo, Sent;
    if n == 0 {
      StartUp(max);
    } else {
      RoundsRun(n - 1, max);
      var done, busy := DoneHandlers(n - 1), DoneHandlers(n - 1)[n - 1 := InFlight(0)];
      SentRuns(Rounds(n - 1), done, 0, Tally(n - 1, n - 1), n - 1, max);
      BreakStep(done, n - 1);
      ProcessStays(busy, 0, 1);
      ProcessStays(done[n - 1 := Finished], 0, 0);
      OneMore(Sent(Rounds(n - 1), n - 1), Solo(busy, 0, 1), Tally(n, n - 1), Break(n - 1, 0, Alive, NO_SPAWN),
              Solo(done[n - 1 := Finished], 0, 0), max);
    }
  }

  /**
   Even with a limit of one, the only process ever spawned takes n requests in turn and none is counted, for
   every n: the counter moves with replies only.
   */
  lemma FailuresAreNotCounted(n: nat)
    ensures Runs(INIT, Rounds(n)) && AllLimited(Rounds(n), 1)
    ensures var s := After(INIT, Rounds(n));
            && 0 in s.workers && s.workers[0].process == Some(1) && s.spawned == s.running == {1}
            && s.workers[0].requestsHandled == 0 && |s.handlers| == n
    ensures TallyOf(INIT, Rounds(n), 0, NOTHING) == Tally(n, n)
  {
    hide Runs, After, TallyOf, AllLimited;
    RoundsRun(n, 1);
  }

  // ----- Requests in flight and replied to -----

  /** Behind the failed ones, handlers with a request in flight. */
  function BusyHandlers(failed: nat, n: nat): (m: map<HandlerId, Phase>)
    ensures forall h :: h in m ==> h < failed + n
  {
    if n == 0 then DoneHandlers(failed) else BusyHandlers(failed, n - 1)[failed + n - 1 := InFlight(0)]
  }

  function BusyRun(failed: nat, n: nat): seq<Step> {
    if n == 0 then Rounds(failed) else Sent(BusyRun(failed, n - 1), failed + n - 1)
  }

  lemma {:induction false} BusyRunRuns(failed: nat, n: nat, max: nat)
    ensures Reaches(BusyRun(failed, n), Solo(BusyHandlers(failed, n), 0, n), Tally(failed + n, failed), max)
  {
    hide Reaches, Solo, Sent;
    if n == 0 {
      RoundsRun(failed, max);
    } else {
      BusyRunRuns(failed, n - 1, max);
      SentRuns(BusyRun(failed, n - 1), BusyHandlers(failed, n - 1), n - 1, Tally(failed + n - 1, failed),
               failed + n - 1, max);
    }
  }

  lemma {:induction false} AllAreBusy(failed: nat, n: nat, h: nat)
    requires failed <= h < failed + n
    ensures h in BusyHandlers(failed, n) && BusyHandlers(failed, n)[h] == InFlight(0)
  {
    if h < failed + n - 1 {
      AllAreBusy(failed, n - 1, h);
    }
  }

  /** Where a handler ends up when its reply is the (k + 1)-th of the process. */
  function PhaseAfterReply(k: nat, max: nat): Phase {
    if k + 1 >= max then Reasoned(0) else Finished
  }

  /** The first k of those in flight have had their reply. */
  function RepliedHandlers(failed: nat, n: nat, k: nat, max: nat): map<HandlerId, Phase>
    requires k <= n
    decreases k
  {
    if k == 0 then BusyHandlers(failed, n)
    else RepliedHandlers(failed, n, k - 1, max)[failed + k - 1 := PhaseAfterReply(k - 1, max)]
  }

  function ReplyRun(failed: nat, n: nat, k: nat, max: nat): seq<Step>
    requires k <= n && max < 0x1_0000_0000_0000_0000
    decreases k
  {
    if k == 0 then BusyRun(failed, n)
    else ReplyRun(failed, n, k - 1, max) + [Reply(failed + k - 1, 0, 0, 0, None, Limit(max))]
  }

  lemma {:induction false} LaterAreBusy(failed: nat, n: nat, k: nat, max: nat, h: nat)
    requires k <= n && failed + k <= h < failed + n
    ensures h in RepliedHandlers(failed, n, k, max) && RepliedHandlers(failed, n, k, max)[h] == InFlight(0)
    decreases k
  {
    if k == 0 {
      AllAreBusy(failed, n, h);
    } else {
      LaterAreBusy(failed, n, k - 1, max, h);
    }
  }

  lemma ReplyStep(handlers: map<HandlerId, Phase>, handled: nat, active: nat, h: HandlerId, max: nat)
    requires active > 0 && h in handlers && handlers[h] == InFlight(0) && max < 0x1_0000_0000_0000_0000
    ensures var s, step := Solo(handlers, handled, active), Reply(h, 0, 0, 0, None, Limit(max));
            && Enabled(s, step)
            && Next(s, step) == Solo(handlers[h := PhaseAfterReply(handled, max)], handled + 1, active - 1)
  {
    assert Threshold(Limit(max)) == 1048576;
  }

  lemma {:induction false} ReplyRunRuns(failed: nat, n: nat, k: nat, max: nat)
    requires k <= n && max < 0x1_0000_0000_0000_0000
    ensures Reaches(ReplyRun(failed, n, k, max), Solo(RepliedHandlers(failed, n, k, max), k, n - k),
                    Tally(failed + n, failed), max)
    decreases k
  {
    hide Reaches, Next, Enabled, Solo;
    if k == 0 {
      BusyRunRuns(failed, n, max);
    } else {
      ReplyRunRuns(failed, n, k - 1, max);
      var before, after := RepliedHandlers(failed, n, k - 1, max), RepliedHandlers(failed, n, k, max);
      var step := Reply(failed + k - 1, 0, 0, 0, None, Limit(max));
      LaterAreBusy(failed, n, k - 1, max, failed + k - 1);
      ReplyStep(before, k - 1, n - k + 1, failed + k - 1, max);
      ProcessStays(before, k - 1, n - k + 1);
      ProcessStays(after, k, n - k);
      OneMore(ReplyRun(failed, n, k - 1, max), Solo(before, k - 1, n - k + 1), Tally(failed + n, failed), step,
              Solo(after, k, n - k), max);
    }
  }

  // ----- The bounds are met -----

  lemma {:induction false} CountNobody(failed: nat, n: nat)
    ensures Count(BusyHandlers(failed, n), Reasoned(0)) == 0
    decreases failed + n
  {
    hide Count;
    if n > 0 {
      CountNobody(failed, n - 1);
      CountAfterMove(BusyHandlers(failed, n - 1), failed + n - 1, InFlight(0), Reasoned(0));
    } else if failed > 0 {
      CountNobody(failed - 1, 0);
      CountAfterMove(DoneHandlers(failed - 1), failed - 1, Finished, Reasoned(0));
    } else {
      CountNone();
    }
  }

  lemma CountNone()
    ensures Count(map[], Reasoned(0)) == 0
  {
    assert Holders(map[], Reasoned(0)) == {};
  }

  lemma {:induction false} CountReasons(failed: nat, n: nat, k: nat, max: nat)
    requires k <= n && 0 < max
    ensures Count(RepliedHandlers(failed, n, k, max), Reasoned(0)) == if k < max then 0 else k - max + 1
    decreases k
  {
    hide Count;
    if k == 0 {
      CountNobody(failed, n);
    } else {
      CountReasons(failed, n, k - 1, max);
      LaterAreBusy(failed, n, k - 1, max, failed + k - 1);
      CountAfterMove(RepliedHandlers(failed, n, k - 1, max), failed + k - 1, PhaseAfterReply(k - 1, max), Reasoned(0));
    }
  }

  /**
   For every limit, every number of handlers that hold a reason and that are in flight, and every number of failed
   exchanges there is a run with just those in which the process has given exactly one reply, and taken exactly one
   request, less than its bound.
   */
  lemma BoundIsReached(max: nat, reasons: nat, inFlight: nat, failed: nat) returns (steps: seq<Step>)
    requires 0 < max < 0x1_0000_0000_0000_0000
    ensures Runs(INIT, steps) && AllLimited(steps, max)
    ensures var s, t := After(INIT, steps), TallyOf(INIT, steps, 0, NOTHING);
            && 0 in s.workers && s.workers[0].process.Some?
            && Count(s.handlers, Reasoned(0)) == reasons && Count(s.handlers, InFlight(0)) == inFlight
            && s.workers[0].requestsHandled == max + reasons - 1
            && t == Tally(max + reasons + inFlight + failed - 1, failed)
  {
    var k := max + reasons - 1;
    steps := ReplyRun(failed, k + inFlight, k, max);
    hide Runs, After, TallyOf, AllLimited, Count, RepliedHandlers, ReplyRun, Released, Solo;
    ReplyRunRuns(failed, k + inFlight, k, max);
    SoloWorker(RepliedHandlers(failed, k + inFlight, k, max), k, inFlight);
    CountReasons(failed, k + inFlight, k, max);
    InFlightCountIsExact(steps, 0);
  }

  /** The bound of LifetimeBound, for one run and worker. */
  predicate RepliesBounded(steps: seq<Step>, w: WorkerId, max: nat) {
    Runs(INIT, steps) && AllLimited(steps, max) && w in After(INIT, steps).workers ==>
      var s := After(INIT, steps);
      s.workers[w].process.Some? ==> s.workers[w].requestsHandled < max + Count(s.handlers, Reasoned(w))
  }

  /** It holds of all runs exactly for a positive limit: with the limit 0 a process just started breaks it. */
  lemma BoundNeedsALimit(max: nat)
    ensures max > 0 <==> forall steps: seq<Step>, w: WorkerId :: RepliesBounded(steps, w, max)
  {
    if max > 0 {
      forall steps: seq<Step>, w: WorkerId
        ensures RepliesBounded(steps, w, max)
      {
        PositiveLimitBounds(steps, w, max);
      }
    } else {
      hide RepliesBounded;
      ZeroDoesNotBound();
    }
  }

  lemma PositiveLimitBounds(steps: seq<Step>, w: WorkerId, max: nat)
    requires max > 0
    ensures RepliesBounded(steps, w, max)
  {
    hide Runs, After, AllLimited, Count;
    if Runs(INIT, steps) && AllLimited(steps, max) && w in After(INIT, steps).workers {
      LifetimeBound(steps, w, max);
    }
  }

  lemma ZeroDoesNotBound()
    ensures !RepliesBounded(START_UP, 0, 0)
  {
    hide Runs, After, AllLimited, Count, TallyOf;
    StartUp(0);
    CountNone();
  }
}
