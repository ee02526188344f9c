/** One pass of the memory monitor of anti_oom.rs over the workers of all pools. */
module AntiOom {
  import opened Bytes
  import opened Worker
  import opened Wrappers

  /**
   A worker in scan order with its pool's configuration, the state the scan finds it in, the /proc reading, and what
   a recycle would bring. Handlers run between the visits, so the state found may be any.
   */
  datatype Entry = Entry(worker: Worker, config: Config, found: WorkerState, proc: Option<ProcMemory>,
                         spawn: Option<ProcessId>, memory: Option<ProcMemory>)

  /** The state the eviction finds the candidate in, and what its recycle brings. */
  datatype Eviction = Eviction(found: WorkerState, spawn: Option<ProcessId>, memory: Option<ProcMemory>)

  // ----- The pass as a function of what it finds -----

  function Seen(e: Entry): WorkerState {
    Refreshed(e.found, e.proc)
  }

  predicate Due(e: Entry) {
    ShouldRestart(Seen(e), e.config)
  }

  function Inspected(e: Entry): WorkerState {
    if Due(e) then Recycled(Seen(e), e.spawn, e.memory) else Seen(e)
  }

  /** A worker that container pressure may evict. */
  predicate Evictable(e: Entry) {
    !Due(e) && Seen(e).rssBytes > 0
  }

  /** The candidate after the first i workers. */
  function Heaviest(entries: seq<Entry>, i: nat): (k: Option<nat>)
    requires i <= |entries|
    ensures k.Some? ==> k.value < i
  {
    if i == 0 then None
    else
      var best := Heaviest(entries, i - 1);
      var e := entries[i - 1];
      if Evictable(e) && (best == None || Seen(e).rssBytes > Seen(entries[best.value]).rssBytes) then Some(i - 1)
      else best
  }

  predicate Evicted(entries: seq<Entry>, pressure: bool, j: nat) {
    pressure && Heaviest(entries, |entries|) == Some(j)
  }

  /** Worker j as the pass leaves it. */
  function Passed(entries: seq<Entry>, pressure: bool, eviction: Eviction, j: nat): WorkerState
    requires j < |entries|
  {
    if Evicted(entries, pressure, j) then Recycled(eviction.found, eviction.spawn, eviction.memory)
    else Inspected(entries[j])
  }

  predicate DistinctWorkers(entries: seq<Entry>) {
    forall i, j :: 0 <= i < j < |entries| ==> entries[i].worker != entries[j].worker
  }

  /** Other tasks have used the mutex of the worker in the meantime and left it in the given state. */
  method LeftByOthers(w: Worker, found: WorkerState)
    modifies w
    ensures w.View() == found
  {
    w.process, w.pid, w.requestsHandled := found.process, found.pid, found.requestsHandled;
    w.lastMemory, w.lastPeak := found.lastMemory, found.lastPeak;
    w.rssBytes, w.hwmBytes := found.rssBytes, found.hwmBytes;
    w.activeRequests, w.draining, w.recycleCount := found.activeRequests, found.draining, found.recycleCount;
  }

  /** One worker of the scan, under its mutex. */
  method Inspect(e: Entry) returns (due: bool, rss: u64)
    requires e.worker.View() == e.found
    modifies e.worker
    ensures e.worker.View() == Inspected(e) && due == Due(e)
    ensures !due ==> rss == Seen(e).rssBytes
  {
    hide Recycled, ShouldRestart, Refreshed;
    e.worker.RefreshProcMemory(e.proc);
    due := e.worker.RestartReason(e.config);
    rss := e.worker.rssBytes;
    if due {
      var ok, waited := e.worker.GracefulRecycle(e.spawn, e.memory);
    }
  }

  /** What the monitor remembers of the candidate: its place and its RSS. */
  predicate Remembers(entries: seq<Entry>, i: nat, heaviest: Option<(nat, u64)>)
    requires i <= |entries|
  {
    match Heaviest(entries, i)
    case None => heaviest == None
    case Some(k) => heaviest == Some((k, Seen(entries[k]).rssBytes))
  }

  function Better(heaviest: Option<(nat, u64)>, i: nat, due: bool, rss: u64): Option<(nat, u64)> {
    if !due && rss > 0 && (heaviest == None || rss > heaviest.value.1) then Some((i, rss)) else heaviest
  }

  lemma RemembersStep(entries: seq<Entry>, i: nat, heaviest: Option<(nat, u64)>, due: bool, rss: u64)
    requires i < |entries| && Remembers(entries, i, heaviest)
    requires due == Due(entries[i]) && (!due ==> rss == Seen(entries[i]).rssBytes)
    ensures Remembers(entries, i + 1, Better(heaviest, i, due, rss))
  {
    hide Due, Seen;
  }

  lemma NothingRemembered(entries: seq<Entry>)
    ensures Remembers(entries, 0, None)
  {
  }

  /** The scan of all workers, which remembers a candidate if there is container pressure. */
  method Scan(entries: seq<Entry>, pressure: bool) returns (heaviest: Option<(nat, u64)>)
    requires DistinctWorkers(entries)
    modifies set e | e in entries :: e.worker
    ensures forall j :: 0 <= j < |entries| ==> entries[j].worker.View() == Inspected(entries[j])
    ensures pressure ==> Remembers(entries, |entries|, heaviest)
  {
    hide Inspected, Due, Seen, Better, Remembers, Worker.View;
    heaviest := None;
    NothingRemembered(entries);
    for i := 0 to |entries|
      invariant forall j :: 0 <= j < i ==> entries[j].worker.View() == Inspected(entries[j])
      invariant pressure ==> Remembers(entries, i, heaviest)
    {
      LeftByOthers(entries[i].worker, entries[i].found);
      var due, rss := Inspect(entries[i]);
      if pressure {
        RemembersStep(entries, i, heaviest, due, rss);
        heaviest := Better(heaviest, i, due, rss);
      }
    }
  }

  /** One round of the loop. What others do to a worker that the pass has done with is not shown. */
  method MonitorPass(entries: seq<Entry>, pressure: bool, eviction: Eviction)
    requires DistinctWorkers(entries)
    modifies set e | e in entries :: e.worker
    ensures forall j :: 0 <= j < |entries| ==> entries[j].worker.View() == Passed(entries, pressure, eviction, j)
  {
    hide Inspected, Seen, Heaviest, Recycled, Worker.View;
    var heaviest := Scan(entries, pressure);
    if pressure && heaviest.Some? {
      var candidate := entries[heaviest.value.0].worker;
      LeftByOthers(candidate, eviction.found);
      var ok, waited := candidate.GracefulRecycle(eviction.spawn, eviction.memory);
    }
  }

  // ----- What the pass achieves -----

  /** The RSS a worker is judged by: the one just read, or the one stored if there is no pid or no reading. */
  function RssNow(e: Entry): u64 {
    if e.found.pid.Some? && e.proc.Some? then e.proc.value.rss else e.found.rssBytes
  }

  /** A worker is due by the figures of that moment, and weighs its RSS of that moment. */
  lemma JudgedByReading(e: Entry)
    requires LimitTimesPercent(e.config) < TWO_64
    ensures Due(e) <==>
            e.config.antiOomEnabled && (Exceeds(RssNow(e), e.config) || Exceeds(e.found.lastMemory, e.config)
                                        || Exceeds(e.found.lastPeak, e.config)
                                        || e.found.requestsHandled >= e.config.maxRequests)
    ensures Seen(e).rssBytes == RssNow(e) && (Evictable(e) <==> !Due(e) && RssNow(e) > 0)
  {
    hide Threshold, LimitTimesPercent, Exceeds;
    ThresholdIsExact(e.config, RssNow(e));
    ThresholdIsExact(e.config, e.found.lastMemory);
    ThresholdIsExact(e.config, e.found.lastPeak);
  }

  /** The candidate weighs most among the evictable workers, and is the first in scan order to weigh so much. */
  lemma {:induction false} HeaviestIsFirstMaximum(entries: seq<Entry>, i: nat)
    requires i <= |entries|
    ensures Heaviest(entries, i) == None <==> forall j :: 0 <= j < i ==> !Evictable(entries[j])
    ensures Heaviest(entries, i).Some? ==>
              var k := Heaviest(entries, i).value;
              && Evictable(entries[k])
              && forall j :: 0 <= j < i && Evictable(entries[j]) ==>
                   && Seen(entries[j]).rssBytes <= Seen(entries[k]).rssBytes
                   && (j < k ==> Seen(entries[j]).rssBytes < Seen(entries[k]).rssBytes)
  {
    hide Due, Seen;
    if i > 0 {
      HeaviestIsFirstMaximum(entries, i - 1);
    }
  }

  lemma InspectionRecyclesTheDue(e: Entry)
    requires Released(e.found)
    ensures var after := Inspected(e);
            && after.recycleCount == e.found.recycleCount + (if Due(e) then 1 else 0) && Released(after)
            && after.activeRequests == e.found.activeRequests && (!Due(e) ==> after.process == e.found.process)
  {
    hide ShouldRestart;
  }

  /**
   A pass recycles every worker at most once: exactly those that meet the restart test when the scan finds them and,
   under container pressure, the first heaviest of the others with a positive RSS.
   */
  lemma EachRecycledAtMostOnce(entries: seq<Entry>, pressure: bool, eviction: Eviction, j: nat)
    requires j < |entries| && Released(entries[j].found) && Released(eviction.found)
    ensures var e, after := entries[j], Passed(entries, pressure, eviction, j);
            var evicted := Evicted(entries, pressure, j);
            && !(Due(e) && evicted) && Released(after)
            && (evicted ==> after.recycleCount == eviction.found.recycleCount + 1
                            && after.process == eviction.spawn
                            && after.activeRequests == eviction.found.activeRequests)
            && (!evicted ==> after.recycleCount == e.found.recycleCount + (if Due(e) then 1 else 0)
                             && after.activeRequests == e.found.activeRequests
                             && (!Due(e) ==> after.process == e.found.process))
  {
    hide Due, Seen, Inspected, Released, Recycled;
    HeaviestIsFirstMaximum(entries, |entries|);
    InspectionRecyclesTheDue(entries[j]);
    RecycleIsNotSkipped(eviction.found, eviction.spawn, eviction.memory);
    SectionsKeepReleased(eviction.found, Alive, eviction.spawn, eviction.memory, 0, 0);
  }

  /** The pass evicts a worker although it has recycled another for being due. */
  predicate EvictsAfterRecycle(entries: seq<Entry>, pressure: bool) {
    exists i, j :: 0 <= i < |entries| && 0 <= j < |entries| && Due(entries[i]) && Evicted(entries, pressure, j)
  }

  /** That happens exactly under container pressure with one worker due and another, of positive RSS, not due. */
  lemma EvictsAfterRecycleExactly(entries: seq<Entry>, pressure: bool)
    ensures EvictsAfterRecycle(entries, pressure) <==>
            && pressure && (exists i :: 0 <= i < |entries| && Due(entries[i]))
            && (exists j :: 0 <= j < |entries| && Evictable(entries[j]))
  {
    hide Due, Seen, Heaviest;
    HeaviestIsFirstMaximum(entries, |entries|);
    var k := Heaviest(entries, |entries|);
    if pressure && k.Some? {
      assert Evicted(entries, pressure, k.value);
    }
  }

  const LIMITS: Config := Config(true, 128, 80, 1000)

  /** A small process that has given the given number of replies. */
  function Small(child: ProcessId, handled: nat): WorkerState {
    NEW_WORKER.(process := Some(child), pid := Some(child), requestsHandled := handled, rssBytes := 4096)
  }

  /** Such a pass: the first of two workers has reached its limit of requests, the second is new. */
  lemma BothAreRecycled(first: Worker, second: Worker)
    requires first != second
    ensures var entries := [Entry(first, LIMITS, Small(1, 1000), None, Some(3), None),
                            Entry(second, LIMITS, Small(2, 0), None, Some(4), None)];
            DistinctWorkers(entries) && EvictsAfterRecycle(entries, true)
  {
    var entries := [Entry(first, LIMITS, Small(1, 1000), None, Some(3), None),
                    Entry(second, LIMITS, Small(2, 0), None, Some(4), None)];
    assert Threshold(LIMITS) == 107374182;
    assert Due(entries[0]) && Evictable(entries[1]);
    hide Due, Evictable;
    EvictsAfterRecycleExactly(entries, true);
  }
}
