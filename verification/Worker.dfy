/** One PHP worker of worker.rs, used under its mutex. */
module Worker {
  import opened Bytes
  import opened Wrappers

  /** The part of the configuration that the worker logic reads. */
  datatype Config = Config(antiOomEnabled: bool, memoryLimitMb: u64, workerThresholdPercent: u64, maxRequests: u64)

  /** VmRSS and VmHWM as read from /proc, in bytes. */
  datatype ProcMemory = ProcMemory(rss: u64, hwm: u64)

  /** Every successful spawn gets a name of its own, never used again (a pid may be). */
  type ProcessId = nat

  /** What waiting on the child reported. */
  datatype Health = Exited | Alive | WaitFailed

  /** The fields of a worker. pid is cleared once the process is seen to have exited. */
  datatype WorkerState = WorkerState(
    process: Option<ProcessId>, pid: Option<ProcessId>, requestsHandled: nat, lastMemory: u64, lastPeak: u64,
    rssBytes: u64, hwmBytes: u64, activeRequests: nat, draining: bool, recycleCount: nat)

  const NEW_WORKER: WorkerState := WorkerState(None, None, 0, 0, 0, 0, 0, 0, false, 0)

  // ----- The critical sections as functions -----

  /** An unreadable /proc entry leaves the figures as they were. */
  function Refreshed(w: WorkerState, memory: Option<ProcMemory>): WorkerState {
    if w.pid.Some? && memory.Some? then w.(rssBytes := memory.value.rss, hwmBytes := memory.value.hwm) else w
  }

  /** A failed spawn (None) changes nothing. */
  function Started(w: WorkerState, spawn: Option<ProcessId>, memory: Option<ProcMemory>): WorkerState {
    match spawn
    case None => w
    case Some(child) =>
      Refreshed(w.(pid := Some(child), process := Some(child), requestsHandled := 0, lastMemory := 0,
                   lastPeak := 0, draining := false), memory)
  }

  function Stopped(w: WorkerState): WorkerState {
    if w.process.Some? then w.(process := None, pid := None, rssBytes := 0, hwmBytes := 0) else w
  }

  /** A worker already draining is left alone. */
  function Recycled(w: WorkerState, spawn: Option<ProcessId>, memory: Option<ProcMemory>): WorkerState {
    if w.draining then w
    else
      var stopped := Stopped(w.(draining := true));
      Started(stopped.(recycleCount := stopped.recycleCount + 1), spawn, memory).(draining := false)
  }

  /** How long a recycle waits before it stops the process, in milliseconds. */
  function RecycleWait(w: WorkerState): nat {
    if w.draining || w.activeRequests == 0 then 0 else 2000
  }

  function Checked(w: WorkerState, health: Health): WorkerState {
    if w.process.Some? && health == Exited then w.(pid := None) else w
  }

  predicate IsRunning(w: WorkerState, health: Health) {
    w.process.Some? && health == Alive
  }

  function EnsuredRunning(w: WorkerState, health: Health, spawn: Option<ProcessId>,
                          memory: Option<ProcMemory>): WorkerState {
    if IsRunning(w, health) then w else Started(Stopped(Checked(w, health)), spawn, memory)
  }

  /** One more request answered with the given PHP memory figures. */
  function Updated(w: WorkerState, memory: u64, peak: u64, proc: Option<ProcMemory>): WorkerState {
    Refreshed(w.(requestsHandled := w.requestsHandled + 1, lastMemory := memory, lastPeak := peak), proc)
  }

  // ----- The restart test -----

  function Clamp(x: u64, low: u64, high: u64): u64 {
    if x < low then low else if x > high then high else x
  }

  function Percent(c: Config): u64 {
    Clamp(c.workerThresholdPercent, 1, 100)
  }

  /** The threshold in bytes, in wrapping u64 arithmetic. */
  function Threshold(c: Config): u64 {
    (((c.memoryLimitMb * 1048576) % TWO_64) * Percent(c) % TWO_64) / 100
  }

  function Max(a: u64, b: u64): u64 {
    if a >= b then a else b
  }

  predicate ShouldRestart(w: WorkerState, c: Config) {
    c.antiOomEnabled &&
    (w.rssBytes > Threshold(c) || Max(w.lastMemory, w.lastPeak) > Threshold(c) || w.requestsHandled >= c.maxRequests)
  }

  lemma FloorTest(x: nat, product: nat)
    ensures x > product / 100 <==> x * 100 > product
  {
  }

  lemma WrappedProduct(a: nat, b: nat, m: nat)
    requires m > 0
    ensures ((a % m) * b) % m == (a * b) % m
  {
    var q, r := a / m, a % m;
    var q', r' := (r * b) / m, (r * b) % m;
    assert a * b == (m * q) * b + r * b;
    assert (m * q) * b == m * (q * b);
    assert a * b == m * (q * b + q') + r';
    RemainderIsUnique(a * b, m, q * b + q', r');
  }

  /** The configured percentage, 1 if it is less and 100 if it is more, of the limit in bytes, times 100. */
  function LimitTimesPercent(c: Config): (product: nat)
    ensures 1 <= c.workerThresholdPercent <= 100 ==> product == c.memoryLimitMb * 1048576 * c.workerThresholdPercent
    ensures c.workerThresholdPercent < 1 ==> product == c.memoryLimitMb * 1048576
    ensures c.workerThresholdPercent > 100 ==> product == c.memoryLimitMb * 1048576 * 100
  {
    c.memoryLimitMb * 1048576 * Percent(c)
  }

  /** The truncating test is the exact comparison of percentages, in wrapping 64-bit arithmetic. */
  lemma ThresholdWraps(c: Config, bytes: u64)
    ensures bytes > Threshold(c) <==> bytes * 100 > LimitTimesPercent(c) % 0x1_0000_0000_0000_0000
  {
    WrappedProduct(c.memoryLimitMb * 1048576, Percent(c), TWO_64);
    hide Percent;
    FloorTest(bytes, LimitTimesPercent(c) % TWO_64);
  }

  /** Up to a limit of 175921860444 MB the product fits 64 bits. */
  lemma LimitWithinBound(c: Config)
    requires c.memoryLimitMb <= 175921860444
    ensures LimitTimesPercent(c) < TWO_64
  {
    var limit, pct := c.memoryLimitMb * 1048576, Percent(c);
    assert limit * (100 - pct) >= 0;
    assert limit * pct == limit * 100 - limit * (100 - pct);
  }

  /** The figure is above the configured percentage of the limit: at least 1 percent, at most 100. */
  predicate Exceeds(bytes: u64, c: Config) {
    if c.workerThresholdPercent < 1 then bytes * 100 > c.memoryLimitMb * 1048576
    else if c.workerThresholdPercent > 100 then bytes > c.memoryLimitMb * 1048576
    else bytes * 100 > c.memoryLimitMb * 1048576 * c.workerThresholdPercent
  }

  /** While the product fits 64 bits the truncating test is the exact comparison with the configured percentage. */
  lemma ThresholdIsExact(c: Config, bytes: u64)
    requires LimitTimesPercent(c) < TWO_64
    ensures bytes > Threshold(c) <==> Exceeds(bytes, c)
  {
    ThresholdWraps(c, bytes);
    hide Threshold, Percent;
    SmallRemainder(LimitTimesPercent(c));
  }

  lemma SmallRemainder(n: nat)
    requires n < TWO_64
    ensures n % 0x1_0000_0000_0000_0000 == n
  {
  }

  /**
   After a reply a restart is due exactly when a figure just reported exceeds the percentage or the limit of
   requests is met.
   */
  lemma ReplyMakesDueExactly(w: WorkerState, c: Config, memory: u64, peak: u64, rss: u64, hwm: u64)
    requires w.pid.Some? && LimitTimesPercent(c) < TWO_64
    ensures ShouldRestart(Updated(w, memory, peak, Some(ProcMemory(rss, hwm))), c) <==>
            c.antiOomEnabled && (Exceeds(rss, c) || Exceeds(memory, c) || Exceeds(peak, c)
                                 || w.requestsHandled + 1 >= c.maxRequests)
  {
    hide Threshold, Percent, Exceeds, LimitTimesPercent;
    ThresholdIsExact(c, rss);
    ThresholdIsExact(c, memory);
    ThresholdIsExact(c, peak);
  }

  // ----- What holds whenever the mutex is free -----

  predicate Released(w: WorkerState) {
    && !w.draining
    && (w.process == None ==> w.pid == None && w.rssBytes == 0 && w.hwmBytes == 0)
    && (w.pid.Some? ==> w.process == w.pid)
  }

  /**
   Every critical section that starts in a released state ends in one, whatever the system reports, and leaves
   the in-flight count to the handlers.
   */
  lemma SectionsKeepReleased(w: WorkerState, health: Health, spawn: Option<ProcessId>, proc: Option<ProcMemory>,
                             memory: u64, peak: u64)
    requires Released(w)
    ensures Released(Refreshed(w, proc)) && Refreshed(w, proc).activeRequests == w.activeRequests
    ensures Released(Started(w, spawn, proc)) && Started(w, spawn, proc).activeRequests == w.activeRequests
    ensures Released(Stopped(w)) && Stopped(w).activeRequests == w.activeRequests
    ensures Released(Recycled(w, spawn, proc)) && Recycled(w, spawn, proc).activeRequests == w.activeRequests
    ensures var e := EnsuredRunning(w, health, spawn, proc); Released(e) && e.activeRequests == w.activeRequests
    ensures var u := Updated(w, memory, peak, proc); Released(u) && u.activeRequests == w.activeRequests
    ensures Released(NEW_WORKER) && forall n: nat :: Released(w.(activeRequests := n))
  {
  }

  /** No recycle asked for with the mutex newly taken is skipped: the count goes up and the old process is gone. */
  lemma RecycleIsNotSkipped(w: WorkerState, spawn: Option<ProcessId>, proc: Option<ProcMemory>)
    requires Released(w)
    ensures var r := Recycled(w, spawn, proc);
            && r.recycleCount == w.recycleCount + 1 && r.process == spawn
            && (spawn.Some? ==> r.requestsHandled == 0) && r.activeRequests == w.activeRequests
  {
  }

  /**
   A recycle with a successful spawn is not followed by another one at once, unless the new process is already
   too big.
   */
  lemma RecycledIsNotDue(w: WorkerState, c: Config, child: ProcessId, proc: Option<ProcMemory>)
    requires Released(w) && c.maxRequests > 0 && LimitTimesPercent(c) < TWO_64
    ensures ShouldRestart(Recycled(w, Some(child), proc), c) <==>
            c.antiOomEnabled && proc.Some? && Exceeds(proc.value.rss, c)
  {
    hide Threshold, Percent;
    ThresholdIsExact(c, Recycled(w, Some(child), proc).rssBytes);
  }

  class Worker {
    var process: Option<ProcessId>
    var pid: Option<ProcessId>
    var requestsHandled: nat
    var lastMemory: u64
    var lastPeak: u64
    var rssBytes: u64
    var hwmBytes: u64
    var activeRequests: nat
    var draining: bool
    var recycleCount: nat

    ghost function View(): WorkerState
      reads this
    {
      WorkerState(process, pid, requestsHandled, lastMemory, lastPeak, rssBytes, hwmBytes,
                  activeRequests, draining, recycleCount)
    }

    constructor ()
      ensures View() == NEW_WORKER
    {
      process, pid, requestsHandled, lastMemory, lastPeak := None, None, 0, 0, 0;
      rssBytes, hwmBytes, activeRequests, draining, recycleCount := 0, 0, 0, false, 0;
    }

    method RefreshProcMemory(memory: Option<ProcMemory>)
      modifies `rssBytes, `hwmBytes
      ensures View() == Refreshed(old(View()), memory)
      ensures (pid.Some? && memory.Some? ==> rssBytes == memory.value.rss && hwmBytes == memory.value.hwm)
      ensures (pid == None || memory == None ==> unchanged(this))
    {
      if pid.Some? {
        if memory.Some? {
          rssBytes := memory.value.rss;
          hwmBytes := memory.value.hwm;
        }
      }
    }

    /** start, with the outcome of the spawn and the first /proc reading given. */
    method Start(spawn: Option<ProcessId>, memory: Option<ProcMemory>) returns (ok: bool)
      modifies `process, `pid, `requestsHandled, `lastMemory, `lastPeak, `draining, `rssBytes, `hwmBytes
      ensures View() == Started(old(View()), spawn, memory) && ok == spawn.Some?
      ensures ok ==> process == pid == spawn && requestsHandled == 0 && lastMemory == lastPeak == 0 && !draining
      ensures ok && memory.Some? ==> rssBytes == memory.value.rss && hwmBytes == memory.value.hwm
      ensures ok && memory == None ==> unchanged(`rssBytes, `hwmBytes)
      ensures !ok ==> unchanged(this)
    {
      if spawn == None {
        return false;
      }
      pid := spawn;
      process := spawn;
      requestsHandled := 0;
      lastMemory := 0;
      lastPeak := 0;
      draining := false;
      RefreshProcMemory(memory);
      ok := true;
    }

    method Stop()
      modifies `process, `pid, `rssBytes, `hwmBytes
      ensures View() == Stopped(old(View()))
      ensures old(process).Some? ==> process == None && pid == None && rssBytes == 0 && hwmBytes == 0
      ensures old(process) == None ==> unchanged(this)
    {
      if process.Some? {
        process := None;
        pid := None;
        rssBytes := 0;
        hwmBytes := 0;
      }
    }

    /**
     graceful_recycle. The mutex is held throughout, so nobody lowers activeRequests while the loop waits: the
     wait is over at once or lasts the full two seconds.
     */
    method GracefulRecycle(spawn: Option<ProcessId>, memory: Option<ProcMemory>) returns (ok: bool, waitedMs: nat)
      modifies this
      ensures View() == Recycled(old(View()), spawn, memory)
      ensures !old(draining) ==> recycleCount == old(recycleCount) + 1 && process == spawn && !draining
      ensures old(draining) ==> unchanged(this)
      ensures unchanged(`activeRequests)
      ensures ok == (old(draining) || spawn.Some?)
      ensures waitedMs == RecycleWait(old(View()))
      ensures waitedMs == if old(draining) || old(activeRequests) == 0 then 0 else 2000
    {
      waitedMs := 0;
      if draining {
        return true, 0;
      }
      draining := true;
      while activeRequests > 0 && waitedMs < 2000
        invariant waitedMs <= 2000 && waitedMs % 20 == 0
        invariant activeRequests == 0 ==> waitedMs == 0
        decreases 2000 - waitedMs
      {
        waitedMs := waitedMs + 20;
      }
      Stop();
      recycleCount := recycleCount + 1;
      ok := Start(spawn, memory);
      draining := false;
    }

    method CheckHealth(health: Health) returns (alive: bool)
      modifies `pid
      ensures View() == Checked(old(View()), health) && alive == IsRunning(old(View()), health)
      ensures alive <==> process.Some? && health == Alive
      ensures pid == if process.Some? && health == Exited then None else old(pid)
    {
      if process.Some? {
        match health {
          case Exited =>
            pid := None;
            alive := false;
          case Alive => alive := true;
          case WaitFailed => alive := false;
        }
      } else {
        alive := false;
      }
    }

    method EnsureRunning(health: Health, spawn: Option<ProcessId>, memory: Option<ProcMemory>) returns (ok: bool)
      modifies this
      ensures View() == EnsuredRunning(old(View()), health, spawn, memory)
      ensures ok == (IsRunning(old(View()), health) || spawn.Some?)
      ensures old(process).Some? && health == Alive ==> ok && unchanged(this)
      ensures !(old(process).Some? && health == Alive) ==>
                ok == spawn.Some? && process == spawn && (ok ==> requestsHandled == 0)
      ensures unchanged(`activeRequests, `recycleCount)
    {
      var alive := CheckHealth(health);
      if !alive {
        Stop();
        ok := Start(spawn, memory);
      } else {
        ok := true;
      }
    }

    method RestartReason(c: Config) returns (reason: bool)
      ensures reason == ShouldRestart(View(), c)
      ensures LimitTimesPercent(c) < TWO_64 ==>
                (reason <==> c.antiOomEnabled && (Exceeds(rssBytes, c) || Exceeds(lastMemory, c)
                                                  || Exceeds(lastPeak, c) || requestsHandled >= c.maxRequests))
    {
      if LimitTimesPercent(c) < TWO_64 {
        ThresholdIsExact(c, rssBytes);
        ThresholdIsExact(c, lastMemory);
        ThresholdIsExact(c, lastPeak);
      }
      hide Threshold, LimitTimesPercent, Exceeds;
      if !c.antiOomEnabled {
        return false;
      }
      var threshold := Threshold(c);
      if rssBytes > threshold {
        return true;
      }
      if Max(lastMemory, lastPeak) > threshold {
        return true;
      }
      reason := requestsHandled >= c.maxRequests;
    }

    method UpdateStats(memory: u64, peak: u64, proc: Option<ProcMemory>)
      modifies `requestsHandled, `lastMemory, `lastPeak, `rssBytes, `hwmBytes
      ensures View() == Updated(old(View()), memory, peak, proc)
      ensures requestsHandled == old(requestsHandled) + 1 && lastMemory == memory && lastPeak == peak
      ensures pid.Some? && proc.Some? ==> rssBytes == proc.value.rss && hwmBytes == proc.value.hwm
      ensures pid == None || proc == None ==> unchanged(`rssBytes, `hwmBytes)
    {
      requestsHandled := requestsHandled + 1;
      lastMemory := memory;
      lastPeak := peak;
      RefreshProcMemory(proc);
    }
  }
}
