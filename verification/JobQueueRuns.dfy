/**
 Any number of submitters and the one background consumer of main.rs, interleaved critical section by critical
 section. A fresh submission has an id not in the table.
 */
module JobQueueRuns {
  import opened Bytes
  import opened JobQueue
  import opened Sequences
  import opened Wrappers

  /** Where the consumer stands between two polls. */
  datatype Consumer = Idle | Dequeued(id: JobId) | Marked(id: JobId) | Fetched(id: JobId, job: Job)

  /**
   The two locked structures, the submissions between their two sections, the consumer, and three histories:
   the ids in the order of push_back, the ids brought to an end, and the ids dropped because no job was found.
   */
  datatype State = State(jobs: Jobs, queue: seq<JobId>, submitting: set<JobId>, consumer: Consumer,
                         pushed: seq<JobId>, processed: seq<JobId>, dropped: seq<JobId>)

  const INIT: State := State(map[], [], {}, Idle, [], [], [])

  datatype Step =
    | Insert(id: JobId, task: text, payload: text, now: text)
    | Push(id: JobId)
    | Poll
    | Mark
    | Fetch
    | Complete(result: text, now: text)
    | Fail(error: text, now: text)

  predicate Enabled(s: State, step: Step) {
    match step
    case Insert(id, _, _, _) => id !in s.jobs
    case Push(id) => id in s.submitting
    case Poll => s.consumer.Idle?
    case Mark => s.consumer.Dequeued?
    case Fetch => s.consumer.Marked?
    case Complete(_, _) => s.consumer.Fetched?
    case Fail(_, _) => s.consumer.Fetched?
  }

  function Next(s: State, step: Step): State
    requires Enabled(s, step)
  {
    match step
    case Insert(id, task, payload, now) =>
      s.(jobs := s.jobs[id := NewJob(task, payload, now)], submitting := s.submitting + {id})
    case Push(id) =>
      s.(queue := s.queue + [id], submitting := s.submitting - {id}, pushed := s.pushed + [id])
    case Poll =>
      if s.queue == [] then s else s.(queue := s.queue[1..], consumer := Dequeued(s.queue[0]))
    case Mark =>
      s.(jobs := WithProcessing(s.jobs, s.consumer.id), consumer := Marked(s.consumer.id))
    case Fetch =>
      var id := s.consumer.id;
      if id in s.jobs then s.(consumer := Fetched(id, s.jobs[id]))
      else s.(consumer := Idle, dropped := s.dropped + [id])
    case Complete(result, now) =>
      s.(jobs := WithCompleted(s.jobs, s.consumer.id, result, now), consumer := Idle,
         processed := s.processed + [s.consumer.id])
    case Fail(error, now) =>
      s.(jobs := WithFailed(s.jobs, s.consumer.id, error, now), consumer := Idle,
         processed := s.processed + [s.consumer.id])
  }

  predicate Runs(s: State, steps: seq<Step>)
    decreases |steps|
  {
    steps != [] ==> Enabled(s, steps[0]) && Runs(Next(s, steps[0]), steps[1..])
  }

  function After(s: State, steps: seq<Step>): State
    requires Runs(s, steps)
    decreases |steps|
  {
    if steps == [] then s else After(Next(s, steps[0]), steps[1..])
  }

  // ----- The invariant -----

  function InHand(c: Consumer): seq<JobId> {
    if c.Idle? then [] else [c.id]
  }

  predicate Untouched(job: Job) {
    job.status == Pending && job.completedAt == None && job.result == None
  }

  predicate InProgress(job: Job) {
    job.status == Processing && job.completedAt == None && job.result == None
  }

  predicate Ended(job: Job) {
    job.completedAt.Some? && (if job.result.Some? then job.status == Completed else job.status.Failed?)
  }

  /** What the table says of an id depends only on where the id is. */
  predicate StatusFits(s: State, id: JobId)
    requires id in s.jobs
  {
    if id in s.processed then Ended(s.jobs[id])
    else if s.consumer == Marked(id) || (s.consumer.Fetched? && s.consumer.id == id) then InProgress(s.jobs[id])
    else Untouched(s.jobs[id])
  }

  ghost predicate Inv(s: State) {
    && s.processed + InHand(s.consumer) + s.queue == s.pushed
    && Distinct(s.pushed)
    && (forall id :: id in s.submitting ==> id !in s.pushed)
    && (forall id: JobId :: id in s.jobs <==> id in s.submitting || id in s.pushed)
    && (forall id :: id in s.jobs ==> StatusFits(s, id))
    && (s.consumer.Fetched? ==> s.consumer.id in s.jobs && s.consumer.job == s.jobs[s.consumer.id])
    && s.dropped == []
  }

  lemma PushKeepsInv(s: State, id: JobId)
    requires Inv(s) && id in s.submitting
    ensures Inv(Next(s, Push(id)))
  {
    var s' := Next(s, Push(id));
    assert s'.processed + InHand(s'.consumer) + s'.queue == s'.pushed;
    assert forall i :: i in s'.pushed <==> i in s.pushed || i == id;
    assert id !in s.processed by {
      assert forall i :: i in s.processed ==> i in s.pushed by { PartsArePushed(s); }
    }
  }

  lemma PartsArePushed(s: State)
    requires Inv(s)
    ensures forall i :: i in s.processed ==> i in s.pushed
    ensures forall i :: i in s.queue ==> i in s.pushed
    ensures !s.consumer.Idle? ==> s.consumer.id in s.pushed && s.consumer.id !in s.processed
    ensures forall i :: i in s.queue ==> i !in s.processed
    ensures !s.consumer.Idle? ==> s.consumer.id !in s.queue
  {
    PartsOfDistinct(s.processed, InHand(s.consumer), s.queue, s.pushed);
    hide Inv, Distinct;
    if !s.consumer.Idle? {
      assert InHand(s.consumer)[0] == s.consumer.id;
    }
  }

  lemma PartsOfDistinct(a: seq<JobId>, b: seq<JobId>, c: seq<JobId>, all: seq<JobId>)
    requires a + b + c == all && Distinct(all)
    ensures forall i :: i in a || i in b || i in c ==> i in all
    ensures forall i :: i in a ==> i !in b && i !in c
    ensures forall i :: i in b ==> i !in c
  {
    assert forall k :: 0 <= k < |a| ==> all[k] == a[k];
    assert forall k :: 0 <= k < |b| ==> all[|a| + k] == b[k];
    assert forall k :: 0 <= k < |c| ==> all[|a| + |b| + k] == c[k];
  }

  lemma InsertKeepsInv(s: State, id: JobId, task: text, payload: text, now: text)
    requires Inv(s) && id !in s.jobs
    ensures Inv(Next(s, Insert(id, task, payload, now)))
  {
    PartsArePushed(s);
  }

  lemma PollKeepsInv(s: State)
    requires Inv(s) && s.consumer.Idle?
    ensures Inv(Next(s, Poll))
  {
    PartsArePushed(s);
    var s' := Next(s, Poll);
    if s.queue != [] {
      assert s.queue == [s.queue[0]] + s.queue[1..];
      assert s'.processed + InHand(s'.consumer) + s'.queue == s.pushed;
    }
  }

  lemma MarkKeepsInv(s: State)
    requires Inv(s) && s.consumer.Dequeued?
    ensures Inv(Next(s, Mark))
  {
    PartsArePushed(s);
    var s' := Next(s, Mark);
    assert InHand(s'.consumer) == InHand(s.consumer);
  }

  /** The job of a dequeued id is always found: its insertion is complete before its id is pushed. */
  lemma FetchKeepsInv(s: State)
    requires Inv(s) && s.consumer.Marked?
    ensures s.consumer.id in s.jobs && Inv(Next(s, Fetch))
  {
    PartsArePushed(s);
    var s' := Next(s, Fetch);
    assert InHand(s'.consumer) == InHand(s.consumer);
  }

  lemma EndKeepsInv(s: State, jobs: Jobs)
    requires Inv(s) && s.consumer.Fetched?
    requires jobs.Keys == s.jobs.Keys && s.consumer.id in jobs && Ended(jobs[s.consumer.id])
    requires forall id :: id in jobs && id != s.consumer.id ==> jobs[id] == s.jobs[id]
    ensures Inv(s.(jobs := jobs, consumer := Idle, processed := s.processed + [s.consumer.id]))
  {
    PartsArePushed(s);
    var s' := s.(jobs := jobs, consumer := Idle, processed := s.processed + [s.consumer.id]);
    assert s'.processed + InHand(s'.consumer) + s'.queue == s.pushed;
    forall id | id in s'.jobs
      ensures StatusFits(s', id)
    {
      assert id in s.jobs && StatusFits(s, id);
    }
  }

  lemma NextKeepsInv(s: State, step: Step)
    requires Inv(s) && Enabled(s, step)
    ensures Inv(Next(s, step))
  {
    match step
    case Insert(id, task, payload, now) => InsertKeepsInv(s, id, task, payload, now);
    case Push(id) => PushKeepsInv(s, id);
    case Poll => PollKeepsInv(s);
    case Mark => MarkKeepsInv(s);
    case Fetch => FetchKeepsInv(s);
    case Complete(result, now) =>
      PartsArePushed(s);
      EndKeepsInv(s, WithCompleted(s.jobs, s.consumer.id, result, now));
    case Fail(error, now) =>
      PartsArePushed(s);
      EndKeepsInv(s, WithFailed(s.jobs, s.consumer.id, error, now));
  }

  lemma {:induction false} RunKeepsInv(s: State, steps: seq<Step>)
    requires Inv(s) && Runs(s, steps)
    ensures Inv(After(s, steps))
    decreases |steps|
  {
    hide Inv, Next;
    if steps != [] {
      NextKeepsInv(s, steps[0]);
      RunKeepsInv(Next(s, steps[0]), steps[1..]);
    }
  }

  // ----- Main results, for every interleaving -----

  /** The ids that the run pushes, in order, and the number of jobs it brings to an end. */
  function Pushes(steps: seq<Step>): seq<JobId> {
    if steps == [] then []
    else (if steps[0].Push? then [steps[0].id] else []) + Pushes(steps[1..])
  }

  function Ends(steps: seq<Step>): nat {
    if steps == [] then 0
    else (if steps[0].Complete? || steps[0].Fail? then 1 else 0) + Ends(steps[1..])
  }

  lemma {:induction false} HistoriesOfRun(s: State, steps: seq<Step>)
    requires Runs(s, steps)
    ensures After(s, steps).pushed == s.pushed + Pushes(steps)
    ensures |After(s, steps).processed| == |s.processed| + Ends(steps)
    decreases |steps|
  {
    hide Next, Enabled;
    if steps != [] {
      HistoriesOfStep(s, steps[0]);
      HistoriesOfRun(Next(s, steps[0]), steps[1..]);
    }
  }

  lemma HistoriesOfStep(s: State, step: Step)
    requires Enabled(s, step)
    ensures Next(s, step).pushed == s.pushed + (if step.Push? then [step.id] else [])
    ensures |Next(s, step).processed| == |s.processed| + (if step.Complete? || step.Fail? then 1 else 0)
  {
  }

  /**
   Exactly once and first come first served: the ids ended, the id in hand and the ids queued are, in this
   order, the ids in the order they were pushed, none twice; and no dequeued id is dropped.
   */
  lemma ExactlyOnceInOrder(steps: seq<Step>)
    requires Runs(INIT, steps)
    ensures var s := After(INIT, steps);
            && s.processed + InHand(s.consumer) + s.queue == s.pushed && Distinct(s.pushed) && s.dropped == []
            && s.pushed == Pushes(steps) && |s.processed| == Ends(steps)
  {
    RunKeepsInv(INIT, steps);
    HistoriesOfRun(INIT, steps);
  }

  /** When the consumer is idle and the queue empty, every pushed job has ended, each once. */
  lemma DrainedQueueIsFinished(steps: seq<Step>)
    requires Runs(INIT, steps)
    requires After(INIT, steps).consumer.Idle? && After(INIT, steps).queue == []
    ensures var s := After(INIT, steps);
            && s.processed == s.pushed
            && forall id :: id in s.pushed ==> id in s.jobs && Ended(s.jobs[id])
  {
    RunKeepsInv(INIT, steps);
    var s := After(INIT, steps);
    assert s.processed + [] + [] == s.processed;
  }

  /** Conservation: every job of the table is being submitted, queued, in the consumer's hand, or ended. */
  lemma JobsAreConserved(steps: seq<Step>)
    requires Runs(INIT, steps)
    ensures var s := After(INIT, steps);
            && |s.jobs| == |s.submitting| + |s.queue| + |InHand(s.consumer)| + |s.processed|
            && |InHand(s.consumer)| <= 1
  {
    RunKeepsInv(INIT, steps);
    var s := After(INIT, steps);
    DistinctCount(s.pushed);
    assert s.jobs.Keys == s.submitting + Elements(s.pushed);
    assert s.submitting !! Elements(s.pushed);
    assert |s.jobs| == |s.jobs.Keys|;
    assert |s.pushed| == |s.processed| + |InHand(s.consumer)| + |s.queue|;
  }

  // ----- Life cycle -----

  function Rank(status: JobStatus): nat {
    match status
    case Pending => 0
    case Processing => 1
    case Completed => 2
    case Failed(_) => 2
  }

  /** A job moves forward only, an ended job stays as it is, and its task, payload and creation time are kept. */
  predicate Forward(a: Job, b: Job) {
    && Rank(a.status) <= Rank(b.status)
    && (Rank(a.status) == 2 ==> a == b)
    && a.task == b.task && a.payload == b.payload && a.createdAt == b.createdAt
  }

  predicate AllForward(a: Jobs, b: Jobs) {
    forall id :: id in a ==> id in b && Forward(a[id], b[id])
  }

  /** The table changes at one id at most, and there forward by at most one stage. */
  lemma MovesAtOneId(a: Jobs, b: Jobs, id: JobId)
    requires id in a ==> id in b && Forward(a[id], b[id]) && Rank(b[id].status) <= Rank(a[id].status) + 1
    requires forall other :: other in a && other != id ==> other in b && b[other] == a[other]
    ensures AllForward(a, b)
    ensures forall other :: other in a ==> Rank(b[other].status) <= Rank(a[other].status) + 1
  {
    hide Rank;
  }

  /** One step moves at most one job, and by one stage. */
  lemma NextMovesForward(s: State, step: Step)
    requires Inv(s) && Enabled(s, step)
    ensures AllForward(s.jobs, Next(s, step).jobs)
    ensures forall id :: id in s.jobs ==> Rank(Next(s, step).jobs[id].status) <= Rank(s.jobs[id].status) + 1
  {
    PartsArePushed(s);
    if !s.consumer.Idle? {
      assert StatusFits(s, s.consumer.id);
    }
    assert step.Insert? ==> step.id !in s.jobs;
    hide Inv, AllForward;
    var id := if step.Insert? then step.id else if s.consumer.Idle? then 0 else s.consumer.id;
    MovesAtOneId(s.jobs, Next(s, step).jobs, id);
  }

  lemma {:induction false} RunMovesForward(s: State, steps: seq<Step>)
    requires Inv(s) && Runs(s, steps)
    ensures AllForward(s.jobs, After(s, steps).jobs)
    decreases |steps|
  {
    hide Inv, Next;
    if steps != [] {
      NextKeepsInv(s, steps[0]);
      NextMovesForward(s, steps[0]);
      RunMovesForward(Next(s, steps[0]), steps[1..]);
    }
  }

  lemma {:induction false} RunsInParts(s: State, steps: seq<Step>, i: nat)
    requires i <= |steps| && Runs(s, steps)
    ensures Runs(s, steps[..i]) && Runs(After(s, steps[..i]), steps[i..])
    ensures After(s, steps) == After(After(s, steps[..i]), steps[i..])
    decreases i
  {
    hide Next;
    if i == 0 {
      assert steps[..0] == [] && steps[0..] == steps;
    } else {
      assert steps[..i][1..] == steps[1..][..i - 1];
      assert steps[i..] == steps[1..][i - 1..];
      RunsInParts(Next(s, steps[0]), steps[1..], i - 1);
    }
  }

  lemma InitKeepsInv()
    ensures Inv(INIT)
  {
  }

  /** Between any two moments of any run every job only moves forward, and an ended job never changes. */
  lemma LifeCycle(steps: seq<Step>, i: nat)
    requires i <= |steps| && Runs(INIT, steps) && Runs(INIT, steps[..i])
    ensures AllForward(After(INIT, steps[..i]).jobs, After(INIT, steps).jobs)
  {
    hide Inv, Next, Enabled, AllForward;
    InitKeepsInv();
    RunsInParts(INIT, steps, i);
    RunKeepsInv(INIT, steps[..i]);
    RunMovesForward(After(INIT, steps[..i]), steps[i..]);
  }

  /** In every reachable state completed_at is set exactly on ended jobs and result exactly on completed ones. */
  lemma FieldsFollowStatus(steps: seq<Step>, id: JobId)
    requires Runs(INIT, steps) && id in After(INIT, steps).jobs
    ensures var job := After(INIT, steps).jobs[id];
            (job.completedAt.Some? <==> Rank(job.status) == 2) && (job.result.Some? <==> job.status == Completed)
  {
    hide Next, Enabled, Runs, After;
    RunKeepsInv(INIT, steps);
    assert StatusFits(After(INIT, steps), id);
  }

  lemma StepOfRun(steps: seq<Step>, i: nat)
    requires i < |steps| && Runs(INIT, steps)
    ensures Runs(INIT, steps[..i]) && Enabled(After(INIT, steps[..i]), steps[i])
    ensures Runs(INIT, steps[..i + 1]) && After(INIT, steps[..i + 1]) == Next(After(INIT, steps[..i]), steps[i])
  {
    RunsInParts(INIT, steps, i);
    RunsInParts(INIT, steps, i + 1);
    RunsInParts(INIT, steps[..i + 1], i);
    assert steps[..i + 1][..i] == steps[..i] && steps[..i + 1][i..] == [steps[i]] && [steps[i]][1..] == [];
    hide Next, Enabled;
    assert steps[i..][0] == steps[i];
  }

  /**
   What was submitted under an id stays: to the end of the run the job has that task and payload and that time of
   creation, and the handler is given just these, once the job is being processed.
   */
  lemma HandlerGetsTheSubmittedJob(steps: seq<Step>, i: nat, id: JobId, task: text, payload: text, now: text)
    requires i < |steps| && Runs(INIT, steps) && steps[i] == Insert(id, task, payload, now)
    ensures var s := After(INIT, steps);
            && id in s.jobs
            && s.jobs[id].task == task && s.jobs[id].payload == payload && s.jobs[id].createdAt == now
            && (s.consumer.Fetched? && s.consumer.id == id ==>
                  var given := s.consumer.job;
                  given.task == task && given.payload == payload && given.status == Processing)
  {
    hide Runs, After, Next, Enabled, Inv, AllForward;
    StepOfRun(steps, i);
    JobOfInsert(After(INIT, steps[..i]), steps[i]);
    LaterJobs(steps, i + 1, id);
    InitKeepsInv();
    RunKeepsInv(INIT, steps);
    if After(INIT, steps).consumer.Fetched? && After(INIT, steps).consumer.id == id {
      JobInHand(After(INIT, steps));
    }
  }

  lemma JobOfInsert(s: State, step: Step)
    requires Enabled(s, step) && step.Insert?
    ensures step.id in Next(s, step).jobs
    ensures Next(s, step).jobs[step.id] == Job(step.task, step.payload, Pending, step.now, None, None)
  {
  }

  /** LifeCycle for one job. */
  lemma LaterJobs(steps: seq<Step>, i: nat, id: JobId)
    requires i <= |steps| && Runs(INIT, steps) && Runs(INIT, steps[..i]) && id in After(INIT, steps[..i]).jobs
    ensures id in After(INIT, steps).jobs
    ensures Forward(After(INIT, steps[..i]).jobs[id], After(INIT, steps).jobs[id])
  {
    hide Runs, After;
    LifeCycle(steps, i);
  }

  lemma JobInHand(s: State)
    requires Inv(s) && s.consumer.Fetched?
    ensures s.consumer.id in s.jobs && s.consumer.job == s.jobs[s.consumer.id] && s.consumer.job.status == Processing
  {
    PartsArePushed(s);
    assert StatusFits(s, s.consumer.id);
  }

  /** A job's end stays too: the outcome and the time that the consumer gave it, to the end of the run. */
  lemma OutcomeIsKept(steps: seq<Step>, i: nat)
    requires i < |steps| && Runs(INIT, steps) && Runs(INIT, steps[..i])
    ensures var hand, jobs := After(INIT, steps[..i]).consumer, After(INIT, steps).jobs;
            match steps[i]
            case Complete(result, now) =>
              && hand.Fetched? && hand.id in jobs && jobs[hand.id].status == Completed
              && jobs[hand.id].result == Some(result) && jobs[hand.id].completedAt == Some(now)
            case Fail(error, now) =>
              && hand.Fetched? && hand.id in jobs && jobs[hand.id].status == Failed(error)
              && jobs[hand.id].result == None && jobs[hand.id].completedAt == Some(now)
            case _ => true
  {
    if steps[i].Complete? || steps[i].Fail? {
      hide Runs, After, Next, Enabled, Inv;
      StepOfRun(steps, i);
      InitKeepsInv();
      RunKeepsInv(INIT, steps[..i]);
      var before := After(INIT, steps[..i]);
      EndOfJob(before, steps[i]);
      LaterJobs(steps, i + 1, before.consumer.id);
    }
  }

  lemma EndOfJob(s: State, step: Step)
    requires Inv(s) && Enabled(s, step) && (step.Complete? || step.Fail?)
    ensures s.consumer.Fetched?
    ensures var id, jobs := s.consumer.id, Next(s, step).jobs;
            && id in jobs && jobs[id].completedAt == Some(step.now) && Rank(jobs[id].status) == 2
            && (step.Complete? ==> jobs[id].status == Completed && jobs[id].result == Some(step.result))
            && (step.Fail? ==> jobs[id].status == Failed(step.error) && jobs[id].result == None)
  {
    PartsArePushed(s);
    assert StatusFits(s, s.consumer.id);
  }

  // ----- Draining -----

  /** One job from the queue to its end, successful or not. */
  function Round(end: Step): seq<Step> {
    [] + [Poll] + [Mark] + [Fetch] + [end]
  }

  function Rounds(ends: seq<Step>): seq<Step> {
    if ends == [] then [] else Round(ends[0]) + Rounds(ends[1..])
  }

  predicate AreEnds(ends: seq<Step>) {
    forall i :: 0 <= i < |ends| ==> ends[i].Complete? || ends[i].Fail?
  }

  lemma {:induction false} RunsTogether(s: State, a: seq<Step>, b: seq<Step>)
    requires Runs(s, a) && Runs(After(s, a), b)
    ensures Runs(s, a + b) && After(s, a + b) == After(After(s, a), b)
    decreases |a|
  {
    hide Next, Enabled;
    if a == [] {
      assert a + b == b;
    } else {
      assert (a + b)[1..] == a[1..] + b;
      RunsTogether(Next(s, a[0]), a[1..], b);
    }
  }

  lemma OneMore(s: State, a: seq<Step>, t: State, step: Step)
    requires Runs(s, a) && After(s, a) == t && Enabled(t, step)
    ensures Runs(s, a + [step]) && After(s, a + [step]) == Next(t, step)
  {
    hide Next, Enabled;
    assert [step][1..] == [];
    RunsTogether(s, a, [step]);
  }

  /** A section of the consumer goes on with the same id and leaves the queue and the ended ids alone. */
  predicate SameHand(s: State, s': State, id: JobId) {
    InHand(s'.consumer) == [id] && s'.queue == s.queue && s'.processed == s.processed
  }

  lemma PollRound(s: State)
    requires Inv(s) && s.consumer.Idle? && s.queue != []
    ensures Enabled(s, Poll) && Inv(Next(s, Poll)) && Next(s, Poll).consumer == Dequeued(s.queue[0])
    ensures Next(s, Poll).queue == s.queue[1..] && Next(s, Poll).processed == s.processed
  {
    PollKeepsInv(s);
    hide Inv;
  }

  lemma MarkRound(s: State)
    requires Inv(s) && s.consumer.Dequeued?
    ensures Enabled(s, Mark) && Inv(Next(s, Mark)) && Next(s, Mark).consumer.Marked?
    ensures SameHand(s, Next(s, Mark), s.consumer.id)
  {
    MarkKeepsInv(s);
    hide Inv;
  }

  lemma FetchRound(s: State)
    requires Inv(s) && s.consumer.Marked?
    ensures Enabled(s, Fetch) && Inv(Next(s, Fetch)) && Next(s, Fetch).consumer.Fetched?
    ensures SameHand(s, Next(s, Fetch), s.consumer.id)
  {
    FetchKeepsInv(s);
    hide Inv;
  }

  lemma EndRound(s: State, end: Step)
    requires Inv(s) && s.consumer.Fetched? && (end.Complete? || end.Fail?)
    ensures Enabled(s, end) && Inv(Next(s, end)) && Next(s, end).consumer.Idle?
    ensures Next(s, end).queue == s.queue && Next(s, end).processed == s.processed + [s.consumer.id]
  {
    NextKeepsInv(s, end);
    hide Inv;
  }

  lemma OneRound(s: State, end: Step)
    requires Inv(s) && s.consumer.Idle? && s.queue != [] && (end.Complete? || end.Fail?)
    ensures Runs(s, Round(end))
    ensures var s' := After(s, Round(end));
            && s'.consumer.Idle? && s'.queue == s.queue[1..] && s'.processed == s.processed + [s.queue[0]] && Inv(s')
  {
    hide Inv, Next, Enabled, Runs, After;
    PollRound(s);
    var s1 := Next(s, Poll);
    MarkRound(s1);
    var s2 := Next(s1, Mark);
    FetchRound(s2);
    var s3 := Next(s2, Fetch);
    EndRound(s3, end);
    NothingRun(s);
    OneMore(s, [], s, Poll);
    OneMore(s, [] + [Poll], s1, Mark);
    OneMore(s, [] + [Poll] + [Mark], s2, Fetch);
    OneMore(s, [] + [Poll] + [Mark] + [Fetch], s3, end);
  }

  lemma NothingRun(s: State)
    ensures Runs(s, []) && After(s, []) == s
  {
  }

  /**
   An idle consumer that has its way for as many rounds as ids are queued brings them all to an end in order,
   whatever the outcomes, and leaves the queue empty.
   */
  lemma {:induction false} ConsumerDrains(s: State, ends: seq<Step>)
    requires Inv(s) && s.consumer.Idle? && |ends| == |s.queue| && AreEnds(ends)
    ensures Runs(s, Rounds(ends))
    ensures var s' := After(s, Rounds(ends));
            s'.queue == [] && s'.consumer.Idle? && s'.processed == s.processed + s.queue
    decreases |ends|
  {
    hide Inv, Next, Enabled, Round;
    if ends != [] {
      OneRound(s, ends[0]);
      var s' := After(s, Round(ends[0]));
      ConsumerDrains(s', ends[1..]);
      RunsTogether(s, Round(ends[0]), Rounds(ends[1..]));
      assert s.queue == [s.queue[0]] + s.queue[1..];
      assert s.processed + [s.queue[0]] + s.queue[1..] == s.processed + s.queue;
    }
  }

  /** Any run whose consumer is idle can go on to an empty queue, all ids pushed so far ended in order. */
  lemma QueueCanDrain(steps: seq<Step>, ends: seq<Step>)
    requires Runs(INIT, steps) && After(INIT, steps).consumer.Idle?
    requires |ends| == |After(INIT, steps).queue| && AreEnds(ends)
    ensures Runs(INIT, steps + Rounds(ends))
    ensures var s' := After(INIT, steps + Rounds(ends));
            s'.queue == [] && s'.consumer.Idle? && s'.processed == Pushes(steps)
  {
    hide Inv, Next, Enabled, Rounds, Runs, After, Pushes, Ends, Distinct, AreEnds;
    var s := After(INIT, steps);
    ExactlyOnceInOrder(steps);
    assert s.processed + [] == s.processed;
    InitKeepsInv();
    RunKeepsInv(INIT, steps);
    ConsumerDrains(s, ends);
    RunsTogether(INIT, steps, Rounds(ends));
  }
}
