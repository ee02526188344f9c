/** The job queue of queue.rs: a job table and a queue of ids, each behind its own lock. */
module JobQueue {
  import opened Bytes
  import opened Wrappers

  type JobId = nat

  datatype JobStatus = Pending | Processing | Completed | Failed(error: text)

  datatype Job = Job(task: text, payload: text, status: JobStatus, createdAt: text,
                     completedAt: Option<text>, result: Option<text>)

  type Jobs = map<JobId, Job>

  function NewJob(task: text, payload: text, now: text): Job {
    Job(task, payload, Pending, now, None, None)
  }

  function WithProcessing(jobs: Jobs, id: JobId): Jobs {
    if id in jobs then jobs[id := jobs[id].(status := Processing)] else jobs
  }

  function WithCompleted(jobs: Jobs, id: JobId, result: text, now: text): Jobs {
    if id in jobs then jobs[id := jobs[id].(status := Completed, result := Some(result), completedAt := Some(now))]
    else jobs
  }

  function WithFailed(jobs: Jobs, id: JobId, error: text, now: text): Jobs {
    if id in jobs then jobs[id := jobs[id].(status := Failed(error), completedAt := Some(now))] else jobs
  }

  /** Each method is one critical section; submit has two, one for each lock. */
  class JobQueue {
    var jobs: Jobs
    var queue: seq<JobId>

    constructor ()
      ensures jobs == map[] && queue == []
    {
      jobs := map[];
      queue := [];
    }

    method SubmitInsert(id: JobId, task: text, payload: text, now: text)
      modifies this`jobs
      ensures jobs == old(jobs)[id := NewJob(task, payload, now)]
      ensures jobs[id] == Job(task, payload, Pending, now, None, None)
    {
      var job := Job(task, payload, Pending, now, None, None);
      jobs := jobs[id := job];
    }

    method SubmitPush(id: JobId)
      modifies this`queue
      ensures queue == old(queue) + [id]
    {
      queue := queue + [id];
    }

    method GetStatus(id: JobId) returns (job: Option<Job>)
      ensures job == if id in jobs then Some(jobs[id]) else None
    {
      job := None;
      if id in jobs {
        job := Some(jobs[id]);
      }
    }

    method Dequeue() returns (id: Option<JobId>)
      modifies this`queue
      ensures old(queue) == [] ==> id == None && queue == []
      ensures old(queue) != [] ==> id == Some(old(queue)[0]) && queue == old(queue)[1..]
    {
      id := None;
      if queue != [] {
        id := Some(queue[0]);
        queue := queue[1..];
      }
    }

    method MarkProcessing(id: JobId)
      modifies this`jobs
      ensures jobs == WithProcessing(old(jobs), id)
      ensures id !in old(jobs) ==> unchanged(this)
      ensures id in old(jobs) ==> jobs == old(jobs)[id := old(jobs)[id].(status := Processing)]
    {
      if id in jobs {
        var job := jobs[id];
        jobs := jobs[id := job.(status := Processing)];
      }
    }

    method MarkCompleted(id: JobId, result: text, now: text)
      modifies this`jobs
      ensures jobs == WithCompleted(old(jobs), id, result, now)
      ensures id !in old(jobs) ==> unchanged(this)
      ensures id in old(jobs) ==>
                var job := old(jobs)[id];
                jobs == old(jobs)[id := Job(job.task, job.payload, Completed, job.createdAt, Some(now), Some(result))]
    {
      if id in jobs {
        var job := jobs[id];
        job := job.(status := Completed);
        job := job.(result := Some(result));
        job := job.(completedAt := Some(now));
        jobs := jobs[id := job];
      }
    }

    method MarkFailed(id: JobId, error: text, now: text)
      modifies this`jobs
      ensures jobs == WithFailed(old(jobs), id, error, now)
      ensures id !in old(jobs) ==> unchanged(this)
      ensures id in old(jobs) ==>
                var job := old(jobs)[id];
                jobs == old(jobs)[id := Job(job.task, job.payload, Failed(error), job.createdAt, Some(now), job.result)]
    {
      if id in jobs {
        var job := jobs[id];
        job := job.(status := Failed(error));
        job := job.(completedAt := Some(now));
        jobs := jobs[id := job];
      }
    }
  }
}
