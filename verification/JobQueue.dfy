/** The scheduler's FIFO of pending jobs. The slice is a sequence the methods reassign. */
module JobQueues {
  import opened Sequences
  import opened Wrappers

  type JobId = string

  datatype QueuedJob = QueuedJob(id: JobId, enqueuedAt: int)

  /** The position of the first job with this id, or the length when there is none. */
  function IndexOf(jobs: seq<QueuedJob>, id: JobId): (i: nat)
    ensures i <= |jobs|
    ensures forall j :: 0 <= j < i ==> jobs[j].id != id
    ensures i < |jobs| ==> jobs[i].id == id
  {
    if jobs == [] || jobs[0].id == id then 0 else 1 + IndexOf(jobs[1..], id)
  }

  class JobQueue {
    var jobs: seq<QueuedJob>

    constructor ()
      ensures jobs == []
    {
      jobs := [];
    }

    method Enqueue(job: Option<QueuedJob>)
      modifies this
      ensures jobs == old(jobs) + if job.Some? then [job.value] else []
    {
      if job.None? {
        return;
      }
      jobs := jobs + [job.value];
    }

    method Dequeue() returns (job: Option<QueuedJob>)
      modifies this
      ensures old(jobs) == [] ==> job.None? && jobs == []
      ensures old(jobs) != [] ==> job.Some? && [job.value] + jobs == old(jobs)
    {
      if |jobs| == 0 {
        return None;
      }
      job := Some(jobs[0]);
      jobs := jobs[1..];
    }

    method Peek() returns (job: Option<QueuedJob>)
      ensures job == if jobs == [] then None else Some(jobs[0])
    {
      job := if |jobs| == 0 then None else Some(jobs[0]);
    }

    method Len() returns (n: nat)
      ensures n == |jobs|
    {
      n := |jobs|;
    }

    /** Drops the first job with this id and keeps everything else in order. */
    method Remove(id: JobId) returns (found: bool)
      modifies this
      ensures found <==> exists k :: 0 <= k < |old(jobs)| && old(jobs)[k].id == id
      ensures var i := IndexOf(old(jobs), id);
        jobs == if found then RemoveAt(old(jobs), i) else old(jobs)
    {
      for i := 0 to |jobs|
        invariant jobs == old(jobs)
        invariant forall k :: 0 <= k < i ==> jobs[k].id != id
      {
        if jobs[i].id == id {
          assert IndexOf(jobs, id) == i;
          jobs := jobs[..i] + jobs[i + 1..];
          return true;
        }
      }
      return false;
    }

    method Clear()
      modifies this
      ensures jobs == []
    {
      jobs := jobs[..0];
    }

    method GetAll() returns (result: seq<QueuedJob>)
      ensures result == jobs
    {
      result := jobs;
    }
  }
}
