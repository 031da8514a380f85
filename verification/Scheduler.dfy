/** Placement of jobs: immediate scheduling, the retry queue, and draining after completions.
    The heuristic and the runtime lookup are an arbitrary function of the number of the
    attempt, the job and the queue count it is told. */
module Scheduling {
  import opened Wrappers
  import opened JobQueues

  /** scheduleJob's ending: a goroutine runs the job, every match is busy, nothing matches
      at all, or any other failure of the heuristic or the runtime lookup. */
  datatype Outcome = Placed | AllBusy | NoCompatible | Failed

  type Heuristic = (nat, JobId, int) -> Outcome

  /** The queue, the jobs whose goroutines were started, and the attempts made so far. */
  datatype State = State(queue: seq<QueuedJob>, started: seq<JobId>, attempts: nat)

  function Attempt(s: State, id: JobId, outcome: Outcome): State {
    s.(attempts := s.attempts + 1, started := s.started + if outcome.Placed? then [id] else [])
  }

  /** TryScheduleNext: peek, attempt, and dequeue unless the runtimes are still busy. */
  function Try(h: Heuristic, s: State): (State, bool) {
    if s.queue == [] then (s, false)
    else
      var job := s.queue[0];
      var outcome := h(s.attempts, job.id, |s.queue| - 1);
      var s' := Attempt(s, job.id, outcome);
      if outcome.AllBusy? then (s', false) else (s'.(queue := s.queue[1..]), outcome.Placed?)
  }

  /** Repeated tries until one does not place a job. */
  function Drain(h: Heuristic, s: State): State
    decreases |s.queue|
  {
    var (s', placed) := Try(h, s);
    if placed then Drain(h, s') else s'
  }

  function Ids(jobs: seq<QueuedJob>): (ids: seq<JobId>)
    ensures |ids| == |jobs|
  {
    seq(|jobs|, i requires 0 <= i < |jobs| => jobs[i].id)
  }

  /** The outcome of attempting the k-th queued job after the k jobs before it. */
  function OutcomeAt(h: Heuristic, s: State, k: nat): Outcome
    requires k < |s.queue|
  {
    h(s.attempts + k, s.queue[k].id, |s.queue| - k - 1)
  }

  function PlacedCount(h: Heuristic, s: State): (n: nat)
    ensures n <= |s.queue|
    decreases |s.queue|
  {
    var (s', placed) := Try(h, s);
    if placed then 1 + PlacedCount(h, s') else 0
  }

  /** The jobs counted are the longest prefix whose attempts all succeed. */
  lemma {:induction false} PlacedCountIsLongestPrefix(h: Heuristic, s: State)
    ensures forall k :: 0 <= k < PlacedCount(h, s) ==> OutcomeAt(h, s, k).Placed?
    ensures PlacedCount(h, s) < |s.queue| ==> !OutcomeAt(h, s, PlacedCount(h, s)).Placed?
    decreases |s.queue|
  {
    var (s', placed) := Try(h, s);
    if placed {
      PlacedCountIsLongestPrefix(h, s');
      assert forall k :: 0 <= k < |s'.queue| ==> OutcomeAt(h, s', k) == OutcomeAt(h, s, k + 1);
      forall k | 0 <= k < PlacedCount(h, s) ensures OutcomeAt(h, s, k).Placed?
      {
        if k > 0 {
          assert OutcomeAt(h, s', k - 1).Placed?;
        }
      }
    }
  }

  /** How many jobs a drain throws away: the one whose attempt failed for good, if any. */
  function DroppedCount(h: Heuristic, s: State): nat {
    var n := PlacedCount(h, s);
    if n < |s.queue| && !OutcomeAt(h, s, n).AllBusy? then 1 else 0
  }

  /** A drain starts the longest placeable prefix in queue order, discards at most the one job
      after it, and leaves the rest of the queue as it was. */
  lemma {:induction false} DrainTakesPrefix(h: Heuristic, s: State)
    ensures PlacedCount(h, s) + DroppedCount(h, s) <= |s.queue|
    ensures Drain(h, s).queue == s.queue[PlacedCount(h, s) + DroppedCount(h, s)..]
    ensures Drain(h, s).started == s.started + Ids(s.queue[..PlacedCount(h, s)])
    decreases |s.queue|
  {
    PlacedCountIsLongestPrefix(h, s);
    var (s', placed) := Try(h, s);
    if placed {
      DrainTakesPrefix(h, s');
      var n := PlacedCount(h, s');
      assert n < |s'.queue| ==> OutcomeAt(h, s', n) == OutcomeAt(h, s, n + 1);
      assert s.queue[..n + 1] == [s.queue[0]] + s'.queue[..n];
      assert Ids(s.queue[..n + 1]) == [s.queue[0].id] + Ids(s'.queue[..n]);
    } else {
      assert s.queue[..0] == [];
    }
  }

  class Scheduler {
    const heuristic: Heuristic
    const queue: JobQueue
    var started: seq<JobId>
    var attempts: nat

    constructor (heuristic: Heuristic)
      ensures this.heuristic == heuristic && fresh(queue) && View() == State([], [], 0)
    {
      this.heuristic := heuristic;
      queue := new JobQueue();
      started, attempts := [], 0;
    }

    ghost function View(): State
      reads this, queue
    {
      State(queue.jobs, started, attempts)
    }

    method ScheduleJob(id: JobId, count: int) returns (outcome: Outcome)
      modifies this
      ensures outcome == heuristic(old(attempts), id, count)
      ensures View() == Attempt(old(View()), id, outcome)
    {
      outcome := heuristic(attempts, id, count);
      attempts := attempts + 1;
      if outcome.Placed? {
        started := started + [id];
      }
    }

    /** Attempts a job at once; only a busy outcome puts it in the queue. */
    method EnqueueJob(id: JobId, now: int) returns (outcome: Outcome)
      modifies this, queue
      ensures outcome == heuristic(old(attempts), id, |old(queue.jobs)|)
      ensures var tried := Attempt(old(View()), id, outcome);
        View() == if outcome.AllBusy? then tried.(queue := tried.queue + [QueuedJob(id, now)]) else tried
    {
      var count := queue.Len();
      outcome := ScheduleJob(id, count);
      if outcome.AllBusy? {
        queue.Enqueue(Some(QueuedJob(id, now)));
      }
    }

    method TryScheduleNext() returns (placed: bool)
      modifies this, queue
      ensures (View(), placed) == Try(heuristic, old(View()))
      ensures placed ==> |queue.jobs| < |old(queue.jobs)|
    {
      var job := queue.Peek();
      if job.None? {
        return false;
      }
      var count := queue.Len();
      var outcome := ScheduleJob(job.value.id, count - 1);
      if outcome.Placed? {
        var _ := queue.Dequeue();
        return true;
      }
      if outcome.AllBusy? {
        return false;
      }
      var _ := queue.Dequeue();
      return false;
    }

    method OnJobCompletion()
      modifies this, queue
      ensures View() == Drain(heuristic, old(View()))
    {
      var more := TryScheduleNext();
      if more {
        while more
          invariant Drain(heuristic, old(View())) == if more then Drain(heuristic, View()) else View()
          decreases |queue.jobs|, more
        {
          more := TryScheduleNext();
        }
      }
    }
  }
}
