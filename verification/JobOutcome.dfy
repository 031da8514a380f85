/** From the completion callback to the driver's exit code. */
module JobOutcome {
  import opened Wrappers
  import opened StagingModel
  import opened JobStates
  import opened Completion
  import opened LogClient
  import opened JobRuns

  /** The two steps by which the completion callback changes the job: it stores the finalised result,
      then sets the last status. */
  ghost function CallbackSteps(disk: Disk, files: Files, job: Job, exitCode: int, outputs: DataList,
                               describe: Error -> string): (Step, Step)
  {
    var (_, r', error) := Finalize(disk, files, job, InitialResult(exitCode, outputs));
    (StoreResult(r'),
     match error
     case Some(e) => Advance(Failed, "Job completion finalization failed: " + describe(e))
     case None => Advance(IntendedStatus(exitCode), ""))
  }

  /** Taken one after the other they are the callback. */
  lemma CallbackIsTwoSteps(s: World, disk: Disk, files: Files, job: Job, exitCode: int, outputs: DataList,
                           describe: Error -> string)
      returns (stored: World, done: World)
    ensures var (first, second) := CallbackSteps(disk, files, job, exitCode, outputs, describe);
      Next(s, first, stored) && Next(stored, second, done)
    ensures var (_, r', error) := Finalize(disk, files, job, InitialResult(exitCode, outputs));
      var message := if error.Some? then describe(error.value) else "";
      done == s.(job := AfterCompletion(s.job, r', error, message, exitCode))
  {
    var (_, r', error) := Finalize(disk, files, job, InitialResult(exitCode, outputs));
    var message := if error.Some? then describe(error.value) else "";
    stored := s.(job := s.job.(result := Some(r')));
    done := s.(job := AfterCompletion(s.job, r', error, message, exitCode));
  }

  /** What the callback sets: COMPLETED exactly for a zero exit code and deliverable outputs, else
      FAILED, with a result that says the same. */
  lemma CallbackSets(disk: Disk, files: Files, job: Job, exitCode: int, outputs: DataList, describe: Error -> string)
    requires -0x8000_0000 <= exitCode < 0x8000_0000
    ensures var (first, second) := CallbackSteps(disk, files, job, exitCode, outputs, describe);
      && first.StoreResult? && second.Advance?
      && second.status ==
           (if exitCode == 0 && WillDeliver(disk, files, job, outputs) then Completed else Failed)
      && first.result.status ==
           (if exitCode == 0 && WillDeliver(disk, files, job, outputs) then ResultCompleted else ResultFailed)
      && first.result.exitCode ==
           (if exitCode != 0 then exitCode else if WillDeliver(disk, files, job, outputs) then 0 else 1)
  {
    var s := State(Progress(Received, "", None), None, [], map[]);
    if exitCode == 0 {
      FinishedJobEndsAsDelivered(disk, files, s, job, outputs, describe);
    } else {
      FailedJobEndsFailed(disk, files, s, job, exitCode, outputs);
    }
  }

  /** After step k nothing sets a status or stores a result any more. */
  ghost predicate SettledSince(steps: seq<Step>, k: nat, l: nat)
    requires l <= |steps|
  {
    forall j :: k <= j < l ==> !steps[j].Advance? && !steps[j].StoreResult?
  }

  lemma {:induction false} StatusStaysSet(steps: seq<Step>, k: nat, l: nat)
    requires k <= l <= |steps| && SettledSince(steps, k, l)
    ensures StatusSet(steps, l) == StatusSet(steps, k) && PublishedResult(steps, l) == PublishedResult(steps, k)
    decreases l
  {
    if k < l {
      StatusStaysSet(steps, k, l - 1);
    }
  }

  /** End to end: in every run in which the callback's two steps were the last to change the job's
      status and result, a driver that follows a drained stream exits 0 exactly when the job's exit
      code was zero and its outputs could be delivered, and 1 otherwise; and it returns the result
      that was stored, with the job's own exit code if that was not zero. */
  lemma DriverExitsZeroExactly(states: seq<World>, steps: seq<Step>, k: nat, l: nat, id: ChannelId,
                               disk: Disk, files: Files, job: Job, exitCode: int, outputs: DataList,
                               describe: Error -> string, o: Outcome)
    requires Run(states, steps) && k + 2 <= l <= |steps| && Drained(states[l], id)
    requires (steps[k], steps[k + 1]) == CallbackSteps(disk, files, job, exitCode, outputs, describe)
    requires SettledSince(steps, k + 2, l) && -0x8000_0000 <= exitCode < 0x8000_0000
    requires NoneTerminalBeforeLast(states[l].streams[id])
    requires var seen := Seen(Updates(states[l].streams[id])); seen != [] ==> Conveys(seen[|seen| - 1], o)
    ensures Seen(Updates(states[l].streams[id])) != []
    ensures o.exitCode == if exitCode == 0 && WillDeliver(disk, files, job, outputs) then 0 else 1
    ensures o.result == steps[k].result
    ensures o.result.exitCode ==
      if exitCode != 0 then exitCode else if WillDeliver(disk, files, job, outputs) then 0 else 1
  {
    var ps := states[l].streams[id];
    StreamsStayUpToDate(states, steps, l, id);
    var n := SeenIsPrefix(ps);
    assert n == |ps| && ps[..n] == ps;
    CallbackSets(disk, files, job, exitCode, outputs, describe);
    LastSetIsKept(states, steps, k, l);
  }

  /** A result stored and published with a terminal status is what the job has as long as nothing
      sets either again. */
  lemma LastSetIsKept(states: seq<World>, steps: seq<Step>, k: nat, l: nat)
    requires Run(states, steps) && k + 2 <= l <= |steps| && SettledSince(steps, k + 2, l)
    requires steps[k].StoreResult? && steps[k + 1].Advance? && IsTerminal(steps[k + 1].status)
    ensures states[l].job.progress.status == steps[k + 1].status
    ensures states[l].job.progress.result == Some(steps[k].result)
  {
    StatusAndResultAreLastSet(states, steps, l);
    StatusStaysSet(steps, k + 2, l);
    assert StoredResult(steps, k + 1) == Some(steps[k].result);
    assert StatusSet(steps, k + 2) == steps[k + 1].status;
    assert PublishedResult(steps, k + 2) == StoredResult(steps, k + 1);
  }
}
