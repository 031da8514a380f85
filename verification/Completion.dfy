/** What happens when an execution ends: outputs are materialised and verified, the result is
    finalised, and the job's progress is moved to its last status. */
module Completion {
  import opened Wrappers
  import opened StagingModel
  import opened JobDataStagers
  import opened JobStates

  datatype Job = Job(outputs: DataList, cwd: Path)

  /** int32(x) of a 64-bit int keeps the low 32 bits as a signed number. */
  function Int32(x: int): (r: int)
    ensures -0x8000_0000 <= r < 0x8000_0000 && (x - r) % 0x1_0000_0000 == 0
  {
    (x + 0x8000_0000) % 0x1_0000_0000 - 0x8000_0000
  }

  lemma Int32Zero(x: int)
    ensures Int32(x) == 0 <==> x % 0x1_0000_0000 == 0
  {
  }

  /** FinalizeJobCompletion on values: the files, the result and the error it returns. */
  ghost function Finalize(disk: Disk, files: Files, job: Job, r: JobResult): (Files, JobResult, Option<Error>) {
    if r.exitCode != 0 || (job.outputs == [] && r.outputs == []) then (files, r, None)
    else
      var (files', outputs) := Materialize(disk, files, job.outputs, job.cwd, r.outputs, job.cwd);
      match outputs
      case Failure(e) => (files', r.(status := ResultFailed, error := Some(e), exitCode := 1), Some(e))
      case Success(os) =>
        match VerifyList(disk, files', os, job.cwd, Saved)
        case Failure(e) => (files', JobResult(ResultFailed, 1, os, Some(e)), Some(e))
        case Success(_) => (files', r.(outputs := os, status := ResultCompleted), None)
  }

  /** The result the completion callback hands to finalisation. */
  function InitialResult(exitCode: int, outputs: DataList): JobResult {
    JobResult(if exitCode != 0 then ResultFailed else ResultCompleted, Int32(exitCode), outputs, None)
  }

  /** The progress status the callback decides on before finalisation. */
  function IntendedStatus(exitCode: int): Status { if exitCode != 0 then Failed else Completed }

  /** The job's state after the callback: the result is stored, then the progress updated. */
  function AfterCompletion(s: State, finalized: JobResult, error: Option<Error>, message: string,
                           exitCode: int): State {
    var stored := s.(result := Some(finalized));
    if error.Some? then Updated(stored, Failed, "Job completion finalization failed: " + message)
    else Updated(stored, IntendedStatus(exitCode), "")
  }

  // ---------- The imperative form ----------

  class JobResultRecord {
    var status: ResultStatus
    var exitCode: int
    var outputs: DataList
    var error: Option<Error>

    constructor (r: JobResult)
      ensures AsValue() == r
    {
      status, exitCode, outputs, error := r.status, r.exitCode, r.outputs, r.error;
    }

    function AsValue(): JobResult
      reads this
    {
      JobResult(status, exitCode, outputs, error)
    }
  }

  /** Updates the result in place; failing to deliver turns a success into a failure. */
  method FinalizeJobCompletion(store: FileStore, job: Job, r: JobResultRecord) returns (error: Option<Error>)
    modifies store, r
    ensures (store.files, r.AsValue(), error) == Finalize(store.disk, old(store.files), job, old(r.AsValue()))
  {
    if r.exitCode != 0 {
      return None;
    }
    if |job.outputs| == 0 && |r.outputs| == 0 {
      return None;
    }
    var stager := new JobDataStager(job.cwd, store);
    var outputs := stager.MaterializeJobOutputs(job.outputs, job.cwd, r.outputs, job.cwd);
    if outputs.Failure? {
      r.status := ResultFailed;
      r.error := Some(outputs.error);
      r.exitCode := 1;
      return Some(outputs.error);
    }
    r.outputs := outputs.value;
    var verified := stager.VerifyJobDataList(r.outputs, job.cwd, Saved);
    if verified.Failure? {
      r.status := ResultFailed;
      r.error := Some(verified.error);
      r.exitCode := 1;
      return Some(verified.error);
    }
    r.status := ResultCompleted;
    return None;
  }

  /** The completion callback of a submitted job; `describe` renders an error for the log. */
  method CompleteJob(state: JobState, store: FileStore, job: Job, exitCode: int, outputs: DataList,
                     describe: Error -> string)
    requires state.Valid()
    modifies state, store
    ensures state.Valid()
    ensures var (files', r', error) := Finalize(store.disk, old(store.files), job, InitialResult(exitCode, outputs));
      && store.files == files'
      && state.View() == AfterCompletion(old(state.View()), r', error,
                                         if error.Some? then describe(error.value) else "", exitCode)
    ensures state.result.Some? && state.progress.result == state.result
    ensures exitCode != 0 && -0x8000_0000 <= exitCode < 0x8000_0000 ==>
      && state.progress.status == Failed && state.result == Some(JobResult(ResultFailed, exitCode, outputs, None))
      && state.progress.log == old(state.progress.log) && store.files == old(store.files)
    ensures exitCode == 0 && !WillDeliver(store.disk, old(store.files), job, outputs) ==>
      && state.progress.status == Failed
      && state.result.value.status == ResultFailed && state.result.value.exitCode == 1 && state.result.value.error.Some?
      && state.progress.log == old(state.progress.log)
           + "Job completion finalization failed: " + describe(state.result.value.error.value) + "\n"
    ensures exitCode == 0 && WillDeliver(store.disk, old(store.files), job, outputs) ==>
      && state.progress.status == Completed
      && state.result.value.status == ResultCompleted && state.result.value.exitCode == 0
      && state.result.value.error == None && state.progress.log == old(state.progress.log)
  {
    FailedJobEndsFailed(store.disk, store.files, state.View(), job, exitCode, outputs);
    FinishedJobEndsAsDelivered(store.disk, store.files, state.View(), job, outputs, describe);
    var finalStatus := Completed;
    if exitCode != 0 {
      finalStatus := Failed;
    }
    var resultStatus := ResultCompleted;
    if finalStatus == Failed {
      resultStatus := ResultFailed;
    }
    var record := new JobResultRecord(JobResult(resultStatus, Int32(exitCode), outputs, None));
    var error := FinalizeJobCompletion(store, job, record);
    state.SetResult(record.AsValue());
    if error.Some? {
      state.UpdateProgress(Failed, "Job completion finalization failed: " + describe(error.value));
    } else {
      state.UpdateProgress(finalStatus, "");
    }
  }

  // ---------- COMPLETED means delivered ----------

  /** When the callback leaves the progress COMPLETED, every declared file output is on disk,
      not empty, and has the digest reported for it, in declaration order. */
  lemma CompletedMeansDelivered(disk: Disk, files: Files, s: State, job: Job, exitCode: int, outputs: DataList,
                                message: string)
    ensures var (files', r', error) := Finalize(disk, files, job, InitialResult(exitCode, outputs));
      var s' := AfterCompletion(s, r', error, message, exitCode);
      s'.progress.status == Completed ==>
        && Delivered(disk, files', job.outputs, job.cwd, r'.outputs)
        && s'.progress.result == Some(r')
  {
    var (files', r', error) := Finalize(disk, files, job, InitialResult(exitCode, outputs));
    if exitCode == 0 && error.None? && (job.outputs != [] || outputs != []) {
      MaterializedAndVerifiedIsDelivered(disk, files, job.outputs, job.cwd, outputs);
    }
  }

  // ---------- When a job ends COMPLETED ----------

  /** What lies at declared file i's place in the end is not empty and has the digest it had when
      that file was materialised. */
  ghost predicate Settled(disk: Disk, files: Files, final: Files, dir: Path, declared: DataList, i: nat,
                          result: DataList)
    requires IsFileAt(declared, i)
  {
    var abs := Resolve(dir, declared[i].value.file.path);
    var inTurn := Overlay(files, dir, declared[..i + 1], result);
    abs in inTurn && abs in final && final[abs] != [] && disk.hash(final[abs]) == disk.hash(inTurn[abs])
  }

  ghost predicate AllSettled(disk: Disk, files: Files, final: Files, dir: Path, declared: DataList, result: DataList) {
    forall i :: 0 <= i < |declared| && IsFileAt(declared, i) ==> Settled(disk, files, final, dir, declared, i, result)
  }

  /** Each declared file is obtainable in its turn, not empty, and not overwritten by a later
      output with other content. */
  ghost predicate Deliverable(disk: Disk, files: Files, job: Job, result: DataList) {
    var dir := WorkDirOf(job.cwd, job.cwd);
    && AllObtainable(disk, files, dir, job.outputs, result)
    && AllSettled(disk, files, Overlay(files, dir, job.outputs, result), dir, job.outputs, result)
  }

  /** What the caller can tell beforehand: nothing is declared, or the declared paths and the
      result's paths are relative, every declared file is in the result (unless the result lists
      nothing), and every declared file can be written or found, matches its digest, is not empty
      and stays as it was materialised. */
  ghost predicate WillDeliver(disk: Disk, files: Files, job: Job, outputs: DataList) {
    job.outputs == [] ||
    (ValidPaths(job.outputs) && ValidPaths(outputs) &&
     AllInResult(job.outputs, outputs) && Deliverable(disk, files, job, outputs))
  }

  /** Finalisation of an apparent success fails exactly when the outputs cannot be delivered. */
  lemma FinalizeFailsIffUndeliverable(disk: Disk, files: Files, job: Job, r: JobResult)
    requires r.exitCode == 0
    ensures Finalize(disk, files, job, r).2.None? <==> WillDeliver(disk, files, job, r.outputs)
  {
    if job.outputs != [] && ValidPaths(job.outputs) && ValidPaths(r.outputs) {
      var dir := WorkDirOf(job.cwd, job.cwd);
      MaterializeSucceedsIffObtainable(disk, files, dir, job.outputs, r.outputs);
      if AllObtainable(disk, files, dir, job.outputs, r.outputs) {
        SavedIffSettled(disk, files, Overlay(files, dir, job.outputs, r.outputs), job.cwd, job.outputs, r.outputs);
      }
    }
  }

  /** A job ends COMPLETED exactly when its exit code is zero and its outputs can be delivered. */
  lemma CompletesExactlyWhenDeliverable(disk: Disk, files: Files, s: State, job: Job, exitCode: int,
                                        outputs: DataList, message: string)
    ensures var (files', r', error) := Finalize(disk, files, job, InitialResult(exitCode, outputs));
      AfterCompletion(s, r', error, message, exitCode).progress.status == Completed <==>
        exitCode == 0 && WillDeliver(disk, files, job, outputs)
  {
    if exitCode == 0 {
      FinalizeFailsIffUndeliverable(disk, files, job, InitialResult(exitCode, outputs));
    }
  }

  // ---------- How a job ends, outright ----------

  /** A job whose exit code is not zero ends FAILED with exactly that code and its outputs, and
      nothing is written. */
  lemma FailedJobEndsFailed(disk: Disk, files: Files, s: State, job: Job, exitCode: int, outputs: DataList)
    ensures var (files', r', error) := Finalize(disk, files, job, InitialResult(exitCode, outputs));
      exitCode != 0 && -0x8000_0000 <= exitCode < 0x8000_0000 ==>
        && files' == files && error == None && r' == JobResult(ResultFailed, exitCode, outputs, None)
        && var s' := AfterCompletion(s, r', error, "", exitCode);
        && s'.progress == Progress(Failed, s.progress.log, Some(r')) && s'.result == Some(r')
  {
    if -0x8000_0000 <= exitCode < 0x8000_0000 {
      Int32OfSmall(exitCode);
    }
  }

  /** What finalisation leaves of an apparent success with outputs: the files as materialised, the
      materialised outputs even if they then fail verification, and the first error of the two. */
  lemma FinalizedOutputs(disk: Disk, files: Files, job: Job, r: JobResult)
    requires r.exitCode == 0 && (job.outputs != [] || r.outputs != [])
    ensures var (files', r', error) := Finalize(disk, files, job, r);
      var (written, m) := Materialize(disk, files, job.outputs, job.cwd, r.outputs, job.cwd);
      && files' == written && r'.outputs == (if m.Success? then m.value else r.outputs)
      && (m.Failure? ==> error == Some(m.error))
      && (m.Success? ==>
            var v := VerifyList(disk, files', r'.outputs, job.cwd, Saved);
            error == if v.Failure? then Some(v.error) else None)
  {
  }

  /** A job whose exit code is zero ends COMPLETED if its outputs can be delivered; otherwise FAILED
      with exit code 1, an error, and a line about it in the log. Either way its result is published
      with its progress. */
  lemma FinishedJobEndsAsDelivered(disk: Disk, files: Files, s: State, job: Job, outputs: DataList,
                                   describe: Error -> string)
    ensures var (files', r', error) := Finalize(disk, files, job, InitialResult(0, outputs));
      var s' := AfterCompletion(s, r', error, if error.Some? then describe(error.value) else "", 0);
      && s'.result == Some(r') && s'.progress.result == Some(r') && r'.error == error
      && if WillDeliver(disk, files, job, outputs) then
           && error == None && r'.status == ResultCompleted && r'.exitCode == 0
           && s'.progress.status == Completed && s'.progress.log == s.progress.log
         else
           && error.Some? && r'.status == ResultFailed && r'.exitCode == 1
           && s'.progress.status == Failed
           && s'.progress.log ==
                s.progress.log + "Job completion finalization failed: " + describe(error.value) + "\n"
  {
    FinalizeFailsIffUndeliverable(disk, files, job, InitialResult(0, outputs));
    var error := Finalize(disk, files, job, InitialResult(0, outputs)).2;
    if error.Some? {
      var message := describe(error.value);
      assert s.progress.log + ("Job completion finalization failed: " + message) + "\n" ==
        s.progress.log + "Job completion finalization failed: " + message + "\n";
    }
  }

  // ---------- The three indicators of success ----------

  /** Exit code 0, result status COMPLETED and progress status COMPLETED after the callback. */
  ghost predicate StatusesAgree(r: JobResult, s: State) {
    && (r.exitCode == 0 <==> r.status == ResultCompleted)
    && (r.status == ResultCompleted <==> s.progress.status == Completed)
  }

  /** The three agree exactly when truncation to 32 bits keeps a non-zero exit code non-zero, or
      the outputs cannot be delivered, which turns the truncated zero into a failure again. */
  lemma StatusesAgreeExactly(disk: Disk, files: Files, s: State, job: Job, exitCode: int,
                             outputs: DataList, message: string)
    ensures var (files', r', error) := Finalize(disk, files, job, InitialResult(exitCode, outputs));
      StatusesAgree(r', AfterCompletion(s, r', error, message, exitCode)) <==>
        exitCode == 0 || exitCode % 0x1_0000_0000 != 0 || !WillDeliver(disk, files, job, outputs)
  {
    Int32Zero(exitCode);
    if Int32(exitCode) == 0 {
      FinalizeFailsIffUndeliverable(disk, files, job, InitialResult(exitCode, outputs));
    }
  }

  /** An exit code of 2^32 with nothing to deliver would be reported as 0 of a failed job. */
  lemma TruncatedExitCodeDisagrees(disk: Disk, files: Files, s: State)
    ensures var (files', r', error) := Finalize(disk, files, Job([], ""), InitialResult(0x1_0000_0000, []));
      && r'.exitCode == 0 && r'.status == ResultFailed
      && !StatusesAgree(r', AfterCompletion(s, r', error, "", 0x1_0000_0000))
  {
    StatusesAgreeExactly(disk, files, s, Job([], ""), 0x1_0000_0000, [], "");
    Int32Zero(0x1_0000_0000);
  }

  /** So they agree for every exit code that fits 32 bits: those of processes, those a remote peer
      reports, and the constant 1. No other exit code reaches the callback. */
  lemma StatusesAgreeForInt32(disk: Disk, files: Files, s: State, job: Job, exitCode: int,
                              outputs: DataList, message: string)
    requires -0x8000_0000 <= exitCode < 0x8000_0000
    ensures var (files', r', error) := Finalize(disk, files, job, InitialResult(exitCode, outputs));
      StatusesAgree(r', AfterCompletion(s, r', error, message, exitCode))
  {
    StatusesAgreeExactly(disk, files, s, job, exitCode, outputs, message);
    Int32OfSmall(exitCode);
  }

  lemma Int32OfSmall(x: int)
    requires -0x8000_0000 <= x < 0x8000_0000
    ensures Int32(x) == x
  {
  }

  lemma FrontSettled(disk: Disk, files: Files, final: Files, dir: Path, declared: DataList, result: DataList)
    requires declared != []
    ensures var n := |declared| - 1;
      AllSettled(disk, files, final, dir, declared, result) <==>
        && AllSettled(disk, files, final, dir, declared[..n], result)
        && (IsFileAt(declared, n) ==> Settled(disk, files, final, dir, declared, n, result))
  {
    var n := |declared| - 1;
    forall i | 0 <= i < n && IsFileAt(declared, i)
      ensures IsFileAt(declared[..n], i)
      ensures Settled(disk, files, final, dir, declared[..n], i, result) <==>
        Settled(disk, files, final, dir, declared, i, result)
    {
      SettledOfFront(disk, files, final, dir, declared, i, result);
    }
    assert forall i :: 0 <= i < n ==> declared[..n][i] == declared[i];
  }

  lemma SettledOfFront(disk: Disk, files: Files, final: Files, dir: Path, declared: DataList, i: nat, result: DataList)
    requires i < |declared| - 1 && IsFileAt(declared, i)
    ensures var front := declared[..|declared| - 1];
      && IsFileAt(front, i)
      && (Settled(disk, files, final, dir, front, i, result) <==> Settled(disk, files, final, dir, declared, i, result))
  {
    assert declared[..|declared| - 1][..i + 1] == declared[..i + 1];
  }

  /** Saved verification of what was materialised, against whatever the disk holds in the end. */
  lemma {:induction false} SavedIffSettled(disk: Disk, files: Files, final: Files, cwd: Path, declared: DataList,
          result: DataList)
    requires ValidPaths(declared) && AllObtainable(disk, files, WorkDirOf(cwd, cwd), declared, result)
    ensures var materialized := MaterializeEach(disk, files, WorkDirOf(cwd, cwd), declared, result).1;
      && materialized.Success?
      && (VerifyList(disk, final, materialized.value, cwd, Saved).Success? <==>
          AllSettled(disk, files, final, WorkDirOf(cwd, cwd), declared, result))
  {
    var dir := WorkDirOf(cwd, cwd);
    MaterializeSucceedsIffObtainable(disk, files, dir, declared, result);
    if declared != [] {
      var n := |declared| - 1;
      var front := declared[..n];
      FrontObtainable(disk, files, dir, declared, result);
      FrontSettled(disk, files, final, dir, declared, result);
      SavedIffSettled(disk, files, final, cwd, front, result);
      MaterializeSucceedsIffObtainable(disk, files, dir, front, result);
      if IsFileAt(declared, n) {
        LastSavedIffSettled(disk, files, final, cwd, declared, result);
      }
    }
  }

  /** The last materialised output verifies exactly when it is settled. */
  lemma LastSavedIffSettled(disk: Disk, files: Files, final: Files, cwd: Path, declared: DataList, result: DataList)
    requires declared != [] && IsFileAt(declared, |declared| - 1) && ValidPath(declared[|declared| - 1])
    requires ObtainableAt(disk, files, WorkDirOf(cwd, cwd), declared, |declared| - 1, result)
    ensures var n, dir := |declared| - 1, WorkDirOf(cwd, cwd);
      var f := declared[n].value.file;
      var one := MaterializeOne(disk, Overlay(files, dir, declared[..n], result), dir, f.path, Chosen(result, f)).1;
      && one.Success?
      && (VerifyData(disk, final, Some(one.value), cwd, Saved).Success? <==>
        Settled(disk, files, final, dir, declared, n, result))
  {
    var n, dir := |declared| - 1, WorkDirOf(cwd, cwd);
    assert declared[..n + 1] == declared;
    var f, before := declared[n].value.file, Overlay(files, dir, declared[..n], result);
    ObtainableAtIsChosen(disk, files, dir, declared, n, result);
    MaterializeOneNeeds(disk, before, dir, f.path, Chosen(result, f));
    MaterializeOneReports(disk, before, dir, f.path, Chosen(result, f));
    VerificationMeans(disk, final, Some(MaterializeOne(disk, before, dir, f.path, Chosen(result, f)).1.value), cwd);
  }
}
