# Buildozer: verified model

Buildozer is a peer-to-peer distributed build daemon. This project models the parts of it whose
correctness is decided by its own code, and proves what they promise. `dafny verify dfyconfig.toml`
checks everything. `Wrappers` and `Sequences` hold what the modules share.

**Gossip discovery** (`PeerRecords`, `PeerManager`, `Discoverer`, `Gossip`, `GossipKnowledge`,
`GossipProvenance`, `GossipQuiescence`, `GossipWindows`). One daemon is a pair of classes with the
peer map, the last-heard times and the activity timer as fields; every method is proved against
functions on values. N such daemons form a network whose packets may be lost, duplicated and
reordered, and in which the announcement loop may run between the locked window test of a handled
announcement and the rest of its handling. Over every run: everything stored or in flight about a
peer is what that peer advertised, and every stored runtime list is one whole listing of that peer's
provider; an answer that leaves out the requester's ignore list still gives the requester all the
responder knew; without ticks a weight drops at every step; answers, however late they are sent, are
sent exactly to requests outside the flood window that ignore neither side, and periodic
announcements keep the quiet interval.

**Job lifecycle** (`JobQueue`, `Scheduler`, `SchedulerRuns`, `StagingModel`, `StagingTransfer`,
`JobDataStager`, `Completion`, `JobState`, `LogClient`, `JobRuns`, `JobOutcome`). The queue,
scheduler, stager and job state are classes. The file system is a map from paths to bytes, the
digest an arbitrary function, the placement heuristic an arbitrary oracle. Runs interleave the
critical sections of the scheduler, and the callbacks, watchers and streaming handlers of a job.
COMPLETED means delivered; jobs are conserved and leave in order exactly under the condition proved;
a job's log is everything reported to it, and a client that has drained its lossy channel has seen
all of it; the driver's exit code tells whether the job exited with zero and delivered its outputs.

**Identifiers and command lines** (`Strings`, `RuntimeId`, `NativeRuntime`, `ArCommand`, `ArSyntax`,
`LinkCommand`, `LinkSyntax`). Parsers and printers of runtime identifiers with uint32 decimal
arithmetic, and the gcc and ar parsers against the arguments the executor rebuilds. Round trips are
stated as exact conditions, and what each command line means is stated on its written form.

**Combinators** (`Arithmetic`, `Combinations`, `ForkJoin`). The variant matrix as a mixed-radix
product, and the fork-join helpers under every completion order.

**Logging registry** (`LogRegistry`, `LogConfigManager`). Referential integrity under every sequence
of critical sections, hierarchical lookup, record routing, and switching file sinks.

## Where the code does not keep the obvious claim

Each of these is proved with a concrete input or an exact condition.

- Overlapping `TryScheduleNext` calls peek the same head: one job starts twice and the next is lost
  (`OverlappingTriesLoseJob`; `StepConserves` gives the exact condition).
- `WatchJobStatus` sends its first status outside the job's lock: a cancellation in between makes it
  send on a closed channel (`CancelDuringWatchPanics`, `WatchCanPanic`, `OnlyLateFirstSendPanics`).
- Ten updates before the first status of a watch fill its channel: the call then hangs until the
  watchers are closed, and panics (`FirstSendProceedsExactly`, `BlockedUntilClose`).
- The exit code is truncated to 32 bits before it is tested again. A multiple of 2^32 would make the
  three success indicators disagree (`StatusesAgreeExactly`, `TruncatedExitCodeDisagrees`), but it is
  unreachable: exit codes come from processes, are the constant 1, or are 32-bit numbers reported by
  a remote peer, and for all of those the indicators agree (`StatusesAgreeForInt32`).
- Of two files to write of which one is a directory of the other, the write fails or silently skips
  one (`EmbedThenWriteCopies`, `NestedFileCanBeSkipped`).
- `AddSink` checks for overlaps and registers in separate critical sections, so concurrent calls can
  add two sinks for one file (`OverlappingAddsShareAFile`).
- A version with a patch but no minor number, or with a prerelease label, does not survive its
  printed form (`VersionRoundTrip`). Container identifiers are printed but no parser is registered
  for them (`DockerIdsDoNotParse`). The C/C++ parser always reports toolchain C
  (`ParsedNativeIdIsProto`).
- A `host:port` whose host holds a colon is not split (`AdvertisedUriParsesBack`).
- An empty `-l` name does not survive rebuilding (`LibrariesSurviveIffNamed`). `TESTING.md` counts
  `-Wl,` options as linker flags; the parser files every `-W` option under compiler flags, so none
  reaches a link command (`PassThroughNeverLinks`).
- A failed `EnableFileSink` has already dropped the logger's old file sinks
  (`FailedEnableKeepsStateExactly`, `FailedEnableCanLoseFileSink`).
- `SetSinkLevel` changes a field that routing never reads: a sink's handler keeps the level it was
  made with (`SinkLevelNeverRoutes`).
- A logger configured under the empty name is reported as having no configuration
  (`LookupsAgreeExactly`).
- The comment on `CloseWatchers` says it runs when a job reaches a terminal state; the completion
  callback does not call it, and the model follows the code. The comment on `AddSink` lists file
  sinks; without a path they are always refused, as `AddSinkInternal` states. A runtime's `peer_ids`
  are documented as endpoints; the code appends peer ids, as `StoredRuntimesNameTheirPeer` states.

## Model

| member | source | states |
|---|---|---|
| PeerRecords.AdvertisedUriParsesBack | pkg/peers/discoverer.go:590-602 | splitting an advertised "host:port" recovers both exactly when the host holds no colon, and the endpoint rebuilt from them is the advertised text |
| PeerRecords.WithoutListsExactly | pkg/peers/discoverer.go:498-514 | leaving out the requester and its ignore list from a full listing lists exactly the other stored peers, each once |
| PeerRecords.RegisterKnownKeys | pkg/peers/discoverer.go:376-409 | known-peer registration adds exactly the listed ids with a URI other than the receiver's |
| PeerRecords.RegisterKnownOrigin | pkg/peers/discoverer.go:376-409 | every record afterwards is an old one or one taken unchanged from a listed entry |
| PeerRecords.RequestSays | pkg/peers/discoverer.go:205-284 | a REQUEST carries its sender's parsed address and its provider's whole listing, every stored peer with its stored address and all its runtimes, and ignores exactly the peers heard in the last 45 seconds |
| PeerRecords.ResponseSays | pkg/peers/discoverer.go:455-544 | a RESPONSE carries the same about its sender, and each stored peer the request neither came from nor ignores, with its stored address and all its runtimes |
| PeerRecords.HandledEventIsStored | pkg/peers/discoverer.go:376-409 | a handled event stores the address and runtimes of each listed peer's last entry, an unlisted sender's address and all its runtimes with its id appended to each, and leaves every other record alone |
| PeerManager.PeerInfo.Copy | pkg/peers/types.go:40-57 | a fresh object with the same fields |
| PeerManager.Manager.RegisterPeer | pkg/peers/manager.go:72-103 | a new peer is added and stamped, a known one overwritten in place keeping its discovery time; the map changes at that id only |
| PeerManager.Manager.GetAllPeers | pkg/peers/manager.go:117-126 | each stored peer exactly once, as a fresh equal copy |
| Discoverer.MulticastDiscoverer.CollectKnownPeers | pkg/peers/discoverer.go:242-255 | every stored peer once, with its stored address and all its runtimes |
| Discoverer.MulticastDiscoverer.CollectKnownPeersExcept | pkg/peers/discoverer.go:494-514 | every stored peer except the requester and the ignored ones, each once, with its stored address and all its runtimes |
| Discoverer.MulticastDiscoverer.CollectIgnoreList | pkg/peers/discoverer.go:227-240 | exactly the peers heard directly within half the flood window, each once |
| Discoverer.MulticastDiscoverer.SendAnnouncement | pkg/peers/discoverer.go:205-284 | a REQUEST with the daemon's own entry, its ignore list and all stored peers with all their runtimes |
| Discoverer.MulticastDiscoverer.SendAnnouncementResponses | pkg/peers/discoverer.go:455-544 | exactly one RESPONSE unless the requester ignores itself, omitting the requester and its ignore list, the others with all their runtimes |
| Discoverer.MulticastDiscoverer.RegisterPeerFromAnnouncement | pkg/peers/discoverer.go:547-587 | the sender's entry is stored with its id appended to every runtime, or nothing without a URI |
| Discoverer.MulticastDiscoverer.RegisterKnownPeers | pkg/peers/discoverer.go:376-409 | gossiped entries overwrite the store in list order, the daemon's own excepted |
| Discoverer.MulticastDiscoverer.Respond | pkg/peers/discoverer.go:412-449 | an answer exactly to a REQUEST outside the window whose ignore list holds neither side |
| Discoverer.MulticastDiscoverer.HandleAnnouncement | pkg/peers/discoverer.go:350-449 | the new node state for every event, and an answer exactly to a REQUEST that ignores neither side, from a sender not heard in the last 90 seconds |
| Discoverer.MulticastDiscoverer.Listen | pkg/peers/discoverer.go:319-342 | own copies change nothing; every other event is handled |
| Discoverer.MulticastDiscoverer.AnnounceFirst | pkg/peers/discoverer.go:173-177 | the unconditional first REQUEST resets the activity timer |
| Discoverer.MulticastDiscoverer.Tick | pkg/peers/discoverer.go:183-202 | a REQUEST exactly when the network was quiet for the interval |
| Gossip.HandlingIsTwoSteps | pkg/peers/discoverer.go:356-449 | an uninterrupted handling by the class is a receive step followed by a finish step of the network |
| Gossip.GenuineRegistration | pkg/peers/discoverer.go:371-410 | handling a genuine event leaves a genuine store without the daemon itself |
| Gossip.AuthenticNext | pkg/peers/discoverer.go:170-544 | every step keeps all stored and travelling records genuine |
| Gossip.GossipIsAuthentic | pkg/peers/discoverer.go:205-581 | in every state of every run no daemon lists itself, and everything stored or in flight about a peer is what that peer advertised |
| Gossip.StoredRuntimesNameTheirPeer | pkg/peers/discoverer.go:560-570 | with providers listing no peer ids, every runtime stored under p has peer ids exactly [p], over any number of hops |
| GossipProvenance.RunsAreTraced | pkg/peers/discoverer.go:205-587 | in every run all stored and travelling runtimes come from whole listings their peer sent before |
| GossipProvenance.RecordsAreWholeListings | pkg/peers/discoverer.go:205-587 | whatever the number of hops, what n stores about p is p's advertised address and one whole listing p sent in an earlier step, each runtime in order with p as its last peer id |
| GossipProvenance.FinishStoresEvent | pkg/peers/discoverer.go:371-410 | in every run a completed handling stores exactly what its event says, as in HandledEventIsStored |
| GossipKnowledge.RegistrationKeys | pkg/peers/discoverer.go:371-410 | a handled event adds exactly its sender and those it lists, the receiver excepted |
| GossipKnowledge.RequestCovered | pkg/peers/discoverer.go:227-240 | a fresh REQUEST ignores only peers its sender has stored or is storing, never itself |
| GossipKnowledge.ResponseCovered | pkg/peers/discoverer.go:494-514 | what a fresh RESPONSE omits of the responder's store the requester already has |
| GossipKnowledge.IgnoreListsAreKnown | pkg/peers/discoverer.go:227-240 | in every run the directly heard peers are stored or being stored, and no packet leaves out knowledge its requester lacks |
| GossipKnowledge.ResponseOrigin | pkg/peers/discoverer.go:455-544 | every RESPONSE present in a run was sent by an earlier answer of the daemon it names |
| GossipKnowledge.ResponseMergesKnowledge | pkg/peers/discoverer.go:361-514 | after handling a RESPONSE to its own REQUEST, a daemon knows the responder and everyone the responder knew when it answered |
| GossipQuiescence.StepLightens | pkg/peers/discoverer.go:412-449 | every delivery, completed handling or loss strictly lowers the weight |
| GossipQuiescence.GossipQuiesces | pkg/peers/discoverer.go:412-449 | a stretch without ticks or duplication has at most as many steps as its starting weight |
| GossipQuiescence.AtMostOneAnswerPerRequest | pkg/peers/discoverer.go:434-447 | over any stretch of a run, no daemon sends more answers than REQUEST copies were delivered to it, plus the one it was handling at the start |
| GossipWindows.FloodWindowHolds | pkg/peers/discoverer.go:356-369 | a decision to answer p comes more than the flood window after everything heard directly from p before |
| GossipWindows.HandlingOrigin | pkg/peers/discoverer.go:356-369 | whatever happens in between, a handling under way goes back to one receipt and carries the outcome of its window test |
| GossipWindows.AnswerFollowsDecision | pkg/peers/discoverer.go:423-434 | every completed handling, however late, sends an answer exactly when the receipt that began it decided so |
| GossipWindows.HeardIsLastHearing | pkg/peers/discoverer.go:356-369 | in every run the remembered time of a peer is that of the last announcement received directly from it |
| GossipWindows.AnswersExactlyWhenDue | pkg/peers/discoverer.go:356-447 | a completed handling answers if and only if its event was a REQUEST that ignores neither side, received more than 90 seconds after everything heard directly from its sender before |
| GossipWindows.AnswersRespectWindow | pkg/peers/discoverer.go:356-434 | two answers of n to p go back to decisions more than the flood window apart; the answers themselves are that far apart, less the time the first handling took |
| GossipWindows.QuietIntervalHolds | pkg/peers/discoverer.go:183-202 | a periodic REQUEST comes at least the interval after the daemon's previous announcement and the last one it heard |
| GossipWindows.FirstAnnouncementIsFirst | pkg/peers/discoverer.go:170-177 | exactly the first announcement of a daemon is unconditional |
| JobQueues.JobQueue.Enqueue | pkg/scheduler/queue.go:35-48 | the job is appended, nil is ignored |
| JobQueues.JobQueue.Dequeue | pkg/scheduler/queue.go:52-69 | the head is split off, or nothing from an empty queue |
| JobQueues.JobQueue.Remove | pkg/scheduler/queue.go:93-109 | drops the first job with the id and nothing else, and reports whether there was one |
| Scheduling.Scheduler.ScheduleJob | pkg/scheduler/scheduler.go:60-157 | one attempt; a job's goroutine starts exactly when it is placed |
| Scheduling.Scheduler.EnqueueJob | pkg/scheduler/scheduler.go:163-202 | one attempt at once, and the job is queued exactly when all runtimes are busy |
| Scheduling.Scheduler.TryScheduleNext | pkg/scheduler/scheduler.go:207-246 | peek, attempt, and dequeue unless busy |
| Scheduling.Scheduler.OnJobCompletion | pkg/scheduler/scheduler.go:250-258 | repeated tries until one does not place a job; it ends |
| Scheduling.PlacedCountIsLongestPrefix | pkg/scheduler/scheduler.go:250-258 | the jobs a drain places are the longest prefix of the queue whose attempts all succeed |
| Scheduling.DrainTakesPrefix | pkg/scheduler/scheduler.go:207-258 | a drain starts that prefix in order, discards at most the one job after it and leaves the rest of the queue |
| SchedulerRuns.StepConserves | pkg/scheduler/scheduler.go:163-258 | every step of any interleaving keeps the books, except a dequeue, which does exactly when the head still is the job its try attempted |
| SchedulerRuns.SingleFlightKeepsGood | pkg/scheduler/scheduler.go:207-258 | with tries overlapping neither each other nor removals, conservation, order and the held head are kept in every run |
| SchedulerRuns.SchedulerConservesJobs | pkg/scheduler/scheduler.go:163-258 | in such runs each submitted job is in exactly one place, and jobs leave the head in enqueue order |
| SchedulerRuns.OverlappingTriesLoseJob | pkg/scheduler/scheduler.go:208-223 | two overlapping tries start the head twice and lose the job after it |
| SchedulerRuns.TwoJobsGetQueued | pkg/scheduler/scheduler.go:163-202 | a queue in which that happens is reachable |
| SchedulerRuns.TryIsPeekAttemptDequeue | pkg/scheduler/scheduler.go:207-246 | the class method, uninterrupted, is the path peek, attempt, dequeue of the runs |
| SchedulerRuns.EnqueueIsSubmitAppend | pkg/scheduler/scheduler.go:163-202 | the submission method, uninterrupted, is a submission step and, when busy, the append of the runs |
| StagingModel.JoinInjective | pkg/staging/job_data_stager.go:551-556 | distinct relative paths resolve to distinct places |
| StagingModel.VerifyListIsAll | pkg/staging/job_data_stager.go:799-810 | a list verifies exactly when every element does |
| StagingModel.VerificationMeans | pkg/staging/job_data_stager.go:662-795 | Saved accepts a file exactly when it is on disk, not empty and fits a recorded digest; Integrity when its content, or without content the file on disk, fits it; other data always, missing data never |
| StagingModel.MaterializeEachListsDeclared | pkg/staging/job_data_stager.go:213-323 | materialised outputs are the declared files in declaration order, each with a digest |
| StagingModel.MaterializedAndVerifiedIsDelivered | pkg/staging/job_data_stager.go:157-335 | materialised and verified outputs all lie on disk, not empty, with the reported digests |
| StagingModel.MaterializeSucceedsIffObtainable | pkg/staging/job_data_stager.go:213-323 | materialisation succeeds exactly when each declared file can in its turn be written (nothing in the way of it or its directories) or found, and fits its digest, taking the first result entry for its path, or the declaration if there is none; it then changes only outputs that came with content |
| StagingModel.MaterializeSucceedsExactly | pkg/staging/job_data_stager.go:157-335 | the whole call succeeds exactly when nothing is declared, or all paths are relative, every declared file is in a non-empty result, and each is obtainable in its turn |
| StagingModel.MaterializedContent | pkg/staging/job_data_stager.go:236-275 | on success the content of the first result entry for a declared path, or of the declaration without one, is what its file holds unless a later output overwrites it, and all other places are as before |
| StagingModel.MaterializeOneReports | pkg/staging/job_data_stager.go:258-316 | the reported output has the size and digest of what then lies on disk and no content; a failure is the write, the missing file or the digest, in this order |
| StagingModel.WritableKeepsTree | pkg/staging/job_data_stager.go:258-270 | a path can be written exactly when it is not blocked and the file would neither be nor have a file as its directory |
| StagingTransfer.EmbedEachEmbeds | pkg/staging/job_data_stager.go:853-972 | embedding gives each element its source bytes and keeps paths and recorded digests |
| StagingTransfer.EmbedOneKeeps | pkg/staging/job_data_stager.go:853-940 | embedding keeps every id, leaves alone what already has content or is no file, and records the size of what it loads; absolute paths fail |
| StagingTransfer.WriteOneMeans | pkg/staging/job_data_stager.go:338-416 | writing one element puts its content at its place unless a file is there already, and fails exactly on a digest that does not fit or a place that cannot be written |
| StagingTransfer.WriteEachLands | pkg/staging/job_data_stager.go:338-416 | writing to free places, none a directory of another, succeeds exactly when every recorded digest fits, and changes nothing else |
| StagingTransfer.WriteEachExtends | pkg/staging/job_data_stager.go:338-416 | writing a list never overwrites or removes a file, and succeeds only if every recorded digest fits what then lies at its place |
| StagingTransfer.EmbedThenWriteCopies | pkg/staging/job_data_stager.go:514-972 | embed then write succeeds with a copy exactly when recorded digests are right or absent and no path is a directory of another; the copy passes Saved verification exactly when no file is empty |
| StagingTransfer.NestedFileCanBeSkipped | pkg/staging/job_data_stager.go:362-396 | a file whose path is already a directory is skipped, and without a digest the call still succeeds |
| JobDataStagers.JobDataStager.ValidateJobDataPathList | pkg/staging/job_data_stager.go:41-79 | accepts exactly lists of relative paths, and names the first absolute one |
| JobDataStagers.JobDataStager.MaterializeFile | pkg/staging/job_data_stager.go:213-323 | one declared file, written from its content or found and hashed, with every error |
| JobDataStagers.JobDataStager.MaterializeJobOutputs | pkg/staging/job_data_stager.go:157-335 | the new files and the outputs or error of the whole call; what these are is MaterializeSucceedsExactly and MaterializedContent |
| JobDataStagers.JobDataStager.VerifyFileJobDataOnDisk | pkg/staging/job_data_stager.go:662-686 | the file exists and fits its recorded digest |
| JobDataStagers.JobDataStager.VerifyFileJobData | pkg/staging/job_data_stager.go:758-795 | Saved demands a non-empty file on disk; Integrity checks content first |
| JobDataStagers.JobDataStager.VerifyJobData | pkg/staging/job_data_stager.go:733-755 | nil and data-less elements fail, non-files pass |
| JobDataStagers.JobDataStager.VerifyJobDataList | pkg/staging/job_data_stager.go:799-810 | the first failure in list order, if any |
| JobDataStagers.JobDataStager.EmbedJobData | pkg/staging/job_data_stager.go:853-940 | references and files without content get their bytes from the source |
| JobDataStagers.JobDataStager.EmbedJobDataList | pkg/staging/job_data_stager.go:945-972 | the embedded list or the first error |
| JobDataStagers.JobDataStager.WriteJobDataToFile | pkg/staging/job_data_stager.go:338-416 | places the file, then checks a recorded digest whoever wrote it |
| JobDataStagers.JobDataStager.WriteJobDataListToFiles | pkg/staging/job_data_stager.go:514-526 | the files and the first error of the whole list |
| JobDataStagers.FailurePersists | pkg/staging/job_data_stager.go:213-323 | stopping at the first failed output is the outcome of the whole list |
| Completion.FinalizeJobCompletion | pkg/scheduler/scheduler.go:280-351 | the files, the updated result and the error, for every job and result |
| Completion.CompleteJob | pkg/daemon/job_manager.go:224-271 | the job's result and progress after the callback: a non-zero 32-bit exit code e ends FAILED with exactly the result (FAILED, e, outputs) and untouched files; otherwise COMPLETED with code 0 when the outputs can be delivered, else FAILED with code 1, an error, and a log line |
| Completion.FinalizedOutputs | pkg/scheduler/scheduler.go:280-351 | finalising an apparent success with outputs leaves the files as materialised and reports the materialised outputs, even those that then fail verification, with the first error of the two |
| Completion.FailedJobEndsFailed | pkg/daemon/job_manager.go:224-271 | a job with a non-zero 32-bit exit code ends FAILED, with that code and its outputs published and nothing written |
| Completion.FinishedJobEndsAsDelivered | pkg/daemon/job_manager.go:224-271 | a job with exit code zero ends COMPLETED with code 0 if its outputs can be delivered, else FAILED with code 1 and the error, which is also logged |
| Completion.CompletedMeansDelivered | pkg/daemon/job_manager.go:224-271 | progress COMPLETED after the callback means every declared file is on disk, not empty, with its reported digest, in order |
| Completion.StatusesAgreeExactly | pkg/daemon/job_manager.go:224-271 | exit code 0, result COMPLETED and progress COMPLETED agree exactly when the exit code is zero, stays non-zero when truncated, or the outputs cannot be delivered |
| Completion.StatusesAgreeForInt32 | pkg/daemon/job_manager.go:224-271 | they agree for every exit code that fits 32 bits |
| Completion.TruncatedExitCodeDisagrees | pkg/daemon/job_manager.go:240-247 | an exit code of 2^32, which no caller passes, would be reported as 0 of a failed job |
| Completion.FinalizeFailsIffUndeliverable | pkg/scheduler/scheduler.go:280-351 | finalising an apparent success fails exactly when some declared file cannot be delivered, a condition on the job, the result and the disk before the call |
| Completion.CompletesExactlyWhenDeliverable | pkg/daemon/job_manager.go:224-271 | a job ends COMPLETED exactly when its exit code is zero and every declared file can be delivered and is not overwritten or empty in the end |
| JobStates.JobState.UpdateProgress | pkg/daemon/job_manager.go:27-51 | the new progress, and one non-blocking offer to each watcher |
| JobStates.JobState.ReportProgress | pkg/daemon/job_manager.go:202-221 | output is appended to the log and watchers are told |
| JobStates.JobState.AddWatcher | pkg/daemon/job_manager.go:64-68 | a fresh open channel is listed |
| JobStates.JobState.RemoveWatcher | pkg/daemon/job_manager.go:71-85 | a listed channel is closed and unlisted, an unlisted one left alone |
| JobStates.JobState.CloseWatchers | pkg/daemon/job_manager.go:89-104 | every listed channel is closed once, after a last offer, and the list emptied |
| JobStates.JobState.Watch | pkg/daemon/job_manager.go:324-347 | uninterrupted, the new channel holds a copy of the progress |
| JobStates.JobState.CancelJob | pkg/daemon/job_manager.go:369-385 | the job is cancelled with its reason as one log line, its result published, and all watchers closed |
| JobStates.OfferAllOffersOnce | pkg/daemon/job_manager.go:44-50 | an update offers exactly once to each listed channel and touches no other |
| JobStates.CloseAllClosesOnce | pkg/daemon/job_manager.go:89-104 | closing touches each listed channel exactly once and no other |
| JobStates.CloseKeepsSafe | pkg/daemon/job_manager.go:89-104 | after closing, every channel ever made is closed |
| JobStates.UpdatesSignalEveryWatcher | pkg/daemon/job_manager.go:44-50 | after an update every watcher has a signal waiting, none waiting before is lost, and one is added wherever fewer than ten were |
| JobStates.ClosingSignalsEveryWatcher | pkg/daemon/job_manager.go:89-104 | closing leaves each watcher a last signal, behind those it had if there was room or its reader made some, and closes its channel |
| JobStates.RemovalIsExact | pkg/daemon/job_manager.go:71-85 | removing a watcher closes exactly its channel and unlists exactly it |
| JobRuns.WatchersStaySafe | pkg/daemon/job_manager.go:27-104 | in every run listed channels are distinct and open, every channel is listed or closed, and no buffer exceeds 10 |
| JobRuns.ConsistentNext | pkg/daemon/job_manager.go:27-104 | no step closes a channel twice, and only the first send of a watch can hit a closed one |
| JobRuns.OnlyLateFirstSendPanics | pkg/daemon/job_manager.go:324-347 | a run first panics exactly at a first send whose channel was closed since it was listed |
| JobRuns.WatchCanPanic | pkg/daemon/job_manager.go:337-385 | any run that stops while an open channel awaits its first send can go on to that panic by a cancellation |
| JobRuns.CancelDuringWatchPanics | pkg/daemon/job_manager.go:337-385 | listing, cancelling (update, then close), then sending reaches it from the start |
| JobRuns.FirstSendProceedsExactly | pkg/daemon/job_manager.go:331-340 | the first send of a watch can go ahead exactly when the watchers were closed meanwhile or fewer than 10 updates came since the channel was listed |
| JobRuns.BlockedUntilClose | pkg/daemon/job_manager.go:331-340 | otherwise it hangs for as long as nobody closes the watchers |
| JobRuns.LogGrows | pkg/daemon/job_manager.go:27-51 | the log only grows by appending, by whole lines when reports are |
| JobRuns.LogIsEverythingReported | pkg/daemon/job_manager.go:27-221 | in every run the job's log is, in step order, each update's message with a newline and each reported output as "[source] data" |
| JobRuns.StatusAndResultAreLastSet | pkg/daemon/job_manager.go:27-51 | in every run the status is the last one set, and the published result is the one stored when a terminal status was last set |
| JobRuns.TranscriptIsItsLines | pkg/daemon/job_manager.go:27-221 | when every message and output is one line, the non-empty lines of that text are the messages and the "[source] line" outputs, in order |
| JobRuns.StreamsFollowLog | pkg/daemon/job_service.go:118-157 | what a streaming handler sent has growing logs, none beyond the job's |
| JobRuns.StreamsSendWhole | pkg/runtime/executor.go:115-149 | when every report ends in a newline, every log sent consists of whole lines |
| JobRuns.LossyWatchingYieldsFullLog | pkg/drivers/job_submission.go:213-284 | whatever updates were dropped, the pieces a client has received add up to the log of its last status, and the lines printed are that log's non-empty lines |
| JobRuns.StreamsStayUpToDate | pkg/daemon/job_service.go:118-157 | in every run the last status sent to a client is the job's progress, unless its channel is closed or something is still to be sent, taken or forwarded |
| JobRuns.DrainedClientHasFullLog | pkg/drivers/job_submission.go:213-284 | a client whose stream is drained and whose earlier statuses were not terminal has received exactly everything said about the job, each message and each "[source] data" in order, and printed exactly its lines when each is one line |
| JobRuns.ClosedStreamReachesClose | pkg/daemon/job_manager.go:89-104 | after the watchers are closed, what the log held by then still reaches every client whose first status had been sent |
| LogClient.PrintDelta | pkg/drivers/job_submission.go:253-274 | prints exactly the non-empty lines of what is new |
| LogClient.Follow | pkg/drivers/job_submission.go:216-284 | prints what each status adds, up to the first terminal one, and keeps the last status |
| LogClient.WatchAndStream | pkg/drivers/job_submission.go:213-374 | the outcome for every stream: an error, or exit code 1 exactly when the last processed status is FAILED or CANCELLED, with that status' own result or one that repeats the status |
| LogClient.DeltasAddUp | pkg/drivers/job_submission.go:253-274 | the deltas of growing logs concatenate to the last log |
| LogClient.PrintedLinesAreLogLines | pkg/drivers/job_submission.go:253-274 | logs growing by whole lines are printed line by line without splitting any |
| LogClient.LinesConcat | pkg/drivers/job_submission.go:253-271 | cutting after a newline splits no line |
| LogClient.SeenIsPrefix | pkg/drivers/job_submission.go:220-284 | the loop processes a prefix of the statuses, ending at the first terminal one |
| LogClient.SeenOfMessage | pkg/drivers/job_submission.go:220-247 | confirmations and updates count alike, messages without a status not at all, and a terminal status ends the loop |
| LogClient.OutputGoesToStderr | pkg/drivers/job_submission.go:261-270 | lines of compiler output go to stderr, lines not starting with a bracket through the logger, each unchanged |
| LogClient.LineIsPrinted | pkg/drivers/job_submission.go:256-271 | a non-empty line with its newline is printed as that line, an empty one not at all |
| JobOutcome.CallbackIsTwoSteps | pkg/daemon/job_manager.go:224-271 | the completion callback is storing a result and then setting a status in the runs of the job |
| JobOutcome.CallbackSets | pkg/daemon/job_manager.go:224-271 | the callback sets COMPLETED exactly for exit code zero and deliverable outputs, else FAILED, with a result saying the same |
| JobOutcome.DriverExitsZeroExactly | pkg/drivers/job_submission.go:213-374 | in every run whose last change of status is the callback's, a driver following a drained stream exits 0 exactly when the exit code was zero and the outputs could be delivered, else 1, and returns the stored result with the job's own exit code |
| Strings.ParseOfFormat | pkg/runtime/proto.go:296-323 | printing a number and parsing it as uint32 returns it exactly when it fits |
| Strings.FormatOfParse | pkg/runtime/proto.go:296-323 | parsing a numeral and printing it returns the text exactly when it is canonical |
| Strings.SplitOfJoin | pkg/runtime/proto.go:111-220 | splitting undoes joining of separator-free parts |
| Strings.JoinDetermines | pkg/runtime/proto.go:193-220 | a list joining to the text of an equally long separator-free list is that list |
| RuntimeIds.VersionRoundTrip | pkg/runtime/proto.go:296-399 | printing and re-reading a version returns it exactly when it has no prerelease label and no patch without a minor number |
| RuntimeIds.ParseOfRuntimeId | pkg/runtime/proto.go:111-220 | every printed native identifier with specified fields parses, to the toolchain it was printed from |
| RuntimeIds.ParseOfIdParts | pkg/runtime/parsers.go:25-89 | the five-part C and six-part C++ forms give back the fields they were printed from, with toolchain C |
| RuntimeIds.RuntimeIdRoundTrip | pkg/runtime/proto.go:111-220 | the round trip keeps platform and toolchain fields exactly when both versions are printable |
| RuntimeIds.RuntimeIdInjective | pkg/runtime/proto.go:193-220 | equal identifiers of such runtimes mean equal toolchains |
| RuntimeIds.DockerIdsDoNotParse | pkg/runtime/parsers.go:14-17 | container identifiers are printed but never parsed |
| RuntimeIds.BothSpellingsAgree | pkg/runtime/proto.go:111-188 | "native_linux-" and "native-linux-" before any rest both fail or parse to the same runtime up to its Id |
| RuntimeIds.ParsesExactlyWellFormed | pkg/runtime/proto.go:111-188 | an identifier parses exactly when its dash-separated parts are a native platform in either spelling, c or cpp, and five or six parts of known compiler, version, C runtime, version, standard library if six, and architecture |
| RuntimeIds.ParsedFieldsPrintBack | pkg/runtime/parsers.go:25-89 | each parsed field prints back to its part; six parts mean C++ and five C, whatever the language part says |
| RuntimeIds.VersionReadsParts | pkg/runtime/proto.go:296-323 | each of the first three dotted parts of a version is a uint32 numeral or leaves its field unset, the major number being 0 then |
| NativeRuntimes.NativeVersionReprints | pkg/runtimes/cpp/native/cpp_runtime.go:671-721 | a detected version is re-printed unchanged exactly when it is one to three canonical uint32 numerals |
| NativeRuntimes.NativeAndProtoIdsAgree | pkg/runtimes/cpp/native/cpp_runtime.go:288-551 | the runtime's own identifier equals the one printed from its proto form exactly when both versions are canonical |
| NativeRuntimes.NativeAndDriverIdsAgree | pkg/drivers/cpp/gcc_common/runtime_id.go:22-43 | the driver builds the runtime's own identifier from the same settings |
| NativeRuntimes.ParsedNativeIdIsProto | pkg/runtimes/cpp/native/cpp_runtime.go:532-551 | parsing a native identifier gives what the proto form reports, except ABI data and the C++ toolchain family |
| ArCommands.IsCommand | pkg/drivers/cpp/ar_common/parser.go:127-166 | a command letter, after an optional dash, followed only by modifier letters |
| ArCommands.SkipOption | pkg/drivers/cpp/ar_common/parser.go:88-123 | which arguments are options and whether they take the next one |
| ArCommands.ExtractCommandAndModifiers | pkg/drivers/cpp/ar_common/parser.go:169-184 | one flag per character |
| ArCommands.UpdateModeFromFlags | pkg/drivers/cpp/ar_common/parser.go:187-206 | the last flag that sets a mode decides |
| ArCommands.ParseCommandLine | pkg/drivers/cpp/ar_common/parser.go:16-84 | the parse of every argument list; it ends |
| ArCommands.BuildArchiveArgs | pkg/runtimes/cpp/native/executor.go:234-250 | flags joined into one argument, archive, inputs |
| ArCommands.ArchiveAndInputsAreSuffix | pkg/drivers/cpp/ar_common/parser.go:16-84 | archive and inputs are a suffix of the arguments, or both are empty |
| ArCommands.ArCommandIsStable | pkg/runtimes/cpp/native/executor.go:234-250 | parsing the rebuilt command gives back the same parse, for every argument list |
| ArSyntax.CommandLineMeans | pkg/drivers/cpp/ar_common/parser.go:16-84 | options with their values, a command, more options, an archive and inputs parse to the letters of the command, that archive and those inputs |
| ArSyntax.OptionInFrontIsSkipped | pkg/drivers/cpp/ar_common/parser.go:88-123 | an option in front of the command changes nothing, with the next argument when it is --plugin, --target or --output |
| ArSyntax.OptionBehindIsSkipped | pkg/drivers/cpp/ar_common/parser.go:88-123 | nor does one behind the command |
| ArSyntax.ArchiveWithoutCommand | pkg/drivers/cpp/ar_common/parser.go:16-84 | without a command the first argument that is no option is the archive, the rest are inputs, and the mode is to write |
| ArSyntax.LastModeFlagDecides | pkg/drivers/cpp/ar_common/parser.go:187-206 | the last of the letters r, u, c, v and q, in either case, sets the mode |
| ArSyntax.NoModeFlagWrites | pkg/drivers/cpp/ar_common/parser.go:187-206 | without any of them the mode is to write |
| ArSyntax.FlagsAreLetters | pkg/drivers/cpp/ar_common/parser.go:169-184 | the flags are the characters of the command behind its optional dash, one by one |
| LinkCommands.ParseOne | pkg/drivers/cpp/gcc_common/parser.go:25-101 | one argument is read by its kind, with the next one when its value is not attached |
| LinkCommands.ParseCommandLine | pkg/drivers/cpp/gcc_common/parser.go:10-112 | the parse of every argument list |
| LinkCommands.BuildLinkArgs | pkg/runtimes/cpp/native/executor.go:159-183 | the rebuilt link command |
| LinkCommands.InputsComeInOrder | pkg/runtimes/cpp/native/executor.go:159-183 | -shared first, then objects, library files, -l options, linker flags and the output, each list in its own order |
| LinkCommands.ParseIsSorted | pkg/drivers/cpp/gcc_common/parser.go:25-101 | parsed lists hold only arguments of their own kind, and the shared flag mirrors -shared among the linker flags |
| LinkCommands.LinkCommandIsStable | pkg/runtimes/cpp/native/executor.go:159-183 | the rebuilt link command parses to the same mode, shared flag, objects, libraries, output, and linker flags up to one leading -shared |
| LinkCommands.LibrariesSurviveIffNamed | pkg/runtimes/cpp/native/executor.go:170-174 | the libraries survive exactly when none has an empty name |
| LinkCommands.PassThroughNeverLinks | pkg/drivers/cpp/gcc_common/parser.go:115-150 | no -W option, "-Wl," included, is ever a linker flag |
| LinkSyntax.CommandLineMeansItsItems | pkg/drivers/cpp/gcc_common/parser.go:10-112 | a command line of options and inputs is parsed to what each of them says, in order, values attached or not; -c means compile only, and objects without sources a link |
| LinkSyntax.EveryArgumentListIsWritten | pkg/drivers/cpp/gcc_common/parser.go:10-112 | every argument list is such a command line, possibly ending in an option without its value, which adds nothing |
| Combinations.VariantCombinator.AddDimension | pkg/runtimes/cpp/native/variant_detector.go:132-137 | an empty list adds no dimension, so no dimension is ever empty |
| Combinations.VariantCombinator.GenerateCombinations | pkg/runtimes/cpp/native/variant_detector.go:142-167 | the nested loops build the product |
| Combinations.CombinationCount | pkg/runtimes/cpp/native/variant_detector.go:142-167 | as many combinations as the product of the sizes, none for no dimensions |
| Combinations.CombinationDigits | pkg/runtimes/cpp/native/variant_detector.go:142-167 | element d of combination k is the item its mixed-radix digit selects |
| Combinations.EveryTupleAppears | pkg/runtimes/cpp/native/variant_detector.go:142-167 | every choice of one item per dimension is generated |
| Combinations.TuplesRepeatExactlyWhenItemsDo | pkg/runtimes/cpp/native/variant_detector.go:142-167 | each tuple is generated once if and only if no dimension lists an item twice |
| ForkJoin.Map | internal/utils/map.go:22-58 | for every completion order, the sequential map or the aggregate of all errors in input order |
| ForkJoin.AggregateErrors | internal/utils/map.go:181-198 | none, the single error itself, or all of them wrapped, nil slots skipped |
| ForkJoin.FilterMap | internal/utils/map.go:72-134 | for every completion order, the sequentially kept values in input order, or exactly the sequential errors |
| ForkJoin.SameErrorsInAnyOrder | internal/utils/map.go:72-134 | whatever the completion order, the same errors arrive |
| ForkJoin.ErrorsArePicked | internal/utils/map.go:22-58 | the errors of a map are those of exactly the failing elements, in their order |
| ForkJoin.KeptArePicked | internal/utils/map.go:72-134 | a filtering map keeps exactly the values its elements gave, in their order |
| ForkJoin.NonNilArePicked | internal/utils/map.go:181-198 | aggregating skips exactly the empty slots |
| ForkJoin.OrderCovers | internal/utils/map.go:34-48 | every goroutine has finished at the join |
| LogRegistry.OperationKeepsIntact | pkg/logging/logger.go:352-583 | every operation keeps each sink named by a configured logger registered |
| LogRegistry.RegistryStaysIntact | pkg/logging/logger.go:352-583 | so does every sequence of operations, by any number of callers |
| LogRegistry.GuardsAreExact | pkg/logging/logger.go:386-552 | removing, setting or attaching is refused exactly when its effect would break that |
| LogRegistry.AncestorIsParent | pkg/logging/logger.go:218-225 | every dotted ancestor is one of the parents the loop tries |
| LogRegistry.ResolutionIsUnique | pkg/logging/logger.go:209-228 | no name has two longest configured ancestors |
| LogRegistry.Registry.GetLoggerConfig | pkg/logging/logger.go:209-228 | the configuration of the longest configured ancestor, or none |
| LogRegistry.Registry.FindResolvedLoggerName | pkg/logging/logger.go:332-349 | the name of the longest configured ancestor, or "" |
| LogRegistry.LookupsAgreeExactly | pkg/logging/logger.go:209-349 | the two lookups agree for every name exactly when the empty name is not configured |
| LogRegistry.Registry.RegisterSink | pkg/logging/logger.go:352-362 | a new name is registered, a taken one refused |
| LogRegistry.Registry.SetLoggerSinks | pkg/logging/logger.go:386-409 | the list is set, creating the logger, unless a sink is not registered |
| LogRegistry.Registry.SetLoggerLevel | pkg/logging/logger.go:425-438 | the level of a configured logger is set |
| LogRegistry.Registry.SetSinkLevel | pkg/logging/logger.go:469-480 | the level of a registered sink is set |
| LogRegistry.Registry.RemoveSink | pkg/logging/logger.go:483-510 | a registered sink no logger names is removed, any other refused |
| LogRegistry.Registry.RemoveLogger | pkg/logging/logger.go:513-523 | a configured logger is removed |
| LogRegistry.Registry.AttachSink | pkg/logging/logger.go:526-552 | a registered sink not yet attached is appended |
| LogRegistry.Registry.DetachSink | pkg/logging/logger.go:555-583 | every occurrence of an attached sink is dropped, the rest kept in order |
| LogRegistry.Registry.Route | pkg/logging/logger.go:128-200 | a record reaches all enabled sinks of the resolved configuration in order, exactly when it passes the global and the logger's level |
| LogRegistry.ReceiversAreSelected | pkg/logging/logger.go:128-200 | a record reaches nobody unless its level is at least the global and the configured one, and then exactly the named sinks whose handler takes its level, in order |
| LogRegistry.LoggerLevelRoutes | pkg/logging/logger.go:425-438 | setting a logger's level changes what records of the loggers resolving to it need, not where they go, and nothing for other loggers |
| LogRegistry.SinkLevelNeverRoutes | pkg/logging/logger.go:469-480 | setting a sink's level changes nothing about which sinks get a record |
| LogRegistry.RemainingSplits | pkg/logging/logger.go:555-583 | names are dropped from a list in order |
| LogRegistry.RemainingCounts | pkg/logging/logger.go:555-583 | a name loses all of its occurrences or none |
| LogConfigManager.RegisteringKeepsPlacesApartExactly | pkg/logging/config_manager.go:374-424 | registering a sink keeps sinks on different streams and files exactly when nothing overlaps it at that moment |
| LogConfigManager.AddingKeepsPlacesApart | pkg/logging/config_manager.go:374-386 | a call that no other call overlaps never adds a sink sharing a stream or file with another |
| LogConfigManager.OverlappingAddsShareAFile | pkg/logging/config_manager.go:374-424 | two calls that both check before either registers add two sinks for one file |
| LogConfigManager.DropOneMore | pkg/logging/config_manager.go:275-289 | detaching and removing one more file sink, errors ignored, keeps the sinks other loggers use |
| LogConfigManager.OneFileSinkAfterEnable | pkg/logging/config_manager.go:267-312 | success leaves exactly one file sink attached, the new one, and the other sinks and loggers as they were |
| LogConfigManager.FailedEnableKeepsStateExactly | pkg/logging/config_manager.go:267-312 | a failed call leaves everything as it was exactly when the logger had no file sink |
| LogConfigManager.FailedEnableCanLoseFileSink | pkg/logging/config_manager.go:267-312 | a shared file sink makes the call fail and the logger lose it |
| LogConfigManager.LocalConfigManager.AddSinkInternal | pkg/logging/config_manager.go:362-429 | a sink is added exactly when its type is known, nothing overlaps, a file has a path and a handler, and the name is free |
| LogConfigManager.LocalConfigManager.EnableFileSink | pkg/logging/config_manager.go:267-312 | when it succeeds and the whole new state either way; an unknown logger changes nothing |
| LogConfigManager.LocalConfigManager.DisableFileSink | pkg/logging/config_manager.go:316-349 | the first file sink is dropped, and the call succeeds exactly when no other logger uses it |

## Left out

- Sockets, protobuf, HTTP servers and clients, subprocesses, compiler detection, CLI and
  configuration: a message is a value, an exit code and its output are inputs.
- Failing sends and marshalling in gossip: a lost packet stands for them. The announcement's steps
  (ignore list, then peer list) are one step of the network.
- Daemons restarting under the same id, and the removal of peers, which the discoverer never does.
- Nil runtimes, known peers and `FileData` inside messages, which the wire format cannot carry; empty
  embedded content arriving as absent content.
- The time stamps of `PeerInfo` in the network model; they are in `PeerManager`.
- PeerManager.Manager.RegisterPeer: does not model the callback for a discovered peer, which is set by
  the caller and changes nothing here.
- Scheduling.Scheduler.ScheduleJob: does not model nil requests, the returned decision or the error
  texts; the heuristic and the runtime lookup are one four-valued outcome.
- LogClient.WatchAndStream: does not model the writing of output files after the loop, whose failure
  is only logged and changes neither the result nor the exit code.
- Empty directories, file modes and times, partial writes, and uncleaned paths such as `a/../b`: a path
  names a place, joining is the normalised join, and the directories are those on the way to a file.
- `WriteJobDataToFileWithSourceDir` and the client's own writing of outputs: they repeat the placing
  of `WriteJobDataToFile` with another source directory.
- The heuristic's choice and the runtime lookup: an arbitrary function of the attempt, the job and
  the queue count.
- Terminal job statuses are not absorbing in the code, so no such property is stated.
- Goroutine steps inside `Map` and `FilterMap`: a schedule is the order in which elements finish, and
  the mapped function is pure. `ForEach` repeats their error half.
- Slices: queues, lists and sink names are sequences that methods reassign, so sharing of a backing
  array between slices is not captured.
- Absolute paths made relative by the executor in link and archive jobs, library directories (the
  conversion to a link job drops them), and the rebuilding of compile jobs.
- Log formatting, rotation, attributes and groups of records, active-logger tracking and its
  finalizers, real time outs.
- `AddLogger` on a new logger, which fails in the code, and the settings of file sinks beyond path
  and level.
