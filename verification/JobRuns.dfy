/** Runs of one job with many watchers: callbacks, cancellations and subscriptions in any
    order, and the streaming handlers that drain the channels at their own pace. */
module JobRuns {
  import opened Wrappers
  import opened JobStates
  import opened LogClient

  /** `awaiting`: listed by WatchJobStatus, first send still to come (it is outside the lock); the
      call has not returned, so nobody reads or removes the channel yet.
      `owed`: signal taken by the handler, status not read yet. `streams`: what each handler
      has sent to its client. `panicked`: a send or close hit a closed channel. */
  datatype World = World(job: State, awaiting: set<ChannelId>, owed: set<ChannelId>,
                         streams: map<ChannelId, seq<Progress>>, panicked: bool)

  const START := World(State(Progress(Received, "", None), None, [], map[]), {}, {}, map[], false)

  datatype Step =
    | Advance(status: Status, message: string)
    | ReportOutput(isOutput: bool, source: string, data: string)
    | StoreResult(result: JobResult)
    | Register(id: ChannelId)
    | FirstSend(id: ChannelId)
    | Unwatch(id: ChannelId)
    | CloseListed(readers: set<ChannelId>)
    | Take(id: ChannelId)
    | Forward(id: ChannelId)

  ghost predicate Next(s: World, step: Step, s': World) {
    match step
    case Advance(status, message) => s' == s.(job := Updated(s.job, status, message))
    case ReportOutput(isOutput, source, data) => s' == s.(job := Reported(s.job, isOutput, source, data))
    case StoreResult(result) => s' == s.(job := s.job.(result := Some(result)))
    case Register(id) =>
      && id !in s.job.channels
      && s' == s.(job := s.job.(watchers := s.job.watchers + [id],
                                channels := s.job.channels[id := Channel([], false)]),
                  awaiting := s.awaiting + {id}, streams := s.streams[id := []])
    case FirstSend(id) =>
      && id in s.awaiting && id in s.job.channels
      && var c := s.job.channels[id];
      if c.closed then s' == s.(awaiting := s.awaiting - {id}, panicked := true)
      else
        && |c.buffer| < CAPACITY
        && s' == s.(awaiting := s.awaiting - {id},
                    job := s.job.(channels := s.job.channels[id := c.(buffer := c.buffer + [Copied(s.job.progress)])]))
    case Unwatch(id) =>
      && id !in s.awaiting
      && s' == s.(job := RemovedWatcher(s.job, id), panicked := s.panicked || ClosesTwice(s.job, id))
    case CloseListed(readers) =>
      s' == s.(job := ClosedWatchers(s.job, readers),
               panicked := s.panicked || exists id :: id in s.job.watchers && ClosesTwice(s.job, id))
    case Take(id) =>
      && id !in s.awaiting && id !in s.owed && id in s.job.channels && s.job.channels[id].buffer != []
      && s' == s.(owed := s.owed + {id},
                  job := s.job.(channels := s.job.channels[id := Taken(s.job.channels[id])]))
    case Forward(id) =>
      && id in s.owed && id in s.streams
      && s' == s.(owed := s.owed - {id}, streams := s.streams[id := s.streams[id] + [s.job.progress]])
  }

  function Taken(c: Channel): Channel
    requires c.buffer != []
  {
    c.(buffer := c.buffer[1..])
  }

  /** Closing a listed channel that is already closed would panic. */
  ghost predicate ClosesTwice(s: State, id: ChannelId) {
    id in s.watchers && id in s.channels && s.channels[id].closed
  }

  ghost predicate Run(states: seq<World>, steps: seq<Step>) {
    && |states| == |steps| + 1 && states[0] == START
    && forall k {:trigger steps[k]} :: 0 <= k < |steps| ==> Next(states[k], steps[k], states[k + 1])
  }

  // ---------- Watcher safety ----------

  ghost predicate Consistent(s: World) {
    && Safe(s.job)
    && s.streams.Keys == s.job.channels.Keys
    && s.awaiting <= s.job.channels.Keys
    && s.owed <= s.job.channels.Keys
  }

  /** The steps that touch a single channel. */
  lemma OneChannelStepKeepsConsistent(s: World, step: Step, s': World)
    requires Consistent(s) && Next(s, step, s')
    requires step.FirstSend? || step.Take?
    ensures Consistent(s')
  {
  }

  lemma RegisterKeepsConsistent(s: World, id: ChannelId, s': World)
    requires Consistent(s) && Next(s, Register(id), s')
    ensures Consistent(s')
  {
  }

  lemma ConsistentNext(s: World, step: Step, s': World)
    requires Consistent(s) && Next(s, step, s')
    ensures Consistent(s')
    ensures s'.panicked <==> s.panicked || (step.FirstSend? && s.job.channels[step.id].closed)
  {
    match step
    case Advance(status, message) =>
      OfferAllOffersOnce(s.job.channels, s.job.watchers);
      UpdatesKeepSafe(s.job, s'.job.progress);
    case ReportOutput(isOutput, source, data) =>
      OfferAllOffersOnce(s.job.channels, s.job.watchers);
      UpdatesKeepSafe(s.job, s'.job.progress);
    case Unwatch(id) => RemoveKeepsSafe(s.job, id);
    case CloseListed(readers) => CloseKeepsSafe(s.job, readers);
    case Register(id) => RegisterKeepsConsistent(s, id, s');
    case FirstSend(id) => OneChannelStepKeepsConsistent(s, step, s');
    case Take(id) => OneChannelStepKeepsConsistent(s, step, s');
    case _ =>
  }

  /** In every state of every run: watchers are distinct open channels, every created channel
      is listed or closed, and no buffer exceeds its capacity. */
  lemma {:induction false} WatchersStaySafe(states: seq<World>, steps: seq<Step>, k: nat)
    requires Run(states, steps) && k < |states|
    ensures Consistent(states[k])
  {
    if k > 0 {
      WatchersStaySafe(states, steps, k - 1);
      ConsistentNext(states[k - 1], steps[k - 1], states[k]);
    }
  }

  /** Some close fell between the registration of id and step k. */
  ghost predicate ClosedSinceRegistration(steps: seq<Step>, k: nat, id: ChannelId)
    requires k <= |steps|
  {
    exists i, j :: 0 <= i < j < k && steps[i] == Register(id) && steps[j].CloseListed?
  }

  lemma AwaitedBefore(s: World, step: Step, s': World, id: ChannelId)
    requires Consistent(s) && Next(s, step, s') && id in s'.awaiting && step != Register(id)
    ensures id in s.awaiting && id in s.job.channels
  {
  }

  lemma ClosedSinceGrows(steps: seq<Step>, k: nat, id: ChannelId)
    requires k < |steps| && steps[k] != Register(id) && exists i :: 0 <= i < k && steps[i] == Register(id)
    ensures ClosedSinceRegistration(steps, k + 1, id) <==>
      ClosedSinceRegistration(steps, k, id) || steps[k].CloseListed?
  {
  }

  lemma {:induction false} AwaitingClosedIff(states: seq<World>, steps: seq<Step>, k: nat, id: ChannelId)
    requires Run(states, steps) && k < |states|
    requires id in states[k].awaiting
    ensures id in states[k].job.channels
    ensures states[k].job.channels[id].closed <==> ClosedSinceRegistration(steps, k, id)
    ensures exists i :: 0 <= i < k && steps[i] == Register(id)
    decreases k
  {
    WatchersStaySafe(states, steps, k);
    if k > 0 {
      WatchersStaySafe(states, steps, k - 1);
      var s, step := states[k - 1], steps[k - 1];
      assert Next(s, step, states[k]);
      if step == Register(id) {
        RegisteredOnce(states, steps, k - 1, id);
      } else {
        AwaitedBefore(s, step, states[k], id);
        AwaitingClosedIff(states, steps, k - 1, id);
        ChannelStaysAsIs(s, step, states[k], id);
        ClosedSinceGrows(steps, k - 1, id);
      }
    }
  }

  /** While a channel awaits its first send, only a close changes whether it is closed. */
  lemma ChannelStaysAsIs(s: World, step: Step, s': World, id: ChannelId)
    requires Consistent(s) && Next(s, step, s')
    requires id in s.awaiting && id in s'.awaiting && id in s'.job.channels
    ensures s'.job.channels[id].closed <==> s.job.channels[id].closed || step.CloseListed?
  {
    match step
    case Advance(status, message) => OfferAllOffersOnce(s.job.channels, s.job.watchers);
    case ReportOutput(isOutput, source, data) => OfferAllOffersOnce(s.job.channels, s.job.watchers);
    case CloseListed(readers) => CloseAllClosesOnce(s.job.channels, s.job.watchers, readers);
    case _ =>
  }

  lemma ChannelsNeverVanish(s: World, step: Step, s': World)
    requires Consistent(s) && Next(s, step, s')
    ensures s.job.channels.Keys <= s'.job.channels.Keys
  {
    match step
    case Advance(status, message) => OfferAllOffersOnce(s.job.channels, s.job.watchers);
    case ReportOutput(isOutput, source, data) => OfferAllOffersOnce(s.job.channels, s.job.watchers);
    case CloseListed(readers) => CloseAllClosesOnce(s.job.channels, s.job.watchers, readers);
    case _ =>
  }

  lemma {:induction false} RegisteredOnce(states: seq<World>, steps: seq<Step>, k: nat, id: ChannelId)
    requires Run(states, steps) && k < |states| && id !in states[k].job.channels
    ensures forall i :: 0 <= i < k ==> steps[i] != Register(id)
  {
    if k > 0 {
      var s, step := states[k - 1], steps[k - 1];
      assert Next(s, step, states[k]);
      WatchersStaySafe(states, steps, k - 1);
      ChannelsNeverVanish(s, step, states[k]);
      RegisteredOnce(states, steps, k - 1, id);
    }
  }

  /** The only step that can ever hit a closed channel is the first send of WatchJobStatus,
      and it does so exactly when the watchers were closed since it listed its channel. */
  lemma OnlyLateFirstSendPanics(states: seq<World>, steps: seq<Step>, k: nat)
    requires Run(states, steps) && k < |steps| && !states[k].panicked
    ensures states[k + 1].panicked <==> steps[k].FirstSend? && ClosedSinceRegistration(steps, k, steps[k].id)
  {
    WatchersStaySafe(states, steps, k);
    ConsistentNext(states[k], steps[k], states[k + 1]);
    if steps[k].FirstSend? {
      assert Next(states[k], steps[k], states[k + 1]);
      AwaitingClosedIff(states, steps, k, steps[k].id);
    }
  }

  /** In any state in which a listed channel awaits its first send, a cancellation leads to a send
      on a closed channel. */
  lemma CancelBeforeFirstSendPanics(s: World, id: ChannelId, reason: string) returns (t: World, u: World, v: World)
    requires Consistent(s) && id in s.awaiting && !s.job.channels[id].closed
    ensures Next(s, Advance(Cancelled, "Cancelled: " + reason), t) && Next(t, CloseListed({}), u)
    ensures Next(u, FirstSend(id), v) && v.panicked
  {
    t := s.(job := Updated(s.job, Cancelled, "Cancelled: " + reason));
    UpdatesKeepSafe(s.job, t.job.progress);
    OfferAllOffersOnce(s.job.channels, s.job.watchers);
    u := t.(job := ClosedWatchers(t.job, {}));
    CloseKeepsSafe(t.job, {});
    v := u.(awaiting := u.awaiting - {id}, panicked := true);
  }

  lemma FirstChannelIsListed(id: ChannelId) returns (listed: World)
    ensures Next(START, Register(id), listed) && Consistent(listed)
    ensures id in listed.awaiting && !listed.job.channels[id].closed
  {
    listed := START.(job := START.job.(watchers := [id], channels := map[id := Channel([], false)]),
                     awaiting := {id}, streams := map[id := []]);
    assert START.job.watchers + [id] == [id] && START.awaiting + {id} == {id};
  }

  lemma RunGoesOn(states: seq<World>, steps: seq<Step>, step: Step, s': World)
    requires Run(states, steps) && Next(states[|steps|], step, s')
    ensures Run(states + [s'], steps + [step])
  {
    var longer, more := states + [s'], steps + [step];
    forall k | 0 <= k < |more| ensures Next(longer[k], more[k], longer[k + 1]) {
      if k < |steps| {
        assert more[k] == steps[k] && longer[k] == states[k] && longer[k + 1] == states[k + 1];
      }
    }
  }

  function CancelThenSend(id: ChannelId, reason: string): (steps: seq<Step>)
    ensures |steps| == 3
  {
    [Advance(Cancelled, "Cancelled: " + reason), CloseListed({}), FirstSend(id)]
  }

  /** Any run that stops while an open channel awaits its first send can go on to panic: the job is
      cancelled and the first status is sent after that. */
  lemma WatchCanPanic(states: seq<World>, steps: seq<Step>, id: ChannelId, reason: string)
      returns (longer: seq<World>)
    requires Run(states, steps) && id in states[|steps|].awaiting && id in states[|steps|].job.channels
    requires !states[|steps|].job.channels[id].closed
    ensures Run(longer, steps + CancelThenSend(id, reason)) && longer[|steps| + 3].panicked
  {
    WatchersStaySafe(states, steps, |steps|);
    var t, u, v := CancelBeforeFirstSendPanics(states[|steps|], id, reason);
    var more := CancelThenSend(id, reason);
    RunGoesOn(states, steps, more[0], t);
    RunGoesOn(states + [t], steps + [more[0]], more[1], u);
    RunGoesOn(states + [t] + [u], steps + [more[0]] + [more[1]], more[2], v);
    longer := states + [t] + [u] + [v];
    assert steps + [more[0]] + [more[1]] + [more[2]] == steps + more;
  }

  /** So listing a channel, cancelling and then sending the first status panics. */
  lemma CancelDuringWatchPanics(id: ChannelId, reason: string) returns (states: seq<World>)
    ensures Run(states, [Register(id)] + CancelThenSend(id, reason)) && states[4].panicked
  {
    var listed := FirstChannelIsListed(id);
    RunGoesOn([START], [], Register(id), listed);
    assert [] + [Register(id)] == [Register(id)];
    states := WatchCanPanic([START] + [listed], [Register(id)], id, reason);
  }

  // ---------- The first send can hang ----------

  predicate IsUpdate(step: Step) { step.Advance? || step.ReportOutput? }

  /** The updates among the steps from i up to k. */
  function UpdateCount(steps: seq<Step>, i: nat, k: nat): nat
    requires k <= |steps|
  {
    if k <= i then 0 else UpdateCount(steps, i, k - 1) + if IsUpdate(steps[k - 1]) then 1 else 0
  }

  function Capped(n: nat): nat { if n < CAPACITY then n else CAPACITY }

  lemma CappedAdds(n: nat, m: nat)
    ensures Capped(Capped(n) + m) == Capped(n + m)
  {
  }

  /** While an open channel awaits its first send nobody reads it: each update fills it further. */
  lemma AwaitingFills(s: World, step: Step, s': World, id: ChannelId)
    requires Consistent(s) && Next(s, step, s')
    requires id in s.awaiting && id in s'.awaiting && id in s'.job.channels
    requires !s'.job.channels[id].closed
    ensures !s.job.channels[id].closed
    ensures |s'.job.channels[id].buffer| == Capped(|s.job.channels[id].buffer| + if IsUpdate(step) then 1 else 0)
  {
    ChannelStaysAsIs(s, step, s', id);
    assert id in s.job.watchers;
    match step
    case Advance(status, message) => OfferAllOffersOnce(s.job.channels, s.job.watchers);
    case ReportOutput(isOutput, source, data) => OfferAllOffersOnce(s.job.channels, s.job.watchers);
    case _ =>
  }

  /** While it is open and awaits its first send, the channel holds n entries, up to its capacity. */
  ghost predicate Holds(s: World, id: ChannelId, n: nat) {
    id in s.awaiting && id in s.job.channels && !s.job.channels[id].closed ==>
      |s.job.channels[id].buffer| == Capped(n)
  }

  lemma HoldsNothingWhenListed(s: World, id: ChannelId, s': World)
    requires Next(s, Register(id), s')
    ensures Holds(s', id, 0)
  {
  }

  lemma HoldsOneMore(s: World, step: Step, s': World, id: ChannelId, n: nat)
    requires Consistent(s) && Next(s, step, s') && step != Register(id) && Holds(s, id, n)
    ensures Holds(s', id, n + if IsUpdate(step) then 1 else 0)
  {
    if id in s'.awaiting && id in s'.job.channels && !s'.job.channels[id].closed {
      AwaitedBefore(s, step, s', id);
      AwaitingFills(s, step, s', id);
      CappedAdds(n, if IsUpdate(step) then 1 else 0);
    }
  }

  /** An open channel awaiting its first send holds one entry for each update since it was listed,
      up to its capacity. */
  lemma {:induction false} AwaitingHoldsUpdates(states: seq<World>, steps: seq<Step>, i: nat, k: nat, id: ChannelId)
    requires Run(states, steps) && i < k < |states| && steps[i] == Register(id)
    ensures Holds(states[k], id, UpdateCount(steps, i + 1, k))
    decreases k
  {
    if i == k - 1 {
      HoldsNothingWhenListed(states[i], id, states[k]);
    } else {
      WatchersStaySafe(states, steps, k - 1);
      ListedStaysKnown(states, steps, i, k - 1, id);
      KnownIsNotListedAgain(states[k - 1], steps[k - 1], states[k], id);
      AwaitingHoldsUpdates(states, steps, i, k - 1, id);
      HoldsOneMore(states[k - 1], steps[k - 1], states[k], id, UpdateCount(steps, i + 1, k - 1));
    }
  }

  /** A channel that was listed stays known, and is not listed again. */
  lemma {:induction false} ListedStaysKnown(states: seq<World>, steps: seq<Step>, i: nat, k: nat, id: ChannelId)
    requires Run(states, steps) && i < k < |states| && steps[i] == Register(id)
    ensures id in states[k].job.channels
    decreases k
  {
    assert Next(states[k - 1], steps[k - 1], states[k]);
    if i < k - 1 {
      WatchersStaySafe(states, steps, k - 1);
      ListedStaysKnown(states, steps, i, k - 1, id);
      ChannelsNeverVanish(states[k - 1], steps[k - 1], states[k]);
    }
  }

  lemma KnownIsNotListedAgain(s: World, step: Step, s': World, id: ChannelId)
    requires Next(s, step, s') && id in s.job.channels
    ensures step != Register(id)
  {
  }

  /** The first send of a watch can go ahead exactly when the watchers were closed meanwhile (and
      then it panics) or fewer updates than the capacity came since the channel was listed. */
  lemma FirstSendProceedsExactly(states: seq<World>, steps: seq<Step>, i: nat, k: nat, id: ChannelId)
    requires Run(states, steps) && i < k < |states| && steps[i] == Register(id) && id in states[k].awaiting
    ensures (exists s' :: Next(states[k], FirstSend(id), s')) <==>
      ClosedSinceRegistration(steps, k, id) || UpdateCount(steps, i + 1, k) < CAPACITY
  {
    var s := states[k];
    AwaitingClosedIff(states, steps, k, id);
    var c := s.job.channels[id];
    if c.closed {
      assert Next(s, FirstSend(id), s.(awaiting := s.awaiting - {id}, panicked := true));
    } else {
      AwaitingHoldsUpdates(states, steps, i, k, id);
      if |c.buffer| < CAPACITY {
        var sent := c.(buffer := c.buffer + [Copied(s.job.progress)]);
        assert Next(s, FirstSend(id), s.(awaiting := s.awaiting - {id},
                                         job := s.job.(channels := s.job.channels[id := sent])));
      }
    }
  }

  /** Once blocked, the call hangs for as long as nobody closes the watchers. */
  lemma {:induction false} BlockedUntilClose(states: seq<World>, steps: seq<Step>, k: nat, l: nat, id: ChannelId)
    requires Run(states, steps) && k <= l < |states|
    requires id in states[k].awaiting && id in states[k].job.channels
    requires !states[k].job.channels[id].closed && |states[k].job.channels[id].buffer| == CAPACITY
    requires forall j :: k <= j < l ==> !steps[j].CloseListed?
    ensures id in states[l].awaiting && id in states[l].job.channels
    ensures !states[l].job.channels[id].closed && |states[l].job.channels[id].buffer| == CAPACITY
    decreases l
  {
    if k < l {
      BlockedUntilClose(states, steps, k, l - 1, id);
      var s, step, s' := states[l - 1], steps[l - 1], states[l];
      assert Next(s, step, s');
      WatchersStaySafe(states, steps, l - 1);
      ChannelsNeverVanish(s, step, s');
      assert id in s'.awaiting;
      ChannelStaysAsIs(s, step, s', id);
      AwaitingFills(s, step, s', id);
    }
  }

  // ---------- The log survives lossy watching ----------

  /** The log only ever grows by appending, by whole lines when every report is whole lines. */
  lemma LogGrows(s: World, step: Step, s': World)
    requires Next(s, step, s')
    ensures s.job.progress.log <= s'.job.progress.log
    ensures WholeLines(s.job.progress.log) && ReportsWholeLines(step) ==> WholeLines(s'.job.progress.log)
  {
  }

  /** What a step adds to the log. */
  function SaidBy(step: Step): string {
    match step
    case Advance(_, message) => if message == "" then "" else message + "\n"
    case ReportOutput(isOutput, source, data) => if isOutput then "[" + source + "] " + data else ""
    case _ => ""
  }

  /** Everything said in the first k steps, in order. */
  function Transcript(steps: seq<Step>, k: nat): string
    requires k <= |steps|
  {
    if k == 0 then "" else Transcript(steps, k - 1) + SaidBy(steps[k - 1])
  }

  /** The result stored last. */
  function StoredResult(steps: seq<Step>, k: nat): Option<JobResult>
    requires k <= |steps|
  {
    if k == 0 then None
    else match steps[k - 1] case StoreResult(r) => Some(r) case _ => StoredResult(steps, k - 1)
  }

  /** The status set last. */
  function StatusSet(steps: seq<Step>, k: nat): Status
    requires k <= |steps|
  {
    if k == 0 then Received
    else match steps[k - 1] case Advance(status, _) => status case _ => StatusSet(steps, k - 1)
  }

  /** The result stored when a COMPLETED, FAILED or CANCELLED was set last. */
  function PublishedResult(steps: seq<Step>, k: nat): Option<JobResult>
    requires k <= |steps|
  {
    if k == 0 then None
    else
      match steps[k - 1]
      case Advance(Completed, _) => StoredResult(steps, k - 1)
      case Advance(Failed, _) => StoredResult(steps, k - 1)
      case Advance(Cancelled, _) => StoredResult(steps, k - 1)
      case _ => PublishedResult(steps, k - 1)
  }

  /** In every run the job's log is everything said so far, in order and unaltered. */
  lemma {:induction false} LogIsEverythingReported(states: seq<World>, steps: seq<Step>, k: nat)
    requires Run(states, steps) && k < |states|
    ensures states[k].job.progress.log == Transcript(steps, k)
  {
    if k > 0 {
      LogIsEverythingReported(states, steps, k - 1);
      StepSays(states[k - 1], steps[k - 1], states[k]);
    }
  }

  /** The job's status is the last one set, and the published result the one that was stored when
      it last ended. */
  lemma {:induction false} StatusAndResultAreLastSet(states: seq<World>, steps: seq<Step>, k: nat)
    requires Run(states, steps) && k < |states|
    ensures states[k].job.progress.status == StatusSet(steps, k)
    ensures states[k].job.result == StoredResult(steps, k)
    ensures states[k].job.progress.result == PublishedResult(steps, k)
  {
    if k > 0 {
      StatusAndResultAreLastSet(states, steps, k - 1);
      StepSays(states[k - 1], steps[k - 1], states[k]);
    }
  }

  /** What one step does to the progress and the result. */
  lemma StepSays(s: World, step: Step, s': World)
    requires Next(s, step, s')
    ensures s'.job.progress.log == s.job.progress.log + SaidBy(step)
    ensures s'.job.progress.status == if step.Advance? then step.status else s.job.progress.status
    ensures s'.job.result == if step.StoreResult? then Some(step.result) else s.job.result
    ensures s'.job.progress.result ==
      if step.Advance? && (step.status == Completed || step.status == Failed || step.status == Cancelled)
      then s.job.result
      else s.job.progress.result
  {
    var log := s.job.progress.log;
    match step
    case Advance(status, message) =>
      assert log + message + "\n" == log + (message + "\n") && log + "" == log;
    case ReportOutput(isOutput, source, data) =>
      assert log + "[" + source + "] " + data == log + ("[" + source + "] " + data) && log + "" == log;
    case _ =>
      assert log + "" == log;
  }

  // ---------- One report, one line ----------

  /** Every message and every output is a single line, the output with its newline. */
  predicate IsOneLine(step: Step) {
    match step
    case Advance(_, message) => '\n' !in message
    case ReportOutput(isOutput, source, data) =>
      isOutput ==> '\n' !in source && data != "" && data[|data| - 1] == '\n' && '\n' !in data[..|data| - 1]
    case _ => true
  }

  function WithoutNewline(data: string): string {
    if data == "" then "" else data[..|data| - 1]
  }

  /** The lines said in the first k steps. */
  function TranscriptLines(steps: seq<Step>, k: nat): seq<string>
    requires k <= |steps| && forall i :: 0 <= i < k ==> IsOneLine(steps[i])
  {
    if k == 0 then []
    else
      TranscriptLines(steps, k - 1) +
      match steps[k - 1]
      case Advance(_, message) => if message == "" then [] else [message]
      case ReportOutput(isOutput, source, data) =>
        if isOutput then ["[" + source + "] " + WithoutNewline(data)] else []
      case _ => []
  }

  lemma {:induction false} TranscriptIsItsLines(steps: seq<Step>, k: nat)
    requires k <= |steps| && forall i :: 0 <= i < k ==> IsOneLine(steps[i])
    ensures WholeLines(Transcript(steps, k)) && LinesOf(Transcript(steps, k)) == TranscriptLines(steps, k)
  {
    if k > 0 {
      var step := steps[k - 1];
      TranscriptIsItsLines(steps, k - 1);
      LinesConcat(Transcript(steps, k - 1), SaidBy(step));
      SaidIsOneLine(step);
    } else {
      LineIsPrinted("");
      assert LinesOf("") == [];
    }
  }

  lemma SaidIsOneLine(step: Step)
    requires IsOneLine(step)
    ensures WholeLines(SaidBy(step))
    ensures LinesOf(SaidBy(step)) ==
      match step
      case Advance(_, message) => if message == "" then [] else [message]
      case ReportOutput(isOutput, source, data) =>
        if isOutput then ["[" + source + "] " + WithoutNewline(data)] else []
      case _ => []
  {
    assert LinesOf("") == [] by { assert [""][1..] == []; }
    match step
    case Advance(_, message) => LineIsPrinted(message);
    case ReportOutput(isOutput, source, data) =>
      if isOutput {
        var line := "[" + source + "] " + WithoutNewline(data);
        assert SaidBy(step) == line + "\n";
        LineIsPrinted(line);
      }
    case _ =>
  }

  /** The executor reports each output line with its newline put back. */
  predicate ReportsWholeLines(step: Step) {
    step.ReportOutput? && step.isOutput ==> step.data != "" && step.data[|step.data| - 1] == '\n'
  }

  /** Everything sent to a client so far has growing logs, none beyond the job's own. */
  ghost predicate Followed(s: World, id: ChannelId)
    requires id in s.streams
  {
    && Growing(s.streams[id])
    && forall i :: 0 <= i < |s.streams[id]| ==> s.streams[id][i].log <= s.job.progress.log
  }

  lemma FollowedNext(s: World, step: Step, s': World, id: ChannelId)
    requires Next(s, step, s') && id in s.streams && Followed(s, id)
    requires id in s'.streams && (step.Register? ==> step.id != id)
    ensures Followed(s', id)
  {
    LogGrows(s, step, s');
  }

  lemma {:induction false} StreamsFollowLog(states: seq<World>, steps: seq<Step>, k: nat, id: ChannelId)
    requires Run(states, steps) && k < |states| && id in states[k].streams
    ensures Followed(states[k], id)
  {
    if k > 0 {
      var s, step, s' := states[k - 1], steps[k - 1], states[k];
      assert Next(s, step, s');
      WatchersStaySafe(states, steps, k - 1);
      if id in s.streams {
        StreamsFollowLog(states, steps, k - 1, id);
        FollowedNext(s, step, s', id);
      }
    }
  }

  /** Everything sent to a client so far has logs of whole lines. */
  ghost predicate SentWhole(s: World, id: ChannelId)
    requires id in s.streams
  {
    forall i :: 0 <= i < |s.streams[id]| ==> WholeLines(s.streams[id][i].log)
  }

  lemma SentWholeNext(s: World, step: Step, s': World, id: ChannelId)
    requires Next(s, step, s') && WholeLines(s.job.progress.log)
    requires id in s'.streams && (id in s.streams ==> SentWhole(s, id))
    ensures SentWhole(s', id)
  {
  }

  lemma {:induction false} StreamsSendWhole(states: seq<World>, steps: seq<Step>, k: nat, id: ChannelId)
    requires Run(states, steps) && k < |states| && id in states[k].streams
    requires forall i :: 0 <= i < k ==> ReportsWholeLines(steps[i])
    ensures SentWhole(states[k], id)
  {
    if k > 0 {
      var s, step, s' := states[k - 1], steps[k - 1], states[k];
      assert Next(s, step, s');
      LogStaysWhole(states, steps, k - 1);
      if id in s.streams {
        StreamsSendWhole(states, steps, k - 1, id);
      }
      SentWholeNext(s, step, s', id);
    }
  }

  lemma {:induction false} LogStaysWhole(states: seq<World>, steps: seq<Step>, k: nat)
    requires Run(states, steps) && k < |states|
    ensures (forall i :: 0 <= i < k ==> ReportsWholeLines(steps[i])) ==> WholeLines(states[k].job.progress.log)
  {
    if k > 0 {
      LogStaysWhole(states, steps, k - 1);
      LogGrows(states[k - 1], steps[k - 1], states[k]);
    }
  }

  /** Whatever updates were dropped, in every run a client that follows its stream has, at its
      last status, received exactly that status' log in pieces; and when the job reports whole
      lines, it has printed exactly the non-empty lines of that log, in order. */
  lemma LossyWatchingYieldsFullLog(states: seq<World>, steps: seq<Step>, k: nat, id: ChannelId)
    requires Run(states, steps) && k < |states| && id in states[k].streams
    requires states[k].streams[id] != []
    ensures var seen := Seen(Updates(states[k].streams[id]));
      && seen != []
      && Streamed(seen) == seen[|seen| - 1].log
      && seen[|seen| - 1].log <= states[k].job.progress.log
      && ((forall i :: 0 <= i < k ==> ReportsWholeLines(steps[i])) ==> Printed(seen) == LinesOf(seen[|seen| - 1].log))
  {
    var ps := states[k].streams[id];
    StreamsFollowLog(states, steps, k, id);
    var n := SeenIsPrefix(ps);
    PrefixGrows(ps, n);
    DeltasAddUp(ps[..n]);
    if forall i :: 0 <= i < k ==> ReportsWholeLines(steps[i]) {
      StreamsSendWhole(states, steps, k, id);
      PrintedLinesAreLogLines(ps[..n]);
    }
  }

  lemma PrefixGrows(ps: seq<Progress>, n: nat)
    requires n <= |ps| && Growing(ps)
    ensures Growing(ps[..n])
  {
  }

  // ---------- A drained stream is up to date ----------

  /** What keeps a client behind the job: a closed channel, a first send or a status still to come,
      or signals in the buffer. Otherwise the last status sent is the job's progress. */
  ghost predicate UpToDate(s: World, id: ChannelId)
    requires id in s.streams && id in s.job.channels
  {
    || s.job.channels[id].closed
    || id in s.awaiting
    || id in s.owed
    || s.job.channels[id].buffer != []
    || (s.streams[id] != [] && s.streams[id][|s.streams[id]| - 1] == s.job.progress)
  }

  lemma UpToDateNext(s: World, step: Step, s': World, id: ChannelId)
    requires Consistent(s) && Next(s, step, s') && id in s'.streams && id in s'.job.channels
    requires id in s.streams && id in s.job.channels ==> UpToDate(s, id)
    ensures UpToDate(s', id)
  {
    match step
    case Advance(status, message) => OfferAllOffersOnce(s.job.channels, s.job.watchers);
    case ReportOutput(isOutput, source, data) => OfferAllOffersOnce(s.job.channels, s.job.watchers);
    case CloseListed(readers) => CloseAllClosesOnce(s.job.channels, s.job.watchers, readers);
    case _ =>
  }

  lemma {:induction false} StreamsStayUpToDate(states: seq<World>, steps: seq<Step>, k: nat, id: ChannelId)
    requires Run(states, steps) && k < |states| && id in states[k].streams
    ensures id in states[k].job.channels && UpToDate(states[k], id)
  {
    WatchersStaySafe(states, steps, k);
    if k > 0 {
      WatchersStaySafe(states, steps, k - 1);
      assert Next(states[k - 1], steps[k - 1], states[k]);
      if id in states[k - 1].streams {
        StreamsStayUpToDate(states, steps, k - 1, id);
      }
      UpToDateNext(states[k - 1], steps[k - 1], states[k], id);
    }
  }

  /** The channel is open, its first status is sent, and the handler has nothing left to do. */
  ghost predicate Drained(s: World, id: ChannelId) {
    && id in s.streams && id in s.job.channels && !s.job.channels[id].closed
    && id !in s.awaiting && id !in s.owed && s.job.channels[id].buffer == []
  }

  /** Nothing before the last status ends the client's loop. */
  ghost predicate NoneTerminalBeforeLast(ps: seq<Progress>) {
    forall i :: 0 <= i < |ps| - 1 ==> !IsTerminal(ps[i].status)
  }

  /** Whatever updates were dropped, a client whose stream is drained has received exactly what was
      reported: every message and every output of every step, in order. When each report is one
      line, it has printed exactly one line for each, in order. */
  lemma DrainedClientHasFullLog(states: seq<World>, steps: seq<Step>, k: nat, id: ChannelId)
    requires Run(states, steps) && k < |states| && Drained(states[k], id)
    requires NoneTerminalBeforeLast(states[k].streams[id])
    ensures var seen := Seen(Updates(states[k].streams[id]));
      && Streamed(seen) == Transcript(steps, k)
      && ((forall i :: 0 <= i < k ==> ReportsWholeLines(steps[i])) ==> Printed(seen) == LinesOf(Transcript(steps, k)))
      && ((forall i :: 0 <= i < k ==> IsOneLine(steps[i])) ==> Printed(seen) == TranscriptLines(steps, k))
  {
    var ps := states[k].streams[id];
    StreamsStayUpToDate(states, steps, k, id);
    LossyWatchingYieldsFullLog(states, steps, k, id);
    LogIsEverythingReported(states, steps, k);
    var n := SeenIsPrefix(ps);
    assert n == |ps| && ps[..n] == ps;
    if forall i :: 0 <= i < k ==> IsOneLine(steps[i]) {
      TranscriptIsItsLines(steps, k);
      assert forall i :: 0 <= i < k ==> ReportsWholeLines(steps[i]);
    }
  }

  /** A channel closed together with its watchers still yields the log as it was at the close: the
      handler owes a status, has signals left, or has sent one with at least that log. */
  ghost predicate ReachesLog(s: World, id: ChannelId, log: string) {
    && id in s.streams && id in s.job.channels && s.job.channels[id].closed && id !in s.awaiting
    && log <= s.job.progress.log
    && (id in s.owed || s.job.channels[id].buffer != [] ||
        (s.streams[id] != [] && log <= s.streams[id][|s.streams[id]| - 1].log))
  }

  lemma ReachesLogNext(s: World, step: Step, s': World, id: ChannelId, log: string)
    requires Consistent(s) && Next(s, step, s') && ReachesLog(s, id, log)
    ensures ReachesLog(s', id, log)
  {
    LogGrows(s, step, s');
    match step
    case Advance(status, message) => OfferAllOffersOnce(s.job.channels, s.job.watchers);
    case ReportOutput(isOutput, source, data) => OfferAllOffersOnce(s.job.channels, s.job.watchers);
    case CloseListed(readers) => CloseAllClosesOnce(s.job.channels, s.job.watchers, readers);
    case _ =>
  }

  /** So does cancelling: what the log held when the watchers were closed reaches every client whose
      first status had been sent, once its handler has taken what is left in its channel. */
  lemma {:induction false} ClosedStreamReachesClose(states: seq<World>, steps: seq<Step>, j: nat, k: nat, id: ChannelId)
    requires Run(states, steps) && j < k < |states| && steps[j].CloseListed?
    requires id in states[j].job.watchers && id !in states[j].awaiting
    ensures ReachesLog(states[k], id, states[j].job.progress.log)
    decreases k
  {
    var s, step := states[k - 1], steps[k - 1];
    assert Next(s, step, states[k]);
    WatchersStaySafe(states, steps, k - 1);
    if j == k - 1 {
      CloseAllClosesOnce(s.job.channels, s.job.watchers, step.readers);
    } else {
      ClosedStreamReachesClose(states, steps, j, k - 1, id);
      ReachesLogNext(s, step, states[k], id, states[j].job.progress.log);
    }
  }
}
