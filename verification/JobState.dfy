/** An in-flight job: its progress, its result, and the lossy channels of its watchers. The Go
    channels live in a table, so that closing one and sending to it stay visible. */
module JobStates {
  import opened Sequences
  import opened Wrappers
  import opened StagingModel

  datatype Status = Unspecified | Received | Ready | Scheduled | InputTransfer | Running | Completed | OutputTransfer |
    Failed | Cancelled | Queued

  datatype ResultStatus = ResultUnspecified | ResultCompleted | ResultFailed | ResultCancelled

  datatype JobResult = JobResult(status: ResultStatus, exitCode: int, outputs: DataList, error: Option<Error>)

  datatype Progress = Progress(status: Status, log: string, result: Option<JobResult>)

  type ChannelId = nat

  const CAPACITY: nat := 10

  /** What sits in a channel: the job's own progress object, or a copy made for the first send. */
  datatype Signal = Live | Copied(progress: Progress)

  datatype Channel = Channel(buffer: seq<Signal>, closed: bool)

  type Channels = map<ChannelId, Channel>

  datatype State = State(progress: Progress, result: Option<JobResult>, watchers: seq<ChannelId>, channels: Channels)

  predicate IsTerminal(s: Status) { s == Completed || s == Failed || s == Cancelled }

  // ---------- Channel operations ----------

  /** A non-blocking send: dropped when the buffer is full. */
  function Offer(c: Channel): Channel {
    if |c.buffer| < CAPACITY then c.(buffer := c.buffer + [Live]) else c
  }

  /** The final send, which may wait: it is skipped unless there is room or the reader, when
      `read`, takes an entry meanwhile. Then the channel is closed. */
  function OfferAndClose(c: Channel, read: bool): Channel {
    if |c.buffer| < CAPACITY then Channel(c.buffer + [Live], true)
    else if read then Channel(c.buffer[1..] + [Live], true)
    else Channel(c.buffer, true)
  }

  function OfferAll(cs: Channels, ids: seq<ChannelId>): Channels {
    if ids == [] then cs
    else
      var cs' := OfferAll(cs, ids[..|ids| - 1]);
      var id := ids[|ids| - 1];
      if id in cs' then cs'[id := Offer(cs'[id])] else cs'
  }

  function CloseAll(cs: Channels, ids: seq<ChannelId>, readers: set<ChannelId>): Channels {
    if ids == [] then cs
    else
      var cs' := CloseAll(cs, ids[..|ids| - 1], readers);
      var id := ids[|ids| - 1];
      if id in cs' then cs'[id := OfferAndClose(cs'[id], id in readers)] else cs'
  }

  // ---------- Job operations ----------

  function AppendMessage(log: string, message: string): string {
    if message == "" then log else log + message + "\n"
  }

  function Updated(s: State, status: Status, message: string): State {
    var progress := Progress(status, AppendMessage(s.progress.log, message),
                             if IsTerminal(status) then s.result else s.progress.result);
    s.(progress := progress, channels := OfferAll(s.channels, s.watchers))
  }

  /** The progress callback: "[source] data" is appended for output, and watchers are told. */
  function Reported(s: State, isOutput: bool, source: string, data: string): State {
    var log := if isOutput then s.progress.log + "[" + source + "] " + data else s.progress.log;
    s.(progress := s.progress.(log := log), channels := OfferAll(s.channels, s.watchers))
  }

  function WithoutFirst(ids: seq<ChannelId>, id: ChannelId): seq<ChannelId> {
    if ids == [] then [] else if ids[0] == id then ids[1..] else [ids[0]] + WithoutFirst(ids[1..], id)
  }

  function RemovedWatcher(s: State, id: ChannelId): State {
    if id in s.watchers && id in s.channels then
      s.(watchers := WithoutFirst(s.watchers, id), channels := s.channels[id := s.channels[id].(closed := true)])
    else s
  }

  function ClosedWatchers(s: State, readers: set<ChannelId>): State {
    s.(watchers := [], channels := CloseAll(s.channels, s.watchers, readers))
  }

  /** Listed watchers are distinct open channels; every channel is listed or closed; no buffer
      holds more than the capacity. */
  ghost predicate Safe(s: State) {
    && DuplicateFree(s.watchers)
    && (forall id :: id in s.watchers ==> id in s.channels && !s.channels[id].closed)
    && (forall id :: id in s.channels ==> s.channels[id].closed || id in s.watchers)
    && (forall id :: id in s.channels ==> |s.channels[id].buffer| <= CAPACITY)
  }

  /** An update offers once to each listed channel and touches no other. */
  lemma {:induction false} OfferAllOffersOnce(cs: Channels, ids: seq<ChannelId>)
    requires DuplicateFree(ids)
    ensures OfferAll(cs, ids).Keys == cs.Keys
    ensures forall id :: id in cs ==> OfferAll(cs, ids)[id] == if id in ids then Offer(cs[id]) else cs[id]
  {
    if ids != [] {
      var front, last := ids[..|ids| - 1], ids[|ids| - 1];
      assert ids == front + [last];
      OfferAllOffersOnce(cs, front);
    }
  }

  lemma {:induction false} CloseAllClosesOnce(cs: Channels, ids: seq<ChannelId>, readers: set<ChannelId>)
    requires DuplicateFree(ids)
    ensures CloseAll(cs, ids, readers).Keys == cs.Keys
    ensures forall id :: id in cs ==>
      CloseAll(cs, ids, readers)[id] == if id in ids then OfferAndClose(cs[id], id in readers) else cs[id]
  {
    if ids != [] {
      var front, last := ids[..|ids| - 1], ids[|ids| - 1];
      assert ids == front + [last];
      CloseAllClosesOnce(cs, front, readers);
    }
  }

  lemma {:induction false} WithoutFirstRemovesOne(ids: seq<ChannelId>, id: ChannelId)
    requires DuplicateFree(ids)
    ensures DuplicateFree(WithoutFirst(ids, id))
    ensures forall x :: x in WithoutFirst(ids, id) <==> x in ids && x != id
  {
    if ids != [] {
      assert ids == [ids[0]] + ids[1..];
      WithoutFirstRemovesOne(ids[1..], id);
      if ids[0] != id {
        var rest := WithoutFirst(ids[1..], id);
        forall j | 0 <= j < |rest| ensures rest[j] != ids[0]
        {
          assert rest[j] in rest;
        }
      }
    }
  }

  lemma UpdatesKeepSafe(s: State, progress: Progress)
    requires Safe(s)
    ensures Safe(s.(progress := progress, channels := OfferAll(s.channels, s.watchers)))
  {
    OfferAllOffersOnce(s.channels, s.watchers);
  }

  lemma RemoveKeepsSafe(s: State, id: ChannelId)
    requires Safe(s)
    ensures Safe(RemovedWatcher(s, id))
  {
    WithoutFirstRemovesOne(s.watchers, id);
  }

  lemma CloseKeepsSafe(s: State, readers: set<ChannelId>)
    requires Safe(s)
    ensures Safe(ClosedWatchers(s, readers))
    ensures ClosedWatchers(s, readers).channels.Keys == s.channels.Keys
    ensures forall id :: id in s.channels ==> ClosedWatchers(s, readers).channels[id].closed
  {
    CloseAllClosesOnce(s.channels, s.watchers, readers);
  }

  // ---------- What the operations do to watchers ----------

  /** After an update every watcher has a signal waiting; none already waiting is lost, at most one
      is added, and one is added wherever there was room. */
  lemma UpdatesSignalEveryWatcher(cs: Channels, ids: seq<ChannelId>, id: ChannelId)
    requires DuplicateFree(ids) && id in ids && id in cs
    ensures id in OfferAll(cs, ids)
    ensures var before, after := cs[id].buffer, OfferAll(cs, ids)[id].buffer;
      && after != [] && before <= after && |after| <= |before| + 1
      && (|after| == |before| <==> |before| >= 10)
    ensures OfferAll(cs, ids)[id].closed == cs[id].closed
  {
    OfferAllOffersOnce(cs, ids);
  }

  /** Closing leaves every listed channel closed with a signal waiting, the last one sent by the
      close wherever there was room or the reader made some, and nobody listed. */
  lemma ClosingSignalsEveryWatcher(s: State, readers: set<ChannelId>, id: ChannelId)
    requires Safe(s) && id in s.watchers
    ensures var after := ClosedWatchers(s, readers);
      && after.watchers == [] && after.progress == s.progress && after.result == s.result
      && id in after.channels && after.channels[id].closed
      && var was, buffer := s.channels[id].buffer, after.channels[id].buffer;
      && buffer != [] && |buffer| <= 10
      && (|was| < 10 ==> buffer == was + [Live])
      && (|was| >= 10 ==> buffer == if id in readers then was[1..] + [Live] else was)
  {
    CloseAllClosesOnce(s.channels, s.watchers, readers);
  }

  /** Removing a watcher closes exactly its channel and takes exactly it off the list; removing
      anything else does nothing. */
  lemma RemovalIsExact(s: State, id: ChannelId)
    requires Safe(s)
    ensures var after := RemovedWatcher(s, id);
      && after.progress == s.progress && after.result == s.result && after.channels.Keys == s.channels.Keys
      && (forall x :: x in after.watchers <==> x in s.watchers && x != id)
      && (forall x :: x in s.channels ==>
            after.channels[x] == Channel(s.channels[x].buffer, s.channels[x].closed || (x == id && id in s.watchers)))
    ensures id !in s.watchers ==> RemovedWatcher(s, id) == s
  {
    WithoutFirstRemovesOne(s.watchers, id);
  }

  class JobState {
    var progress: Progress
    var result: Option<JobResult>
    var watchers: seq<ChannelId>
    var channels: Channels

    constructor ()
      ensures View() == State(Progress(Received, "", None), None, [], map[])
    {
      progress, result := Progress(Received, "", None), None;
      watchers, channels := [], map[];
    }

    ghost function View(): State
      reads this
    {
      State(progress, result, watchers, channels)
    }

    ghost predicate Valid()
      reads this
    {
      Safe(View())
    }

    /** A send statement: the runtime panics on a closed channel, so it must not be closed. */
    method TrySend(id: ChannelId)
      requires id in channels && !channels[id].closed
      modifies this`channels
      ensures channels == old(channels)[id := Offer(old(channels)[id])]
    {
      if |channels[id].buffer| < CAPACITY {
        channels := channels[id := channels[id].(buffer := channels[id].buffer + [Live])];
      }
    }

    method NotifyWatchers()
      requires Valid()
      modifies this`channels
      ensures Valid()
      ensures channels == OfferAll(old(channels), watchers)
    {
      for i := 0 to |watchers|
        invariant channels == OfferAll(old(channels), watchers[..i])
      {
        assert watchers[..i + 1][..i] == watchers[..i];
        OfferAllOffersOnce(old(channels), watchers[..i]);
        TrySend(watchers[i]);
      }
      assert watchers[..|watchers|] == watchers;
      UpdatesKeepSafe(old(View()), progress);
    }

    method UpdateProgress(status: Status, message: string)
      requires Valid()
      modifies this
      ensures Valid() && View() == Updated(old(View()), status, message)
    {
      progress := progress.(status := status);
      if message != "" {
        progress := progress.(log := progress.log + message + "\n");
      }
      if status == Completed || status == Failed || status == Cancelled {
        progress := progress.(result := result);
      }
      NotifyWatchers();
    }

    method ReportProgress(isOutput: bool, source: string, data: string)
      requires Valid()
      modifies this
      ensures Valid() && View() == Reported(old(View()), isOutput, source, data)
    {
      if isOutput {
        progress := progress.(log := progress.log + "[" + source + "] " + data);
      }
      NotifyWatchers();
    }

    method SetResult(r: JobResult)
      requires Valid()
      modifies this`result
      ensures Valid() && View() == old(View()).(result := Some(r))
    {
      result := Some(r);
    }

    /** Lists a channel just made by the caller. */
    method AddWatcher(id: ChannelId)
      requires Valid() && id !in channels
      modifies this
      ensures Valid()
      ensures View() == old(View()).(watchers := old(watchers) + [id],
                                     channels := old(channels)[id := Channel([], false)])
    {
      channels := channels[id := Channel([], false)];
      watchers := watchers + [id];
    }

    /** WatchJobStatus when nothing comes between listing the channel and the first send. */
    method Watch(id: ChannelId)
      requires Valid() && id !in channels
      modifies this
      ensures Valid() && progress == old(progress) && result == old(result)
      ensures watchers == old(watchers) + [id]
      ensures channels == old(channels)[id := Channel([Copied(old(progress))], false)]
    {
      AddWatcher(id);
      assert channels[id].buffer + [Copied(progress)] == [Copied(progress)];
      channels := channels[id := Channel(channels[id].buffer + [Copied(progress)], false)];
      assert channels == old(channels)[id := Channel([Copied(old(progress))], false)];
    }

    method RemoveWatcher(id: ChannelId)
      requires Valid()
      modifies this
      ensures Valid() && View() == RemovedWatcher(old(View()), id)
    {
      RemoveKeepsSafe(View(), id);
      for i := 0 to |watchers|
        invariant View() == old(View())
        invariant forall k :: 0 <= k < i ==> watchers[k] != id
      {
        if watchers[i] == id {
          assert !channels[id].closed;
          channels := channels[id := channels[id].(closed := true)];
          WithoutFirstAt(watchers, i);
          watchers := watchers[..i] + watchers[i + 1..];
          return;
        }
      }
    }

    method CloseWatchers(readers: set<ChannelId>)
      requires Valid()
      modifies this
      ensures Valid() && View() == ClosedWatchers(old(View()), readers)
    {
      for i := 0 to |watchers|
        invariant watchers == old(watchers)
        invariant View() == old(View()).(channels := CloseAll(old(channels), watchers[..i], readers))
      {
        assert watchers[..i + 1][..i] == watchers[..i];
        CloseAllClosesOnce(old(channels), watchers[..i], readers);
        var id := watchers[i];
        assert !channels[id].closed;
        if |channels[id].buffer| < CAPACITY {
          channels := channels[id := Channel(channels[id].buffer + [Live], true)];
        } else if id in readers {
          channels := channels[id := Channel(channels[id].buffer[1..] + [Live], true)];
        } else {
          channels := channels[id := Channel(channels[id].buffer, true)];
        }
      }
      assert watchers[..|watchers|] == watchers;
      CloseKeepsSafe(old(View()), readers);
      watchers := [];
    }

    method CancelJob(reason: string, readers: set<ChannelId>)
      requires Valid()
      modifies this
      ensures Valid() && View() == ClosedWatchers(Updated(old(View()), Cancelled, "Cancelled: " + reason), readers)
      ensures progress == Progress(Cancelled, old(progress).log + ("Cancelled: " + reason + "\n"), old(result))
      ensures result == old(result) && watchers == [] && channels.Keys == old(channels).Keys
      ensures forall id :: id in channels ==> channels[id].closed
    {
      CancelledLine(progress.log, reason);
      UpdatesKeepSafe(View(), progress);
      OfferAllOffersOnce(channels, watchers);
      CloseKeepsSafe(Updated(View(), Cancelled, "Cancelled: " + reason), readers);
      UpdateProgress(Cancelled, "Cancelled: " + reason);
      CloseWatchers(readers);
    }
  }

  lemma CancelledLine(log: string, reason: string)
    ensures log + ("Cancelled: " + reason) + "\n" == log + ("Cancelled: " + reason + "\n")
  {
  }

  lemma {:induction false} WithoutFirstAt(ids: seq<ChannelId>, i: nat)
    requires i < |ids| && forall k :: 0 <= k < i ==> ids[k] != ids[i]
    ensures WithoutFirst(ids, ids[i]) == ids[..i] + ids[i + 1..]
  {
    if i > 0 {
      WithoutFirstAt(ids[1..], i - 1);
    }
  }
}
