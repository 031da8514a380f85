/** Without timer ticks and duplication the network falls silent: a weight drops at every step. */
module GossipQuiescence {
  import opened Wrappers
  import opened PeerRecords
  import opened Gossip
  import opened Sequences

  // ---------- Sums over the packets in flight and over the daemons ----------

  ghost function PacketSum(s: seq<Packet>, w: Packet -> nat): nat {
    if s == [] then 0 else PacketSum(s[..|s| - 1], w) + w(s[|s| - 1])
  }

  lemma {:induction false} PacketSumConcat(a: seq<Packet>, b: seq<Packet>, w: Packet -> nat)
    ensures PacketSum(a + b, w) == PacketSum(a, w) + PacketSum(b, w)
  {
    if b == [] {
      assert a + b == a;
    } else {
      assert (a + b)[..|a + b| - 1] == a + b[..|b| - 1];
      PacketSumConcat(a, b[..|b| - 1], w);
    }
  }

  lemma {:induction false} PacketSumRemove(s: seq<Packet>, i: nat, w: Packet -> nat)
    requires i < |s|
    ensures PacketSum(s, w) == PacketSum(RemoveAt(s, i), w) + w(s[i])
  {
    var front := s[..|s| - 1];
    if i == |front| {
      assert RemoveAt(s, i) == front;
    } else {
      PacketSumRemove(front, i, w);
      assert RemoveAt(s, i)[..|s| - 2] == RemoveAt(front, i);
    }
  }

  lemma {:induction false} PacketSumUniform(s: seq<Packet>, w: Packet -> nat, v: nat)
    requires forall i :: 0 <= i < |s| ==> w(s[i]) == v
    ensures PacketSum(s, w) == |s| * v
  {
    if s != [] {
      PacketSumUniform(s[..|s| - 1], w, v);
    }
  }

  ghost function DaemonSum(ids: seq<Id>, daemons: map<Id, Daemon>, w: Daemon -> nat): nat {
    if ids == [] then 0
    else
      var last := ids[|ids| - 1];
      DaemonSum(ids[..|ids| - 1], daemons, w) + if last in daemons then w(daemons[last]) else 0
  }

  lemma {:induction false} DaemonSumUpdate(ids: seq<Id>, daemons: map<Id, Daemon>, n: Id, d: Daemon, w: Daemon -> nat)
    requires DuplicateFree(ids)
    requires n in daemons
    ensures DaemonSum(ids, daemons[n := d], w) ==
      if n in ids then DaemonSum(ids, daemons, w) - w(daemons[n]) + w(d) else DaemonSum(ids, daemons, w)
  {
    if ids != [] {
      var front, last := ids[..|ids| - 1], ids[|ids| - 1];
      DaemonSumUpdate(front, daemons, n, d, w);
      assert ids == front + [last];
      assert last !in front;
    }
  }

  // ---------- The weight ----------

  ghost function PacketWeight(n: nat): Packet -> nat {
    (p: Packet) => if p.event.kind == Request then 2 * n + 2 else 2
  }

  ghost function HandlingWeight(n: nat): Daemon -> nat {
    (d: Daemon) =>
      if d.handling.None? then 0
      else if d.handling.value.packet.event.kind == Request then 2 * n + 1
      else 1
  }

  /** A REQUEST copy can still cause N RESPONSE copies, each of which must be received and
      finished; a RESPONSE copy only its own receipt and finish. */
  ghost function Weight(c: Config, s: Net): nat {
    PacketSum(s.flight, PacketWeight(|c.ids|)) + DaemonSum(c.ids, s.daemons, HandlingWeight(|c.ids|))
  }

  predicate TimerFree(step: Step) { !step.Announce? && !step.Duplicate? }

  ghost predicate Populated(c: Config, s: Net) {
    ValidConfig(c) && s.daemons.Keys == IdSet(c.ids)
  }

  lemma FinishLightens(c: Config, s: Net, n: Id, listing: Option<seq<Runtime>>, response: Option<Event>, s': Net)
    requires Populated(c, s) && FinishStep(c, s, n, listing, response, s')
    ensures Populated(c, s') && Weight(c, s') < Weight(c, s)
  {
    var size := |c.ids|;
    DaemonSumUpdate(c.ids, s.daemons, n, s'.daemons[n], HandlingWeight(size));
    if response.Some? {
      var copies := Broadcast(c.ids, response.value, s'.daemons[n].node.peers.Keys);
      PacketSumConcat(s.flight, copies, PacketWeight(size));
      PacketSumUniform(copies, PacketWeight(size), 2);
    } else {
      assert s'.flight == s.flight;
    }
  }

  lemma ReceiveLightens(c: Config, s: Net, i: nat, s': Net)
    requires Populated(c, s) && ReceiveStep(c, s, i, s')
    ensures Populated(c, s') && Weight(c, s') < Weight(c, s)
  {
    var to := s.flight[i].to;
    PacketSumRemove(s.flight, i, PacketWeight(|c.ids|));
    DaemonSumUpdate(c.ids, s.daemons, to, s'.daemons[to], HandlingWeight(|c.ids|));
    assert s.daemons[to := s.daemons[to]] == s.daemons;
  }

  /** Every delivery, every completed handling and every loss strictly lowers the weight. */
  lemma StepLightens(c: Config, s: Net, step: Step, s': Net)
    requires Populated(c, s) && TimerFree(step) && Next(c, s, step, s')
    ensures Populated(c, s')
    ensures if step.Wait? then Weight(c, s') == Weight(c, s) else Weight(c, s') < Weight(c, s)
  {
    match step
    case Receive(i) => ReceiveLightens(c, s, i, s');
    case Finish(n, listing, response) => FinishLightens(c, s, n, listing, response, s');
    case Lose(i) => PacketSumRemove(s.flight, i, PacketWeight(|c.ids|));
    case Wait(d) =>
  }

  // ---------- Whole runs ----------

  function Activity(steps: seq<Step>): nat {
    if steps == [] then 0
    else Activity(steps[..|steps| - 1]) + if steps[|steps| - 1].Wait? then 0 else 1
  }

  /** A stretch of protocol without ticks or duplication has at most Weight(start) steps that
      are not mere passing of time, whatever is delivered, lost or reordered. */
  lemma {:induction false} GossipQuiesces(c: Config, states: seq<Net>, steps: seq<Step>)
    requires Path(c, states, steps) && Populated(c, states[0])
    requires forall k :: 0 <= k < |steps| ==> TimerFree(steps[k])
    ensures Populated(c, states[|steps|])
    ensures Activity(steps) + Weight(c, states[|steps|]) <= Weight(c, states[0])
  {
    var m := |steps|;
    if m > 0 {
      GossipQuiesces(c, states[..m], steps[..m - 1]);
      StepLightens(c, states[m - 1], steps[m - 1], states[m]);
    }
  }

  // ---------- One answer per delivered REQUEST ----------

  /** Whether n is handling a REQUEST. */
  ghost function PendingRequest(s: Net, n: Id): nat {
    if n in s.daemons && s.daemons[n].handling.Some? && s.daemons[n].handling.value.packet.event.kind == Request then 1
    else 0
  }

  function Answered(step: Step, n: Id): nat {
    if step.Finish? && step.n == n && step.response.Some? then 1 else 0
  }

  ghost function RequestDelivered(s: Net, step: Step, n: Id): nat {
    if step.Receive? && step.i < |s.flight| && s.flight[step.i].to == n && s.flight[step.i].event.kind == Request then 1
    else 0
  }

  function AnswerCount(steps: seq<Step>, n: Id): nat {
    if steps == [] then 0 else AnswerCount(steps[..|steps| - 1], n) + Answered(steps[|steps| - 1], n)
  }

  ghost function DeliveredRequests(states: seq<Net>, steps: seq<Step>, n: Id): nat
    requires |states| == |steps| + 1
  {
    if steps == [] then 0
    else
      var m := |steps| - 1;
      DeliveredRequests(states[..|steps|], steps[..m], n) + RequestDelivered(states[m], steps[m], n)
  }

  lemma AnswerUsesUpRequest(c: Config, s: Net, step: Step, s': Net, n: Id)
    requires Next(c, s, step, s')
    ensures Answered(step, n) + PendingRequest(s', n) <= RequestDelivered(s, step, n) + PendingRequest(s, n)
  {
  }

  /** Over any stretch of protocol, ticks and duplicates included, no daemon sends more answers
      than REQUEST copies were delivered to it, plus the one it may be handling at the start. */
  lemma {:induction false} AtMostOneAnswerPerRequest(c: Config, states: seq<Net>, steps: seq<Step>, n: Id)
    requires Path(c, states, steps)
    ensures AnswerCount(steps, n) + PendingRequest(states[|steps|], n)
         <= DeliveredRequests(states, steps, n) + PendingRequest(states[0], n)
  {
    if |steps| > 0 {
      var m := |steps| - 1;
      AtMostOneAnswerPerRequest(c, states[..m + 1], steps[..m], n);
      AnswerUsesUpRequest(c, states[m], steps[m], states[m + 1], n);
    }
  }
}
