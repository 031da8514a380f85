/** Ignore lists lose no knowledge: what a responder leaves out, the requester already has. */
module GossipKnowledge {
  import opened Wrappers
  import opened PeerRecords
  import opened Gossip

  /** The peers a daemon has stored, plus the sender it has heard but not yet registered. */
  ghost function Reach(d: Daemon): set<Id> {
    d.node.peers.Keys +
    if d.handling.Some? && d.handling.value.packet.event.peer.Some?
    then {d.handling.value.packet.event.peer.value.id} else {}
  }

  ghost function KnownIds(known: seq<Peer>): set<Id> { set p | p in known :: p.id }

  /** The initiator of a packet's exchange already reaches what the packet leaves out. */
  ghost predicate Covered(s: Net, p: Packet) {
    var ev := p.event;
    && ev.initiator in s.daemons
    && (ev.kind == Request ==>
         ev.initiator !in ev.ignore && IdSet(ev.ignore) <= Reach(s.daemons[ev.initiator]))
    && (ev.kind == Response ==>
         p.knew <= KnownIds(ev.known) + {ev.initiator} + Reach(s.daemons[ev.initiator]))
  }

  ghost predicate Knowing(c: Config, s: Net) {
    && Authentic(c, s)
    && (forall n :: n in s.daemons ==> s.daemons[n].node.heard.Keys <= Reach(s.daemons[n]))
    && (forall p :: p in s.flight ==> Covered(s, p))
    && (forall n :: n in s.daemons && s.daemons[n].handling.Some? ==> Covered(s, s.daemons[n].handling.value.packet))
  }

  /** Registering a genuine event stores its sender and everyone it lists except the receiver. */
  lemma RegistrationKeys(c: Config, n: Id, peers: Peers, ev: Event)
    requires GenuineEvent(c, ev) && ev.peer.value.id != n
    ensures RegisterAll(peers, n, ev).Keys == peers.Keys + {ev.peer.value.id} + (KnownIds(ev.known) - {n})
  {
    var direct := RegisterDirect(peers, ev.peer.value);
    RegisterKnownKeys(direct, n, ev.known);
    forall id ensures Listed(ev.known, id) <==> id in KnownIds(ev.known)
    {
      if id in KnownIds(ev.known) {
        var p :| p in ev.known && p.id == id;
        var i :| 0 <= i < |ev.known| && ev.known[i] == p;
        assert GenuineGossip(c, ev.known[i]);
      }
      if Listed(ev.known, id) {
        var i :| 0 <= i < |ev.known| && ev.known[i].id == id;
        assert ev.known[i] in ev.known;
      }
    }
  }

  lemma ReachGrows(c: Config, s: Net, step: Step, s': Net, n: Id)
    requires Authentic(c, s) && Next(c, s, step, s') && n in s.daemons
    ensures n in s'.daemons && Reach(s.daemons[n]) <= Reach(s'.daemons[n])
  {
    if step.Finish? && step.n == n {
      RegistrationKeys(c, n, s.daemons[n].node.peers, s.daemons[n].handling.value.packet.event);
    }
  }

  lemma StaysCovered(c: Config, s: Net, step: Step, s': Net, p: Packet)
    requires Authentic(c, s) && Next(c, s, step, s') && Covered(s, p)
    ensures Covered(s', p)
  {
    ReachGrows(c, s, step, s', p.event.initiator);
  }

  lemma ExactListingIds(known: seq<Peer>, peers: Peers, ids: set<Id>)
    requires ids <= peers.Keys && ListsExactly(known, peers, ids)
    ensures KnownIds(known) == ids
  {
    forall id | id in ids ensures id in KnownIds(known)
    {
      var i :| 0 <= i < |known| && known[i].id == id;
      assert known[i] in known;
    }
  }

  /** A fresh REQUEST ignores only peers the sender reaches, never itself. */
  lemma RequestCovered(c: Config, s: Net, n: Id, listing: Option<seq<Runtime>>, ev: Event, first: bool, s': Net, to: Id)
    requires Knowing(c, s) && AnnounceStep(c, s, n, listing, ev, first, s')
    ensures Covered(s', Packet(to, ev, {}))
  {
    var d := s.daemons[n];
    assert Reach(s'.daemons[n]) == Reach(d);
    assert IdSet(ev.ignore) == RecentlyHeard(d.node.heard, s.clock);
    assert IdSet(ev.ignore) <= d.node.heard.Keys;
    assert n !in d.node.heard;
  }

  /** What a fresh RESPONSE leaves out of the responder's store is the requester itself
      and peers the requester already reaches. */
  lemma ResponseCovered(c: Config, s: Net, n: Id, listing: Option<seq<Runtime>>, response: Event, s': Net, to: Id)
    requires Knowing(c, s) && FinishStep(c, s, n, listing, Some(response), s')
    ensures Covered(s', Packet(to, response, s'.daemons[n].node.peers.Keys))
  {
    var request := s.daemons[n].handling.value.packet;
    var ev := request.event;
    var peers := s'.daemons[n].node.peers;
    var ids := peers.Keys - {ev.peer.value.id} - IdSet(ev.ignore);
    ExactListingIds(response.known, peers, ids);
    StaysCovered(c, s, Finish(n, listing, Some(response)), s', request);
    assert ev.initiator == ev.peer.value.id;
    assert peers.Keys <= ids + {ev.initiator} + IdSet(ev.ignore);
  }

  lemma KnowingNext(c: Config, s: Net, step: Step, s': Net)
    requires Knowing(c, s) && Next(c, s, step, s')
    ensures Knowing(c, s')
  {
    AuthenticNext(c, s, step, s');
    forall n | n in s'.daemons ensures s'.daemons[n].node.heard.Keys <= Reach(s'.daemons[n])
    {
      HeardStaysReached(c, s, step, s', n);
    }
    forall p | p in s'.flight ensures Covered(s', p)
    {
      FlightStaysCovered(c, s, step, s', p);
    }
    forall n | n in s'.daemons && s'.daemons[n].handling.Some? ensures Covered(s', s'.daemons[n].handling.value.packet)
    {
      HandlingStaysCovered(c, s, step, s', n);
    }
  }

  lemma HandlingStaysCovered(c: Config, s: Net, step: Step, s': Net, n: Id)
    requires Knowing(c, s) && Next(c, s, step, s') && n in s'.daemons && s'.daemons[n].handling.Some?
    ensures Covered(s', s'.daemons[n].handling.value.packet)
  {
    var p := s'.daemons[n].handling.value.packet;
    if step.Receive? {
      assert s.flight[step.i] in s.flight;
    }
    StaysCovered(c, s, step, s', p);
  }

  lemma HeardStaysReached(c: Config, s: Net, step: Step, s': Net, n: Id)
    requires Knowing(c, s) && Next(c, s, step, s') && n in s'.daemons
    ensures s'.daemons[n].node.heard.Keys <= Reach(s'.daemons[n])
  {
    ReachGrows(c, s, step, s', n);
    if step.Receive? {
      assert s.flight[step.i] in s.flight;
    }
  }

  lemma FlightStaysCovered(c: Config, s: Net, step: Step, s': Net, p: Packet)
    requires Knowing(c, s) && Next(c, s, step, s') && p in s'.flight
    ensures Covered(s', p)
  {
    if p in s.flight {
      StaysCovered(c, s, step, s', p);
    } else {
      match step
      case Announce(n, listing, ev, first) =>
        RequestCovered(c, s, n, listing, ev, first, s', p.to);
      case Finish(n, listing, response) =>
        ResponseCovered(c, s, n, listing, response.value, s', p.to);
      case _ =>
        assert false;
    }
  }

  /** In every state of every run, each daemon's directly heard peers are stored (or being
      stored), it never lists itself, and every packet leaves out only covered knowledge. */
  lemma {:induction false} IgnoreListsAreKnown(c: Config, states: seq<Net>, steps: seq<Step>, k: nat)
    requires Run(c, states, steps) && k < |states|
    ensures Knowing(c, states[k])
  {
    if k == 0 {
      AuthenticInit(c, states[0]);
    } else {
      IgnoreListsAreKnown(c, states, steps, k - 1);
      KnowingNext(c, states[k - 1], steps[k - 1], states[k]);
    }
  }

  // ---------- From packets back to the answer that produced them ----------

  /** Step j is some daemon's answer carrying exactly p's event and p's recorded knowledge. */
  ghost predicate SentAt(states: seq<Net>, steps: seq<Step>, j: nat, p: Packet)
    requires |states| == |steps| + 1 && j < |steps|
  {
    && steps[j].Finish?
    && steps[j].response == Some(p.event)
    && steps[j].n in states[j + 1].daemons
    && p.event.peer.Some? && p.event.peer.value.id == steps[j].n
    && p.knew == states[j + 1].daemons[steps[j].n].node.peers.Keys
  }

  ghost predicate Handles(d: Daemon, p: Packet) {
    d.handling.Some? && d.handling.value.packet == p
  }

  ghost predicate PresentAt(s: Net, p: Packet) {
    p in s.flight || exists n :: n in s.daemons && Handles(s.daemons[n], p)
  }

  lemma PresentBefore(c: Config, s: Net, step: Step, s': Net, p: Packet)
    requires Next(c, s, step, s') && PresentAt(s', p) && p.event.kind == Response
    ensures PresentAt(s, p) ||
      (step.Finish? && step.response == Some(p.event) &&
       p in Broadcast(c.ids, p.event, s'.daemons[step.n].node.peers.Keys))
  {
    if p in s'.flight {
      if p !in s.flight {
        assert step.Announce? || step.Finish?;
      }
    } else {
      var n :| n in s'.daemons && Handles(s'.daemons[n], p);
      if step.Receive? && s.flight[step.i].to == n {
        assert s.flight[step.i] in s.flight;
      } else {
        assert s.daemons[n].handling == s'.daemons[n].handling;
      }
    }
  }

  /** Every RESPONSE present in a run was sent by an earlier answering step. */
  lemma {:induction false} ResponseOrigin(c: Config, states: seq<Net>, steps: seq<Step>, k: nat, p: Packet)
      returns (j: nat)
    requires Run(c, states, steps) && k < |states|
    requires PresentAt(states[k], p) && p.event.kind == Response
    ensures j < k && SentAt(states, steps, j, p)
  {
    if k == 0 {
      assert false;
    } else {
      PresentBefore(c, states[k - 1], steps[k - 1], states[k], p);
      if PresentAt(states[k - 1], p) {
        j := ResponseOrigin(c, states, steps, k - 1, p);
      } else {
        j := k - 1;
        assert FinishStep(c, states[j], steps[j].n, steps[j].listing, steps[j].response, states[k]);
      }
    }
  }

  /** The knowledge merge. When n finishes handling a RESPONSE to its own REQUEST, some earlier
      step j is the responder m's answer, and n now stores m and every peer m stored at j
      except n itself, although m omitted everyone on n's ignore list. */
  lemma ResponseMergesKnowledge(c: Config, states: seq<Net>, steps: seq<Step>, k: nat) returns (j: nat, m: Id)
    requires Run(c, states, steps) && k < |steps|
    requires steps[k].Finish? && steps[k].n in states[k].daemons
    requires states[k].daemons[steps[k].n].handling.Some?
    requires var ev := states[k].daemons[steps[k].n].handling.value.packet.event;
      ev.kind == Response && ev.initiator == steps[k].n
    ensures j < k && steps[j].Finish? && steps[j].n == m
    ensures steps[j].response == Some(states[k].daemons[steps[k].n].handling.value.packet.event)
    ensures m in states[j + 1].daemons && steps[k].n in states[k + 1].daemons
    ensures {m} + (states[j + 1].daemons[m].node.peers.Keys - {steps[k].n}) <=
      states[k + 1].daemons[steps[k].n].node.peers.Keys
  {
    var n := steps[k].n;
    var p := states[k].daemons[n].handling.value.packet;
    assert Handles(states[k].daemons[n], p);
    j := ResponseOrigin(c, states, steps, k, p);
    m := steps[j].n;
    IgnoreListsAreKnown(c, states, steps, k);
    assert Covered(states[k], p);
    assert FinishStep(c, states[k], n, steps[k].listing, steps[k].response, states[k + 1]);
    RegistrationKeys(c, n, states[k].daemons[n].node.peers, p.event);
  }
}
