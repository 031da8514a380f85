/** Where stored runtimes come from: whole listings of the peer's own provider, over any number of
    hops, with nothing lost on the way. */
module GossipProvenance {
  import opened Wrappers
  import opened PeerRecords
  import opened Gossip

  function ListingOf(listing: Option<seq<Runtime>>): seq<Runtime> {
    match listing case Some(rts) => rts case None => []
  }

  /** Step j is p announcing or answering with this listing from its provider. */
  ghost predicate ListedAt(steps: seq<Step>, j: nat, p: Id, listing: seq<Runtime>) {
    && j < |steps|
    && match steps[j]
       case Announce(n, l, _, _) => n == p && ListingOf(l) == listing
       case Finish(n, l, response) => n == p && response.Some? && ListingOf(l) == listing
       case _ => false
  }

  ghost predicate ListedBefore(steps: seq<Step>, k: nat, p: Id, listing: seq<Runtime>) {
    exists j :: 0 <= j < k && ListedAt(steps, j, p, listing)
  }

  /** Some listing p sent before step k, every runtime of it and in its order, with p appended. */
  ghost predicate StoredFrom(steps: seq<Step>, k: nat, p: Id, stored: seq<Runtime>) {
    exists listing :: ListedBefore(steps, k, p, listing) && OfferedBy(stored, listing, p)
  }

  ghost predicate TracedStore(steps: seq<Step>, k: nat, peers: Peers) {
    forall p :: p in peers ==> StoredFrom(steps, k, p, peers[p].runtimes)
  }

  ghost predicate TracedEvent(steps: seq<Step>, k: nat, ev: Event) {
    && (ev.peer.Some? ==> ListedBefore(steps, k, ev.peer.value.id, ev.peer.value.runtimes))
    && (forall i :: 0 <= i < |ev.known| ==> StoredFrom(steps, k, ev.known[i].id, ev.known[i].runtimes))
  }

  ghost predicate TracedDaemon(steps: seq<Step>, k: nat, d: Daemon) {
    TracedStore(steps, k, d.node.peers) && (d.handling.Some? ==> TracedEvent(steps, k, d.handling.value.packet.event))
  }

  ghost predicate Traced(steps: seq<Step>, k: nat, s: Net) {
    && (forall n :: n in s.daemons ==> TracedDaemon(steps, k, s.daemons[n]))
    && (forall p :: p in s.flight ==> TracedEvent(steps, k, p.event))
  }

  lemma StoreStaysTraced(steps: seq<Step>, k: nat, peers: Peers)
    requires TracedStore(steps, k, peers)
    ensures TracedStore(steps, k + 1, peers)
  {
    forall p | p in peers ensures StoredFrom(steps, k + 1, p, peers[p].runtimes) {
      LaterStillStored(steps, k, p, peers[p].runtimes);
    }
  }

  lemma LaterStillStored(steps: seq<Step>, k: nat, p: Id, stored: seq<Runtime>)
    requires StoredFrom(steps, k, p, stored)
    ensures StoredFrom(steps, k + 1, p, stored)
  {
    var listing :| ListedBefore(steps, k, p, listing) && OfferedBy(stored, listing, p);
    assert ListedBefore(steps, k + 1, p, listing);
  }

  lemma EventStaysTraced(steps: seq<Step>, k: nat, ev: Event)
    requires TracedEvent(steps, k, ev)
    ensures TracedEvent(steps, k + 1, ev)
  {
    forall i | 0 <= i < |ev.known| ensures StoredFrom(steps, k + 1, ev.known[i].id, ev.known[i].runtimes) {
      LaterStillStored(steps, k, ev.known[i].id, ev.known[i].runtimes);
    }
  }

  /** Passing a traced store on keeps it traced. */
  lemma SentEventIsTraced(steps: seq<Step>, k: nat, n: Id, peers: Peers, ev: Event, listing: seq<Runtime>)
    requires TracedStore(steps, k, peers) && PassedOn(ev.known, peers)
    requires ev.peer.Some? && ev.peer.value.id == n && ev.peer.value.runtimes == listing
    requires ListedBefore(steps, k, n, listing)
    ensures TracedEvent(steps, k, ev)
  {
  }

  /** Handling a traced event keeps the store traced. */
  lemma HandledEventStaysTraced(steps: seq<Step>, k: nat, n: Id, peers: Peers, ev: Event)
    requires TracedStore(steps, k, peers) && TracedEvent(steps, k, ev)
    requires ev.peer.Some? && ev.peer.value.id != n
    ensures TracedStore(steps, k, RegisterAll(peers, n, ev))
  {
    var direct, after := RegisterDirect(peers, ev.peer.value), RegisterAll(peers, n, ev);
    forall p | p in after ensures StoredFrom(steps, k, p, after[p].runtimes) {
      var i := RegisterKnownOrigin(direct, n, ev.known, p);
      if i == -1 && p == ev.peer.value.id && ev.peer.value.uri.Some? {
        assert OfferedBy(after[p].runtimes, ev.peer.value.runtimes, p);
      }
    }
  }

  lemma AnnounceStaysTraced(c: Config, steps: seq<Step>, k: nat, s: Net, s': Net)
    requires k < |steps| && Traced(steps, k, s) && steps[k].Announce? && Next(c, s, steps[k], s')
    ensures Traced(steps, k + 1, s')
  {
    var n, node := steps[k].n, s.daemons[steps[k].n].node;
    RequestSays(n, c.uri(n), steps[k].listing, node, s.clock, steps[k].ev);
    OldStaysTraced(steps, k, s);
    assert ListedAt(steps, k, n, ListingOf(steps[k].listing));
    SentEventIsTraced(steps, k + 1, n, node.peers, steps[k].ev, ListingOf(steps[k].listing));
  }

  lemma FinishStaysTraced(c: Config, steps: seq<Step>, k: nat, s: Net, s': Net)
    requires k < |steps| && Traced(steps, k, s) && steps[k].Finish? && Next(c, s, steps[k], s')
    requires steps[k].n in s.daemons && s.daemons[steps[k].n].handling.Some?
    requires var sender := s.daemons[steps[k].n].handling.value.packet.event.peer;
      sender.Some? && sender.value.id != steps[k].n
    ensures Traced(steps, k + 1, s')
  {
    var n, d := steps[k].n, s.daemons[steps[k].n];
    var ev, peers := d.handling.value.packet.event, s'.daemons[n].node.peers;
    OldStaysTraced(steps, k, s);
    HandledEventStaysTraced(steps, k + 1, n, d.node.peers, ev);
    if steps[k].response.Some? {
      var listing := ListingOf(steps[k].listing);
      ResponseSays(n, c.uri(n), steps[k].listing, peers, ev, steps[k].response.value);
      assert ListedAt(steps, k, n, listing);
      SentEventIsTraced(steps, k + 1, n, peers, steps[k].response.value, listing);
    }
  }

  lemma OldStaysTraced(steps: seq<Step>, k: nat, s: Net)
    requires Traced(steps, k, s)
    ensures Traced(steps, k + 1, s)
  {
    forall n | n in s.daemons ensures TracedDaemon(steps, k + 1, s.daemons[n]) {
      StoreStaysTraced(steps, k, s.daemons[n].node.peers);
      if s.daemons[n].handling.Some? {
        EventStaysTraced(steps, k, s.daemons[n].handling.value.packet.event);
      }
    }
    forall p | p in s.flight ensures TracedEvent(steps, k + 1, p.event) {
      EventStaysTraced(steps, k, p.event);
    }
  }

  lemma {:induction false} RunsAreTraced(c: Config, states: seq<Net>, steps: seq<Step>, k: nat)
    requires Run(c, states, steps) && k < |states|
    ensures Traced(steps, k, states[k])
  {
    if k > 0 {
      var s, step := states[k - 1], steps[k - 1];
      RunsAreTraced(c, states, steps, k - 1);
      assert Next(c, s, step, states[k]);
      match step
      case Announce(_, _, _, _) => AnnounceStaysTraced(c, steps, k - 1, s, states[k]);
      case Finish(n, _, _) =>
        GossipIsAuthentic(c, states, steps, k - 1);
        assert GenuineDaemon(c, n, s.daemons[n]);
        FinishStaysTraced(c, steps, k - 1, s, states[k]);
      case Receive(i) =>
        OldStaysTraced(steps, k - 1, s);
        assert s.flight[i] in s.flight;
      case Duplicate(i) =>
        OldStaysTraced(steps, k - 1, s);
        assert s.flight[i] in s.flight;
      case _ => OldStaysTraced(steps, k - 1, s);
    }
  }

  /** In every run, what n stores about p is exactly p's advertised address and a whole listing p
      itself sent in some earlier step: each of its runtimes, in order, naming p as its peer. */
  lemma RecordsAreWholeListings(c: Config, states: seq<Net>, steps: seq<Step>, k: nat, n: Id, p: Id)
      returns (j: nat, listing: seq<Runtime>)
    requires Run(c, states, steps) && k < |states|
    requires n in states[k].daemons && p in states[k].daemons[n].node.peers
    ensures j < k && ListedAt(steps, j, p, listing)
    ensures OfferedBy(states[k].daemons[n].node.peers[p].runtimes, listing, p)
    ensures var r := states[k].daemons[n].node.peers[p]; Holds(r, ParseRpcUri(c.uri(p)), r.runtimes)
  {
    RunsAreTraced(c, states, steps, k);
    var stored := states[k].daemons[n].node.peers[p];
    assert StoredFrom(steps, k, p, stored.runtimes);
    listing :| ListedBefore(steps, k, p, listing) && OfferedBy(stored.runtimes, listing, p);
    j :| 0 <= j < k && ListedAt(steps, j, p, listing);
    GossipIsAuthentic(c, states, steps, k);
    assert GenuineDaemon(c, n, states[k].daemons[n]);
  }

  /** When n finishes handling an event, it stores each peer the event lists, n itself excepted,
      with the address and all the runtimes of that peer's last entry, stores a sender that is not
      listed with all of its listing, and keeps its records of everybody else. */
  lemma FinishStoresEvent(c: Config, states: seq<Net>, steps: seq<Step>, k: nat)
    requires Run(c, states, steps) && k < |steps| && steps[k].Finish? && steps[k].n in states[k].daemons
    requires states[k].daemons[steps[k].n].handling.Some?
    ensures var n := steps[k].n;
      && n in states[k + 1].daemons
      && var ev, before, after :=
           states[k].daemons[n].handling.value.packet.event,
           states[k].daemons[n].node.peers, states[k + 1].daemons[n].node.peers;
      && ev.peer.Some?
      && (forall i :: 0 <= i < |ev.known| && IsLastEntry(ev.known, i) && ev.known[i].id != n ==>
            && ev.known[i].id in after
            && Holds(after[ev.known[i].id], ev.known[i].uri.value, ev.known[i].runtimes))
      && var p := ev.peer.value;
      && (p.uri.Some? && !Listed(ev.known, p.id) ==>
            && p.id in after && OfferedBy(after[p.id].runtimes, p.runtimes, p.id)
            && Holds(after[p.id], p.uri.value, after[p.id].runtimes))
      && (forall id :: (!Listed(ev.known, id) || id == n) && (id != p.id || p.uri.None?) ==>
            (id in after <==> id in before) && (id in before ==> after[id] == before[id]))
  {
    var n := steps[k].n;
    assert Next(c, states[k], steps[k], states[k + 1]);
    GossipIsAuthentic(c, states, steps, k);
    assert GenuineDaemon(c, n, states[k].daemons[n]);
    HandledEventIsStored(states[k].daemons[n].node.peers, n, states[k].daemons[n].handling.value.packet.event,
                         states[k + 1].daemons[n].node.peers);
  }
}
