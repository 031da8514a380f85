/** N daemons on one multicast group: packets may be lost, duplicated and reordered, and the
    announcement loop of a daemon may run between the two halves of its listener's work
    (the locked window test, then registration and answer). */
module Gossip {
  import opened Wrappers
  import opened PeerRecords
  import opened Sequences

  datatype Config = Config(ids: seq<Id>, uri: Id -> string, interval: Id -> Time, offers: (Id, Runtime) -> bool)

  ghost predicate ValidConfig(c: Config) {
    DuplicateFree(c.ids)
  }

  /** One copy on its way to one daemon. `knew` records which peers the sender of a RESPONSE
      had stored when it answered; no daemon reads it. */
  datatype Packet = Packet(to: Id, event: Event, knew: set<Id>)

  /** The listener is between the locked section and the rest of handleAnnouncement. */
  datatype Handling = Handling(packet: Packet, outside: bool)

  datatype Daemon = Daemon(node: Node, started: bool, handling: Option<Handling>)

  datatype Net = Net(daemons: map<Id, Daemon>, flight: seq<Packet>, clock: Time)

  datatype Step =
    | Announce(n: Id, listing: Option<seq<Runtime>>, ev: Event, first: bool)
    | Receive(i: nat)
    | Finish(n: Id, listing: Option<seq<Runtime>>, response: Option<Event>)
    | Lose(i: nat)
    | Duplicate(i: nat)
    | Wait(d: nat)

  function Broadcast(ids: seq<Id>, ev: Event, knew: set<Id>): (ps: seq<Packet>)
    ensures |ps| == |ids|
  {
    seq(|ids|, i requires 0 <= i < |ids| => Packet(ids[i], ev, knew))
  }

  ghost predicate Offered(c: Config, n: Id, listing: Option<seq<Runtime>>) {
    listing.Some? ==> forall i :: 0 <= i < |listing.value| ==> c.offers(n, listing.value[i])
  }

  ghost predicate Init(c: Config, s: Net) {
    && s.flight == []
    && s.daemons.Keys == IdSet(c.ids)
    && forall n :: n in s.daemons ==> s.daemons[n] == Daemon(Node(map[], map[], 0), false, None)
  }

  // ---------- Steps ----------

  ghost predicate AnnounceStep(c: Config, s: Net, n: Id, listing: Option<seq<Runtime>>, ev: Event, first: bool,
                               s': Net) {
    && n in s.daemons
    && var d := s.daemons[n];
    && (if first then !d.started else d.started && s.clock - d.node.activity >= c.interval(n))
    && Offered(c, n, listing)
    && IsRequest(n, c.uri(n), listing, d.node, s.clock, ev)
    && s' == Net(s.daemons[n := d.(started := true, node := d.node.(activity := s.clock))],
                 s.flight + Broadcast(c.ids, ev, {}), s.clock)
  }

  /** A copy reaches an idle listener: own copies are dropped, others pass the locked section. */
  ghost predicate ReceiveStep(c: Config, s: Net, i: nat, s': Net) {
    && i < |s.flight|
    && s.flight[i].to in s.daemons
    && var p := s.flight[i];
    && var d := s.daemons[p.to];
    && d.handling.None?
    && if p.event.peer.None? || p.event.peer.value.id == p.to then
         s' == s.(flight := RemoveAt(s.flight, i))
       else
         var sender := p.event.peer.value.id;
         s' == Net(s.daemons[p.to := d.(node := NoteHeard(d.node, sender, s.clock),
                                        handling := Some(Handling(p, OutsideWindow(d.node.heard, sender, s.clock))))],
                   RemoveAt(s.flight, i), s.clock)
  }

  ghost predicate FinishStep(c: Config, s: Net, n: Id, listing: Option<seq<Runtime>>, response: Option<Event>,
                             s': Net) {
    && n in s.daemons
    && var d := s.daemons[n];
    && d.handling.Some? && d.handling.value.packet.event.peer.Some?
    && Offered(c, n, listing)
    && var ev := d.handling.value.packet.event;
    && var peers := RegisterAll(d.node.peers, n, ev);
    && (response.Some? <==> Answers(n, ev, d.handling.value.outside))
    && (response.Some? ==> IsResponse(n, c.uri(n), listing, peers, ev, response.value))
    && s' == Net(s.daemons[n := d.(node := d.node.(peers := peers), handling := None)],
                 s.flight + if response.Some? then Broadcast(c.ids, response.value, peers.Keys) else [], s.clock)
  }

  ghost predicate Next(c: Config, s: Net, step: Step, s': Net) {
    match step
    case Announce(n, listing, ev, first) => AnnounceStep(c, s, n, listing, ev, first, s')
    case Receive(i) => ReceiveStep(c, s, i, s')
    case Finish(n, listing, response) => FinishStep(c, s, n, listing, response, s')
    case Lose(i) => i < |s.flight| && s' == s.(flight := RemoveAt(s.flight, i))
    case Duplicate(i) => i < |s.flight| && s' == s.(flight := s.flight + [s.flight[i]])
    case Wait(d) => s' == s.(clock := s.clock + d)
  }

  /** From any start, every step follows the protocol. */
  ghost predicate Path(c: Config, states: seq<Net>, steps: seq<Step>) {
    && |states| == |steps| + 1
    && forall k :: 0 <= k < |steps| ==> Next(c, states[k], steps[k], states[k + 1])
  }

  ghost predicate Run(c: Config, states: seq<Net>, steps: seq<Step>) {
    Path(c, states, steps) && Init(c, states[0])
  }

  /** A daemon that runs handleAnnouncement without interruption takes a Receive step and a
      Finish step: the class methods and the network agree on what handling means. */
  lemma HandlingIsTwoSteps(c: Config, s: Net, i: nat, listing: Option<seq<Runtime>>, after: Node,
                           response: Option<Event>)
      returns (mid: Net, s': Net)
    requires i < |s.flight| && s.flight[i].to in s.daemons && s.daemons[s.flight[i].to].handling.None?
    requires s.flight[i].event.peer.Some? && s.flight[i].event.peer.value.id != s.flight[i].to
    requires Offered(c, s.flight[i].to, listing)
    requires var n := s.flight[i].to;
      Handled(n, c.uri(n), listing, s.daemons[n].node, s.flight[i].event, s.clock, after, response)
    ensures ReceiveStep(c, s, i, mid) && FinishStep(c, mid, s.flight[i].to, listing, response, s')
    ensures s'.daemons == s.daemons[s.flight[i].to := s.daemons[s.flight[i].to].(node := after)]
    ensures s'.flight == RemoveAt(s.flight, i) +
      if response.Some? then Broadcast(c.ids, response.value, after.peers.Keys) else []
  {
    var p := s.flight[i];
    var d := s.daemons[p.to];
    var sender := p.event.peer.value.id;
    var outside := OutsideWindow(d.node.heard, sender, s.clock);
    var noted := d.(node := NoteHeard(d.node, sender, s.clock), handling := Some(Handling(p, outside)));
    mid := Net(s.daemons[p.to := noted],
               RemoveAt(s.flight, i), s.clock);
    s' := Net(mid.daemons[p.to := d.(node := after, handling := None)],
              mid.flight + if response.Some? then Broadcast(c.ids, response.value, after.peers.Keys) else [], s.clock);
  }

  // ---------- Authenticity ----------

  /** r is an offer of p with p's own id stamped on it once. */
  ghost predicate StampedOffer(c: Config, p: Id, r: Runtime) {
    |r.peerIds| > 0
    && r.peerIds[|r.peerIds| - 1] == p
    && c.offers(p, r.(peerIds := r.peerIds[..|r.peerIds| - 1]))
  }

  ghost predicate StampedOffers(c: Config, p: Id, rts: seq<Runtime>) {
    forall i :: 0 <= i < |rts| ==> StampedOffer(c, p, rts[i])
  }

  /** What is stored about p is what p advertises. */
  ghost predicate GenuineRecord(c: Config, p: Id, r: Record) {
    && ApiUri(r.host, r.port) == ParseRpcUri(c.uri(p))
    && r.endpoint == Endpoint(ParseRpcUri(c.uri(p)))
    && r.alive && !r.isLocal
    && StampedOffers(c, p, r.runtimes)
  }

  ghost predicate GenuineGossip(c: Config, p: Peer) {
    && p.id in c.ids
    && p.uri == Some(ParseRpcUri(c.uri(p.id)))
    && StampedOffers(c, p.id, p.runtimes)
  }

  ghost predicate GenuineSender(c: Config, p: Peer) {
    && p.id in c.ids
    && p.uri == Some(ParseRpcUri(c.uri(p.id)))
    && forall i :: 0 <= i < |p.runtimes| ==> c.offers(p.id, p.runtimes[i])
  }

  ghost predicate GenuineEvent(c: Config, ev: Event) {
    && ev.peer.Some?
    && GenuineSender(c, ev.peer.value)
    && (forall i :: 0 <= i < |ev.known| ==> GenuineGossip(c, ev.known[i]) && ev.known[i].id != ev.peer.value.id)
    && (ev.kind == Request || ev.kind == Response)
    && ev.initiator in c.ids
    && (ev.kind == Request ==> ev.initiator == ev.peer.value.id)
  }

  ghost predicate GenuineStore(c: Config, n: Id, peers: Peers) {
    && n !in peers
    && forall p :: p in peers ==> p in c.ids && GenuineRecord(c, p, peers[p])
  }

  ghost predicate GenuineDaemon(c: Config, n: Id, d: Daemon) {
    && GenuineStore(c, n, d.node.peers)
    && n !in d.node.heard
    && (d.handling.Some? ==>
         && GenuineEvent(c, d.handling.value.packet.event)
         && d.handling.value.packet.event.peer.value.id != n)
  }

  ghost predicate Authentic(c: Config, s: Net) {
    && s.daemons.Keys == IdSet(c.ids)
    && (forall n :: n in s.daemons ==> GenuineDaemon(c, n, s.daemons[n]))
    && (forall p :: p in s.flight ==> GenuineEvent(c, p.event))
  }

  /** Passing a genuine record on keeps it genuine. */
  lemma GenuineOnWire(c: Config, p: Id, r: Record)
    requires p in c.ids && GenuineRecord(c, p, r)
    ensures GenuineGossip(c, ToWire(p, r))
  {
    var u := ParseRpcUri(c.uri(p));
    assert r.host == u.host && r.port == u.port;
    Uint32Fits(r.port);
  }

  lemma GenuineListing(c: Config, n: Id, peers: Peers, ids: set<Id>, known: seq<Peer>)
    requires GenuineStore(c, n, peers) && ids <= peers.Keys && ListsExactly(known, peers, ids)
    ensures forall i :: 0 <= i < |known| ==> GenuineGossip(c, known[i]) && known[i].id != n
  {
    forall i | 0 <= i < |known| ensures GenuineGossip(c, known[i])
    {
      GenuineOnWire(c, known[i].id, peers[known[i].id]);
    }
  }

  lemma GenuineAdvert(c: Config, n: Id, listing: Option<seq<Runtime>>)
    requires n in c.ids && Offered(c, n, listing)
    ensures GenuineSender(c, Advert(n, c.uri(n), listing))
  {
  }

  /** Handling a genuine event keeps the store genuine. */
  lemma GenuineRegistration(c: Config, n: Id, peers: Peers, ev: Event)
    requires GenuineStore(c, n, peers) && GenuineEvent(c, ev) && ev.peer.value.id != n
    ensures GenuineStore(c, n, RegisterAll(peers, n, ev))
  {
    var sender := ev.peer.value;
    var direct := RegisterDirect(peers, sender);
    var stamped := Stamp(sender.runtimes, sender.id);
    forall i | 0 <= i < |stamped| ensures StampedOffer(c, sender.id, stamped[i])
    {
      var r := stamped[i];
      assert r.(peerIds := r.peerIds[..|r.peerIds| - 1]) == sender.runtimes[i];
    }
    assert GenuineStore(c, n, direct);
    RegisterKnownKeys(direct, n, ev.known);
    forall p | p in RegisterAll(peers, n, ev)
      ensures p in c.ids && GenuineRecord(c, p, RegisterAll(peers, n, ev)[p])
    {
      var i := RegisterKnownOrigin(direct, n, ev.known, p);
    }
  }

  lemma AuthenticInit(c: Config, s: Net)
    requires Init(c, s)
    ensures Authentic(c, s)
  {
  }

  lemma AuthenticAnnounce(c: Config, s: Net, n: Id, listing: Option<seq<Runtime>>, ev: Event, first: bool, s': Net)
    requires Authentic(c, s) && AnnounceStep(c, s, n, listing, ev, first, s')
    ensures Authentic(c, s')
  {
    var node := s.daemons[n].node;
    GenuineListing(c, n, node.peers, node.peers.Keys, ev.known);
    GenuineAdvert(c, n, listing);
  }

  lemma AuthenticFinish(c: Config, s: Net, n: Id, listing: Option<seq<Runtime>>, response: Option<Event>, s': Net)
    requires Authentic(c, s) && FinishStep(c, s, n, listing, response, s')
    ensures Authentic(c, s')
  {
    var d := s.daemons[n];
    var ev := d.handling.value.packet.event;
    GenuineRegistration(c, n, d.node.peers, ev);
    if response.Some? {
      var peers := RegisterAll(d.node.peers, n, ev);
      GenuineListing(c, n, peers, peers.Keys - {ev.peer.value.id} - IdSet(ev.ignore), response.value.known);
      GenuineAdvert(c, n, listing);
    }
  }

  lemma AuthenticNext(c: Config, s: Net, step: Step, s': Net)
    requires Authentic(c, s) && Next(c, s, step, s')
    ensures Authentic(c, s')
  {
    match step
    case Announce(n, listing, ev, first) => AuthenticAnnounce(c, s, n, listing, ev, first, s');
    case Receive(i) =>
      assert s.flight[i] in s.flight;
    case Finish(n, listing, response) => AuthenticFinish(c, s, n, listing, response, s');
    case Lose(i) =>
    case Duplicate(i) =>
      assert s.flight[i] in s.flight;
    case Wait(d) =>
  }

  /** In every state of every run no daemon lists itself, and everything stored or in flight
      about a peer is exactly what that peer advertised, over any number of hops. */
  lemma {:induction false} GossipIsAuthentic(c: Config, states: seq<Net>, steps: seq<Step>, k: nat)
    requires Run(c, states, steps) && k < |states|
    ensures Authentic(c, states[k])
  {
    if k == 0 {
      AuthenticInit(c, states[0]);
    } else {
      GossipIsAuthentic(c, states, steps, k - 1);
      AuthenticNext(c, states[k - 1], steps[k - 1], states[k]);
    }
  }

  /** When providers list runtimes without peer ids, every runtime stored about p, directly or
      over any number of hops, names exactly p as its peer. */
  lemma StoredRuntimesNameTheirPeer(c: Config, states: seq<Net>, steps: seq<Step>, k: nat, n: Id, p: Id, i: nat)
    requires Run(c, states, steps) && k < |states|
    requires forall q, r :: c.offers(q, r) ==> r.peerIds == []
    requires n in states[k].daemons && p in states[k].daemons[n].node.peers
    requires i < |states[k].daemons[n].node.peers[p].runtimes|
    ensures states[k].daemons[n].node.peers[p].runtimes[i].peerIds == [p]
  {
    GossipIsAuthentic(c, states, steps, k);
    assert GenuineDaemon(c, n, states[k].daemons[n]);
    var r := states[k].daemons[n].node.peers[p].runtimes[i];
    assert StampedOffer(c, p, r);
    var front := r.peerIds[..|r.peerIds| - 1];
    assert front == [] && r.peerIds == front + [p];
  }
}
