/** What one daemon stores about its peers, what travels in an announcement, and how one
    announcement changes the store. Everything here is a value; PeerManager and Discoverer
    hold the mutable objects and are proved against these definitions. */
module PeerRecords {
  import opened Sequences
  import opened Wrappers
  import opened Strings

  type Id = string

  /** Nanoseconds, as time.Duration counts them. */
  type Time = int

  const ANNOUNCEMENT_WINDOW: Time := 90_000_000_000
  const RECENT_THRESHOLD: Time := ANNOUNCEMENT_WINDOW / 2

  /** A runtime offer; `spec` stands for every field the protocol only carries along. */
  datatype Runtime = Runtime(id: string, spec: string, peerIds: seq<Id>)

  datatype ApiUri = ApiUri(host: string, port: nat)

  /** A peer as it appears inside an announcement. */
  datatype Peer = Peer(id: Id, uri: Option<ApiUri>, runtimes: seq<Runtime>)

  datatype Kind = Request | Response | Unspecified

  datatype Event = Event(peer: Option<Peer>, kind: Kind, initiator: Id, ignore: seq<Id>, known: seq<Peer>)

  /** The stored fields of a peer that the protocol reads or writes. */
  datatype Record = Record(host: string, port: nat, endpoint: string, runtimes: seq<Runtime>, alive: bool,
    isLocal: bool)

  type Peers = map<Id, Record>

  /** One daemon's protocol state: its peer store, when it last heard each peer directly,
      and when it last saw or caused network activity. */
  datatype Node = Node(peers: Peers, heard: map<Id, Time>, activity: Time)

  // ---------- Sending ----------

  /** parseRPCURI: "host:port" with a uint32 port; any other shape is all host, port 0. */
  function ParseRpcUri(uri: string): (r: ApiUri)
    ensures r.port < UINT32_LIMIT
  {
    var parts := Split(uri, ':');
    if |parts| == 2 then
      ApiUri(parts[0], match ParseUint32(parts[1]) case Some(p) => p case None => 0)
    else
      ApiUri(uri, 0)
  }

  function Uint32(n: nat): nat { n % UINT32_LIMIT }

  lemma Uint32Fits(n: nat)
    requires n < UINT32_LIMIT
    ensures Uint32(n) == n
  {
  }

  /** The sender's own entry: its parsed URI and whatever its runtime provider listed. */
  function Advert(self: Id, rpcUri: string, listing: Option<seq<Runtime>>): Peer {
    Peer(self, Some(ParseRpcUri(rpcUri)), match listing case Some(rts) => rts case None => [])
  }

  /** A stored peer as it is passed on. */
  function ToWire(id: Id, r: Record): Peer {
    Peer(id, Some(ApiUri(r.host, Uint32(r.port))), r.runtimes)
  }

  function IdsOf(known: seq<Peer>): (ids: seq<Id>)
    ensures |ids| == |known|
  {
    seq(|known|, i requires 0 <= i < |known| => known[i].id)
  }

  ghost predicate DistinctIds(known: seq<Peer>) { DuplicateFree(IdsOf(known)) }

  /** `known` lists each of `ids` exactly once, in some order, as stored in `peers`. */
  ghost predicate ListsExactly(known: seq<Peer>, peers: Peers, ids: set<Id>)
    requires ids <= peers.Keys
  {
    && DistinctIds(known)
    && (forall i :: 0 <= i < |known| ==> known[i].id in ids && known[i] == ToWire(known[i].id, peers[known[i].id]))
    && (forall id :: id in ids ==> exists i :: 0 <= i < |known| && known[i].id == id)
  }

  /** Each listed peer is a stored one, with its stored address and all of its runtimes. */
  ghost predicate PassedOn(known: seq<Peer>, peers: Peers) {
    forall i :: 0 <= i < |known| ==>
      && known[i].id in peers && known[i].runtimes == peers[known[i].id].runtimes
      && known[i].uri.Some? && known[i].uri.value.host == peers[known[i].id].host
      && (peers[known[i].id].port < 0x1_0000_0000 ==> known[i].uri.value.port == peers[known[i].id].port)
  }

  lemma ListingKeepsRecords(known: seq<Peer>, peers: Peers, ids: set<Id>)
    requires ids <= peers.Keys && ListsExactly(known, peers, ids)
    ensures PassedOn(known, peers)
  {
  }

  /** The entries whose ids are not skipped, in the same order. */
  function Without(known: seq<Peer>, skip: set<Id>): seq<Peer> {
    if known == [] then []
    else
      var last := known[|known| - 1];
      Without(known[..|known| - 1], skip) + if last.id in skip then [] else [last]
  }

  lemma DistinctIdsSnoc(front: seq<Peer>, last: Peer)
    ensures DistinctIds(front + [last]) <==> DistinctIds(front) && forall p :: p in front ==> p.id != last.id
  {
    var ids, n := IdsOf(front + [last]), |front|;
    assert ids[..n] == IdsOf(front) && ids[n] == last.id;
    if DistinctIds(front + [last]) {
      assert forall i :: 0 <= i < n ==> IdsOf(front)[i] == ids[i];
      forall p | p in front ensures p.id != last.id {
        var i :| 0 <= i < n && front[i] == p;
        assert ids[i] != ids[n];
      }
    }
    if DistinctIds(front) && forall p :: p in front ==> p.id != last.id {
      forall i, j | 0 <= i < j < |ids| ensures ids[i] != ids[j] {
        assert front[i] in front && ids[i] == IdsOf(front)[i];
        assert j < n ==> ids[j] == IdsOf(front)[j];
      }
    }
  }

  lemma {:induction false} WithoutMembers(known: seq<Peer>, skip: set<Id>)
    requires DistinctIds(known)
    ensures forall p :: p in Without(known, skip) <==> p in known && p.id !in skip
    ensures DistinctIds(Without(known, skip))
  {
    if known != [] {
      var front, last := known[..|known| - 1], known[|known| - 1];
      assert known == front + [last];
      DistinctIdsSnoc(front, last);
      WithoutMembers(front, skip);
      DistinctIdsSnoc(Without(front, skip), last);
      assert Without(front, skip) + [] == Without(front, skip);
    }
  }

  /** Skipping ids from an exact listing leaves an exact listing of the others. */
  lemma WithoutListsExactly(known: seq<Peer>, peers: Peers, skip: set<Id>)
    requires ListsExactly(known, peers, peers.Keys)
    ensures ListsExactly(Without(known, skip), peers, peers.Keys - skip)
  {
    WithoutMembers(known, skip);
    var w := Without(known, skip);
    forall i | 0 <= i < |w| ensures w[i].id in peers.Keys - skip && w[i] == ToWire(w[i].id, peers[w[i].id])
    {
      assert w[i] in known;
    }
    forall id | id in peers.Keys - skip ensures exists i :: 0 <= i < |w| && w[i].id == id
    {
      var j :| 0 <= j < |known| && known[j].id == id;
      assert known[j] in w;
    }
  }

  ghost predicate EnumeratesIds(s: seq<Id>, ids: set<Id>) {
    && DuplicateFree(s)
    && (forall id :: id in s <==> id in ids)
  }

  /** The peers heard directly within half the flood window. */
  function RecentlyHeard(heard: map<Id, Time>, now: Time): set<Id> {
    set id | id in heard && now - heard[id] < RECENT_THRESHOLD
  }

  /** ev is a REQUEST that sendAnnouncement may send: map iteration leaves the orders open. */
  ghost predicate IsRequest(self: Id, rpcUri: string, listing: Option<seq<Runtime>>, node: Node, now: Time, ev: Event) {
    && ev.peer == Some(Advert(self, rpcUri, listing))
    && ev.kind == Request
    && ev.initiator == self
    && EnumeratesIds(ev.ignore, RecentlyHeard(node.heard, now))
    && ListsExactly(ev.known, node.peers, node.peers.Keys)
  }

  function IdSet(ids: seq<Id>): set<Id> { set id | id in ids }

  /** ev is the RESPONSE that sendAnnouncementResponses may send to req. */
  ghost predicate IsResponse(self: Id, rpcUri: string, listing: Option<seq<Runtime>>, peers: Peers, req: Event,
                             ev: Event)
    requires req.peer.Some?
  {
    && ev.peer == Some(Advert(self, rpcUri, listing))
    && ev.kind == Response
    && ev.initiator == req.initiator
    && ev.ignore == []
    && ListsExactly(ev.known, peers, peers.Keys - {req.peer.value.id} - IdSet(req.ignore))
  }

  /** What a REQUEST says: the sender's parsed address and everything its provider listed, every
      stored peer as stored, and to be ignored whoever was heard in the last 45 seconds. */
  lemma RequestSays(self: Id, rpcUri: string, listing: Option<seq<Runtime>>, node: Node, now: Time, ev: Event)
    requires IsRequest(self, rpcUri, listing, node, now, ev)
    ensures ev.kind == Request && ev.initiator == self
    ensures ev.peer == Some(Peer(self, Some(ParseRpcUri(rpcUri)), if listing.Some? then listing.value else []))
    ensures PassedOn(ev.known, node.peers)
    ensures forall id :: id in node.peers <==> exists i :: 0 <= i < |ev.known| && ev.known[i].id == id
    ensures forall id :: id in ev.ignore <==> id in node.heard && now - node.heard[id] < 45_000_000_000
  {
    ListingKeepsRecords(ev.known, node.peers, node.peers.Keys);
  }

  /** What a RESPONSE says: the same, for the peers the request neither came from nor ignores. */
  lemma ResponseSays(self: Id, rpcUri: string, listing: Option<seq<Runtime>>, peers: Peers, req: Event, ev: Event)
    requires req.peer.Some? && IsResponse(self, rpcUri, listing, peers, req, ev)
    ensures ev.kind == Response && ev.initiator == req.initiator && ev.ignore == []
    ensures ev.peer == Some(Peer(self, Some(ParseRpcUri(rpcUri)), if listing.Some? then listing.value else []))
    ensures PassedOn(ev.known, peers)
    ensures forall id :: id in peers && id != req.peer.value.id && id !in req.ignore <==>
      exists i :: 0 <= i < |ev.known| && ev.known[i].id == id
  {
    var ids := peers.Keys - {req.peer.value.id} - IdSet(req.ignore);
    ListingKeepsRecords(ev.known, peers, ids);
    forall id ensures id in ids <==> id in peers && id != req.peer.value.id && id !in req.ignore {
    }
  }

  // ---------- Receiving ----------

  function Endpoint(u: ApiUri): string { u.host + ":" + FormatUint(u.port) }

  function Stamp(rts: seq<Runtime>, id: Id): (r: seq<Runtime>)
    ensures |r| == |rts|
  {
    seq(|rts|, i requires 0 <= i < |rts| => rts[i].(peerIds := rts[i].peerIds + [id]))
  }

  function RecordOf(u: ApiUri, runtimes: seq<Runtime>): Record {
    Record(u.host, u.port, Endpoint(u), runtimes, true, false)
  }

  /** registerPeerFromAnnouncement: the sender's own entry, its id stamped on every runtime. */
  function RegisterDirect(peers: Peers, p: Peer): Peers {
    match p.uri
    case None => peers
    case Some(u) => peers[p.id := RecordOf(u, Stamp(p.runtimes, p.id))]
  }

  /** One entry of the known-peer list: taken over as it is, unless it is the receiver itself. */
  function RegisterGossip(peers: Peers, self: Id, p: Peer): Peers {
    if p.id == self || p.uri.None? then peers else peers[p.id := RecordOf(p.uri.value, p.runtimes)]
  }

  /** The known-peer loop: entries in list order, later ones overwriting earlier ones. */
  function RegisterKnown(peers: Peers, self: Id, known: seq<Peer>): Peers {
    if known == [] then peers
    else RegisterGossip(RegisterKnown(peers, self, known[..|known| - 1]), self, known[|known| - 1])
  }

  function RegisterAll(peers: Peers, self: Id, ev: Event): Peers
    requires ev.peer.Some?
  {
    RegisterKnown(RegisterDirect(peers, ev.peer.value), self, ev.known)
  }

  /** The test made under the lock: nothing heard directly from p, or not within the window. */
  predicate OutsideWindow(heard: map<Id, Time>, p: Id, now: Time) {
    p !in heard || now - heard[p] > ANNOUNCEMENT_WINDOW
  }

  /** The locked section of handleAnnouncement. */
  function NoteHeard(node: Node, p: Id, now: Time): Node {
    Node(node.peers, node.heard[p := now], now)
  }

  /** Whether a handled event is answered, given the outcome of the window test. */
  predicate Answers(self: Id, ev: Event, outside: bool)
    requires ev.peer.Some?
  {
    ev.kind == Request && outside && self !in ev.ignore && ev.peer.value.id !in ev.ignore
  }

  /** A daemon advertises "host:port"; the split recovers both, and the endpoint rebuilt from
      them is the advertised text, exactly when the host itself holds no colon. */
  lemma AdvertisedUriParsesBack(host: string, port: nat)
    requires port < UINT32_LIMIT
    ensures ParseRpcUri(host + ":" + FormatUint(port)) == ApiUri(host, port) <==> ':' !in host
    ensures Endpoint(ApiUri(host, port)) == host + ":" + FormatUint(port)
  {
    var uri, numeral := host + ":" + FormatUint(port), FormatUint(port);
    assert ':' !in numeral;
    if ':' !in host {
      SplitOfJoin([host, numeral], ':');
      assert uri == Join([host, numeral], ':') by { assert [host, numeral][1..] == [numeral]; }
      ParseOfFormat(port);
    } else if |Split(uri, ':')| == 2 {
      var parts := Split(uri, ':');
      assert uri == parts[0] + ":" + parts[1] by { assert Join(parts, ':') == uri && parts[1..] == [parts[1]]; }
      assert ParseRpcUri(uri).host == parts[0] && ':' !in parts[0];
    }
  }

  /** handleAnnouncement as a whole: the node before and after, and what is sent. */
  ghost predicate Handled(self: Id, rpcUri: string, listing: Option<seq<Runtime>>, before: Node, ev: Event, now: Time,
                          after: Node, response: Option<Event>)
    requires ev.peer.Some?
  {
    var sender := ev.peer.value.id;
    var noted := NoteHeard(before, sender, now);
    && after == noted.(peers := RegisterAll(noted.peers, self, ev))
    && (response.Some? <==> Answers(self, ev, OutsideWindow(before.heard, sender, now)))
    && (response.Some? ==> IsResponse(self, rpcUri, listing, after.peers, ev, response.value))
  }

  // ---------- What registration does to the store ----------

  ghost predicate Listed(known: seq<Peer>, id: Id) {
    exists i :: 0 <= i < |known| && known[i].id == id && known[i].uri.Some?
  }

  /** Known-peer registration adds exactly the listed ids other than the receiver's. */
  lemma {:induction false} RegisterKnownKeys(peers: Peers, self: Id, known: seq<Peer>)
    ensures forall id :: id in RegisterKnown(peers, self, known) <==> id in peers || (id != self && Listed(known, id))
  {
    if known != [] {
      var front := known[..|known| - 1];
      RegisterKnownKeys(peers, self, front);
      forall id ensures Listed(known, id) <==>
        Listed(front, id) || (known[|known| - 1].id == id && known[|known| - 1].uri.Some?)
      {
        if Listed(front, id) {
          var i :| 0 <= i < |front| && front[i].id == id && front[i].uri.Some?;
          assert known[i] == front[i];
        }
        if Listed(known, id) {
          var i :| 0 <= i < |known| && known[i].id == id && known[i].uri.Some?;
          assert i < |front| ==> front[i] == known[i];
        }
      }
    }
  }

  /** Every record after registration is an old one or comes from a listed entry. */
  lemma {:induction false} RegisterKnownOrigin(peers: Peers, self: Id, known: seq<Peer>, id: Id) returns (i: int)
    requires id in RegisterKnown(peers, self, known)
    ensures i == -1 ==> id in peers && RegisterKnown(peers, self, known)[id] == peers[id]
    ensures i != -1 ==> 0 <= i < |known| && known[i].id == id && id != self && known[i].uri.Some?
    ensures i != -1 ==> RegisterKnown(peers, self, known)[id] == RecordOf(known[i].uri.value, known[i].runtimes)
  {
    if known == [] {
      i := -1;
    } else {
      var last := known[|known| - 1];
      if last.id == id && id != self && last.uri.Some? {
        i := |known| - 1;
      } else {
        i := RegisterKnownOrigin(peers, self, known[..|known| - 1], id);
      }
    }
  }

  // ---------- What registration stores, field by field ----------

  /** The record holds exactly this address and these runtimes, as an online remote peer. */
  ghost predicate Holds(r: Record, u: ApiUri, runtimes: seq<Runtime>) {
    && r.host == u.host && r.port == u.port && r.endpoint == u.host + ":" + FormatUint(u.port)
    && r.runtimes == runtimes && r.alive && !r.isLocal
  }

  /** The provider's runtimes with p appended to the peers of each. */
  ghost predicate OfferedBy(stored: seq<Runtime>, listing: seq<Runtime>, p: Id) {
    && |stored| == |listing|
    && forall i :: 0 <= i < |stored| ==>
         stored[i] == Runtime(listing[i].id, listing[i].spec, listing[i].peerIds + [p])
  }

  /** Entry i is the last one for its peer that has an address. */
  ghost predicate IsLastEntry(known: seq<Peer>, i: nat) {
    && i < |known| && known[i].uri.Some?
    && forall j :: i < j < |known| && known[j].uri.Some? ==> known[j].id != known[i].id
  }

  lemma {:induction false} LastEntryIsStored(peers: Peers, self: Id, known: seq<Peer>, i: nat)
    requires IsLastEntry(known, i) && known[i].id != self
    ensures var after := RegisterKnown(peers, self, known);
      known[i].id in after && Holds(after[known[i].id], known[i].uri.value, known[i].runtimes)
  {
    var n := |known| - 1;
    if i < n {
      var front := known[..n];
      assert IsLastEntry(front, i) by {
        assert forall j :: 0 <= j < n ==> front[j] == known[j];
      }
      LastEntryIsStored(peers, self, front, i);
    }
  }

  lemma {:induction false} UnlistedStays(peers: Peers, self: Id, known: seq<Peer>, id: Id)
    requires !Listed(known, id) || id == self
    ensures id in RegisterKnown(peers, self, known) <==> id in peers
    ensures id in peers ==> RegisterKnown(peers, self, known)[id] == peers[id]
  {
    if known != [] {
      var n := |known| - 1;
      var front := known[..n];
      assert Listed(front, id) ==> Listed(known, id) by {
        assert forall j :: 0 <= j < n ==> front[j] == known[j];
      }
      assert known[n].id == id && known[n].uri.Some? ==> Listed(known, id);
      UnlistedStays(peers, self, front, id);
    }
  }

  /** A handled event stores, for each listed peer other than the receiver, the address and
      runtimes of its last entry; for a sender not among them, its address and all of its runtimes
      with its id appended; and leaves every other record alone. */
  lemma HandledEventIsStored(peers: Peers, self: Id, ev: Event, after: Peers)
    requires ev.peer.Some? && ev.peer.value.id != self && after == RegisterAll(peers, self, ev)
    ensures forall i :: 0 <= i < |ev.known| && IsLastEntry(ev.known, i) && ev.known[i].id != self ==>
      && ev.known[i].id in after
      && Holds(after[ev.known[i].id], ev.known[i].uri.value, ev.known[i].runtimes)
    ensures var p := ev.peer.value; p.uri.Some? && !Listed(ev.known, p.id) ==>
      && p.id in after && OfferedBy(after[p.id].runtimes, p.runtimes, p.id)
      && Holds(after[p.id], p.uri.value, after[p.id].runtimes)
    ensures forall id ::
      (!Listed(ev.known, id) || id == self) && (id != ev.peer.value.id || ev.peer.value.uri.None?) ==>
      (id in after <==> id in peers) && (id in peers ==> after[id] == peers[id])
  {
    var direct := RegisterDirect(peers, ev.peer.value);
    forall i | 0 <= i < |ev.known| && IsLastEntry(ev.known, i) && ev.known[i].id != self
      ensures ev.known[i].id in after
      ensures Holds(after[ev.known[i].id], ev.known[i].uri.value, ev.known[i].runtimes)
    {
      LastEntryIsStored(direct, self, ev.known, i);
    }
    forall id | !Listed(ev.known, id) || id == self
      ensures (id in after <==> id in direct) && (id in direct ==> after[id] == direct[id])
    {
      UnlistedStays(direct, self, ev.known, id);
    }
  }
}
