/** One daemon's side of the multicast discovery protocol. The clock, the runtime provider's
    answer and the socket are parameters and results: `now`, `listing`, and returned events. */
module Discoverer {
  import opened Wrappers
  import opened PeerRecords
  import opened PeerManager

  class MulticastDiscoverer {
    const daemonId: Id
    const rpcUri: string
    const interval: Time
    const peerManager: Manager
    var lastAnnouncementTime: map<Id, Time>
    var lastNetworkActivityTime: Time

    constructor (daemonId: Id, rpcUri: string, interval: Time, peerManager: Manager)
      ensures this.daemonId == daemonId && this.rpcUri == rpcUri
      ensures this.interval == interval && this.peerManager == peerManager
      ensures lastAnnouncementTime == map[]
    {
      this.daemonId, this.rpcUri, this.interval, this.peerManager := daemonId, rpcUri, interval, peerManager;
      lastAnnouncementTime, lastNetworkActivityTime := map[], 0;
    }

    ghost predicate Valid()
      reads peerManager
    {
      peerManager.Valid()
    }

    ghost function Store(): set<object>
      reads peerManager
    {
      {peerManager} + peerManager.peers.Values
    }

    ghost function View(): Node
      reads this, peerManager, peerManager.peers.Values
    {
      Node(peerManager.Contents(), lastAnnouncementTime, lastNetworkActivityTime)
    }

    // ---------- Sending ----------

    /** Every stored peer, converted for the wire. */
    method CollectKnownPeers() returns (known: seq<Peer>)
      requires Valid()
      ensures ListsExactly(known, peerManager.Contents(), peerManager.Contents().Keys)
      ensures PassedOn(known, peerManager.Contents())
    {
      var all := peerManager.GetAllPeers();
      known := [];
      for i := 0 to |all|
        invariant |known| == i
        invariant forall k :: 0 <= k < i ==> known[k] == ToWire(all[k].id, peerManager.peers[all[k].id].AsRecord())
      {
        known := known + [ToWire(all[i].id, all[i].AsRecord())];
      }
      forall id | id in peerManager.peers ensures exists i :: 0 <= i < |known| && known[i].id == id
      {
        var i :| 0 <= i < |all| && all[i].id == id;
        assert known[i].id == id;
      }
      ListingKeepsRecords(known, peerManager.Contents(), peerManager.Contents().Keys);
    }

    method CollectKnownPeersExcept(requester: Id, ignored: set<Id>) returns (known: seq<Peer>)
      requires Valid()
      ensures ListsExactly(known, peerManager.Contents(), peerManager.Contents().Keys - ({requester} + ignored))
      ensures PassedOn(known, peerManager.Contents())
    {
      var all := CollectKnownPeers();
      known := SkipPeers(all, requester, ignored);
      WithoutListsExactly(all, peerManager.Contents(), {requester} + ignored);
      ListingKeepsRecords(known, peerManager.Contents(), peerManager.Contents().Keys - ({requester} + ignored));
    }

    static method SkipPeers(all: seq<Peer>, requester: Id, ignored: set<Id>) returns (known: seq<Peer>)
      ensures known == Without(all, {requester} + ignored)
    {
      known := [];
      for i := 0 to |all|
        invariant known == Without(all[..i], {requester} + ignored)
      {
        assert all[..i + 1][..i] == all[..i];
        if all[i].id != requester && all[i].id !in ignored {
          known := known + [all[i]];
        }
      }
      assert all[..|all|] == all;
    }

    method CollectIgnoreList(now: Time) returns (ignore: seq<Id>)
      ensures EnumeratesIds(ignore, RecentlyHeard(lastAnnouncementTime, now))
      ensures forall id :: id in ignore <==>
        id in lastAnnouncementTime && now - lastAnnouncementTime[id] < 45_000_000_000
    {
      ignore := [];
      var todo := lastAnnouncementTime.Keys;
      while todo != {}
        invariant todo <= lastAnnouncementTime.Keys
        invariant EnumeratesIds(ignore, RecentlyHeard(lastAnnouncementTime, now) - todo)
        decreases todo
      {
        var id :| id in todo;
        todo := todo - {id};
        if now - lastAnnouncementTime[id] < RECENT_THRESHOLD {
          ignore := ignore + [id];
        }
      }
    }

    method SendAnnouncement(now: Time, listing: Option<seq<Runtime>>) returns (ev: Event)
      requires Valid()
      ensures IsRequest(daemonId, rpcUri, listing, View(), now, ev)
      ensures PassedOn(ev.known, peerManager.Contents())
    {
      var ignore := CollectIgnoreList(now);
      var known := CollectKnownPeers();
      ev := Event(Some(Advert(daemonId, rpcUri, listing)), Request, daemonId, ignore, known);
    }

    /** One RESPONSE for a REQUEST, or none when the requester listed itself as ignored. */
    method SendAnnouncementResponses(request: Event, listing: Option<seq<Runtime>>) returns (ev: Option<Event>)
      requires Valid()
      ensures ev.Some? <==> request.peer.Some? && request.peer.value.id !in request.ignore
      ensures ev.Some? ==> IsResponse(daemonId, rpcUri, listing, peerManager.Contents(), request, ev.value)
      ensures ev.Some? ==> PassedOn(ev.value.known, peerManager.Contents())
    {
      if request.peer.None? {
        return None;
      }
      var requester := request.peer.value.id;
      var ignored := IdSet(request.ignore);
      if requester in ignored {
        return None;
      }
      var known := CollectKnownPeersExcept(requester, ignored);
      ghost var contents := peerManager.Contents();
      assert contents.Keys - ({requester} + ignored) == contents.Keys - {requester} - ignored;
      ev := Some(Event(Some(Advert(daemonId, rpcUri, listing)), Response, request.initiator, [], known));
    }

    // ---------- Receiving ----------

    method RegisterPeerFromAnnouncement(ev: Event, now: Time)
      requires Valid()
      modifies Store()
      ensures Valid() && fresh(Store() - old(Store())) && unchanged(this)
      ensures peerManager.Contents() ==
        if ev.peer.Some? then RegisterDirect(old(peerManager.Contents()), ev.peer.value)
        else old(peerManager.Contents())
    {
      if ev.peer.None? || ev.peer.value.uri.None? {
        return;
      }
      var peer := ev.peer.value;
      var runtimes := [];
      for i := 0 to |peer.runtimes|
        invariant |runtimes| == i
        invariant forall k :: 0 <= k < i ==> runtimes[k] == Stamp(peer.runtimes, peer.id)[k]
      {
        var rt := peer.runtimes[i];
        runtimes := runtimes + [rt.(peerIds := rt.peerIds + [peer.id])];
      }
      assert runtimes == Stamp(peer.runtimes, peer.id);
      var info := new PeerInfo(peer.id, RecordOf(peer.uri.value, runtimes));
      var _ := peerManager.RegisterPeer(info, now);
    }

    method RegisterKnownPeer(p: Peer, now: Time)
      requires Valid()
      modifies Store()
      ensures Valid() && fresh(Store() - old(Store())) && unchanged(this)
      ensures peerManager.Contents() == RegisterGossip(old(peerManager.Contents()), daemonId, p)
    {
      if p.id == daemonId || p.uri.None? {
        return;
      }
      var info := new PeerInfo(p.id, RecordOf(p.uri.value, p.runtimes));
      var _ := peerManager.RegisterPeer(info, now);
    }

    method RegisterKnownPeers(known: seq<Peer>, now: Time)
      requires Valid()
      modifies Store()
      ensures Valid() && fresh(Store() - old(Store())) && unchanged(this)
      ensures peerManager.Contents() == RegisterKnown(old(peerManager.Contents()), daemonId, known)
    {
      for i := 0 to |known|
        invariant Valid() && fresh(Store() - old(Store())) && unchanged(this)
        invariant peerManager.Contents() == RegisterKnown(old(peerManager.Contents()), daemonId, known[..i])
      {
        assert known[..i + 1][..i] == known[..i];
        RegisterKnownPeer(known[i], now);
      }
      assert known[..|known|] == known;
    }

    method RegisterEveryone(ev: Event, now: Time)
      requires Valid() && ev.peer.Some?
      modifies Store()
      ensures Valid() && fresh(Store() - old(Store())) && unchanged(this)
      ensures peerManager.Contents() == RegisterAll(old(peerManager.Contents()), daemonId, ev)
    {
      RegisterPeerFromAnnouncement(ev, now);
      RegisterKnownPeers(ev.known, now);
    }

    method IsIgnored(ev: Event) returns (ignored: bool)
      ensures ignored <==> daemonId in ev.ignore
    {
      ignored := false;
      for i := 0 to |ev.ignore|
        invariant !ignored && daemonId !in ev.ignore[..i]
      {
        if ev.ignore[i] == daemonId {
          return true;
        }
      }
      assert ev.ignore[..|ev.ignore|] == ev.ignore;
    }

    /** Only a REQUEST from outside the window that does not ignore this daemon is answered. */
    method Respond(ev: Event, shouldRespond: bool, listing: Option<seq<Runtime>>) returns (response: Option<Event>)
      requires Valid() && ev.peer.Some?
      ensures response.Some? <==> Answers(daemonId, ev, shouldRespond)
      ensures response.Some? ==> IsResponse(daemonId, rpcUri, listing, peerManager.Contents(), ev, response.value)
    {
      var ignored := IsIgnored(ev);
      if ev.kind == Request && shouldRespond && !ignored {
        response := SendAnnouncementResponses(ev, listing);
      } else {
        response := None;
      }
    }

    /** Notes the sender, registers it and everything it passed on, and answers if due. */
    method HandleAnnouncement(ev: Event, now: Time, listing: Option<seq<Runtime>>) returns (response: Option<Event>)
      requires Valid()
      modifies this, Store()
      ensures Valid() && fresh(Store() - old(Store()))
      ensures ev.peer.None? ==> View() == old(View()) && response.None?
      ensures ev.peer.Some? ==> Handled(daemonId, rpcUri, listing, old(View()), ev, now, View(), response)
      ensures ev.peer.Some? ==>
        && lastNetworkActivityTime == now
        && lastAnnouncementTime == old(lastAnnouncementTime)[ev.peer.value.id := now]
      ensures ev.peer.Some? ==>
        var sender := ev.peer.value.id;
        response.Some? <==>
          && ev.kind == Request && daemonId !in ev.ignore && sender !in ev.ignore
          && (sender !in old(lastAnnouncementTime) || now - old(lastAnnouncementTime)[sender] > 90_000_000_000)
    {
      if ev.peer.None? {
        return None;
      }
      var sender := ev.peer.value.id;
      lastNetworkActivityTime := now;
      var shouldRespond := sender !in lastAnnouncementTime || now - lastAnnouncementTime[sender] > ANNOUNCEMENT_WINDOW;
      lastAnnouncementTime := lastAnnouncementTime[sender := now];
      assert peerManager.Contents() == old(peerManager.Contents());

      RegisterEveryone(ev, now);
      response := Respond(ev, shouldRespond, listing);
    }

    /** One iteration of the listener loop: the daemon's own multicast copies are skipped. */
    method Listen(ev: Event, now: Time, listing: Option<seq<Runtime>>) returns (response: Option<Event>)
      requires Valid()
      modifies this, Store()
      ensures Valid() && fresh(Store() - old(Store()))
      ensures ev.peer.None? || ev.peer.value.id == daemonId ==> View() == old(View()) && response.None?
      ensures ev.peer.Some? && ev.peer.value.id != daemonId ==>
        Handled(daemonId, rpcUri, listing, old(View()), ev, now, View(), response)
    {
      if ev.peer.Some? && ev.peer.value.id == daemonId {
        return None;
      }
      response := HandleAnnouncement(ev, now, listing);
    }

    /** The announcement sent as soon as the loop starts. */
    method AnnounceFirst(now: Time, listing: Option<seq<Runtime>>) returns (ev: Event)
      requires Valid()
      modifies this
      ensures Valid() && View() == old(View()).(activity := now)
      ensures IsRequest(daemonId, rpcUri, listing, View(), now, ev)
    {
      lastNetworkActivityTime := now;
      ev := SendAnnouncement(now, listing);
    }

    /** One tick of the announcement loop: a REQUEST only after `interval` of network silence. */
    method Tick(now: Time, listing: Option<seq<Runtime>>) returns (ev: Option<Event>)
      requires Valid()
      modifies this
      ensures Valid()
      ensures ev.Some? <==> now - old(lastNetworkActivityTime) >= interval
      ensures View() == if ev.Some? then old(View()).(activity := now) else old(View())
      ensures ev.Some? ==> IsRequest(daemonId, rpcUri, listing, View(), now, ev.value)
    {
      if now - lastNetworkActivityTime >= interval {
        var request := SendAnnouncement(now, listing);
        lastNetworkActivityTime := now;
        return Some(request);
      }
      return None;
    }
  }
}
