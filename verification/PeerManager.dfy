/** The peer map of one daemon: PeerInfo objects updated in place under one lock. */
module PeerManager {
  import opened PeerRecords

  class PeerInfo {
    const id: Id
    var host: string
    var port: nat
    var endpoint: string
    var runtimes: seq<Runtime>
    var isAlive: bool
    var isLocal: bool
    var discoveredAt: Time
    var lastSeenAt: Time

    constructor (id: Id, r: Record)
      ensures this.id == id && AsRecord() == r
    {
      this.id := id;
      host, port, endpoint, runtimes := r.host, r.port, r.endpoint, r.runtimes;
      isAlive, isLocal := r.alive, r.isLocal;
      discoveredAt, lastSeenAt := 0, 0;
    }

    function AsRecord(): Record
      reads this
    {
      Record(host, port, endpoint, runtimes, isAlive, isLocal)
    }

    /** The stored peer takes over the fields of a newer sighting. */
    method Overwrite(peer: PeerInfo, now: Time)
      modifies this
      ensures AsRecord() == old(peer.AsRecord()).(alive := true)
      ensures lastSeenAt == now && discoveredAt == old(discoveredAt)
    {
      host := peer.host;
      port := peer.port;
      runtimes := peer.runtimes;
      isAlive := true;
      lastSeenAt := now;
      endpoint := peer.endpoint;
      isLocal := peer.isLocal;
    }

    method MarkDiscovered(now: Time)
      modifies this
      ensures AsRecord() == old(AsRecord()).(alive := true)
      ensures lastSeenAt == now && discoveredAt == now
    {
      discoveredAt := now;
      lastSeenAt := now;
      isAlive := true;
    }

    method Copy() returns (c: PeerInfo)
      ensures fresh(c) && c.id == id && c.AsRecord() == AsRecord()
      ensures c.discoveredAt == discoveredAt && c.lastSeenAt == lastSeenAt
    {
      c := new PeerInfo(id, AsRecord());
      c.discoveredAt, c.lastSeenAt := discoveredAt, lastSeenAt;
    }
  }

  class Manager {
    var peers: map<Id, PeerInfo>

    /** Each object is filed under its own id, so two ids never share an object. */
    ghost predicate Valid()
      reads this
    {
      forall id :: id in peers ==> peers[id].id == id
    }

    ghost function Contents(): (m: Peers)
      reads this, peers.Values
      ensures m.Keys == peers.Keys
    {
      map id | id in peers :: peers[id].AsRecord()
    }

    constructor ()
      ensures Valid() && Contents() == map[] && peers == map[]
    {
      peers := map[];
    }

    /** Adds a peer, or overwrites the stored one in place, keeping its discovery time. */
    method RegisterPeer(peer: PeerInfo?, now: Time) returns (discovered: bool)
      requires Valid()
      modifies this, peer, peers.Values
      ensures Valid()
      ensures peer == null ==> !discovered && peers == old(peers) && Contents() == old(Contents())
      ensures peer != null ==> discovered == (peer.id !in old(peers))
      ensures peer != null ==> peers == if discovered then old(peers)[peer.id := peer] else old(peers)
      ensures peer != null ==> Contents() == old(Contents())[peer.id := old(peer.AsRecord()).(alive := true)]
      ensures peer != null ==> peers[peer.id].lastSeenAt == now
      ensures peer != null && discovered ==> peer.discoveredAt == now
      ensures peer != null && !discovered && peers[peer.id] != peer ==>
        peers[peer.id].discoveredAt == old(peers[peer.id].discoveredAt)
    {
      if peer == null {
        return false;
      }
      if peer.id in peers {
        peers[peer.id].Overwrite(peer, now);
        return false;
      }
      peer.MarkDiscovered(now);
      peers := peers[peer.id := peer];
      return true;
    }

    method HasPeer(id: Id) returns (exists_: bool)
      ensures exists_ == (id in peers)
    {
      exists_ := id in peers;
    }

    /** A snapshot in the map's arbitrary iteration order: each stored peer once, as a fresh copy. */
    method GetAllPeers() returns (result: seq<PeerInfo>)
      requires Valid()
      ensures forall i :: 0 <= i < |result| ==> fresh(result[i])
      ensures forall i, j :: 0 <= i < j < |result| ==> result[i].id != result[j].id
      ensures forall i :: 0 <= i < |result| ==> result[i].id in peers
      ensures forall i :: 0 <= i < |result| ==> result[i].AsRecord() == peers[result[i].id].AsRecord()
      ensures forall id :: id in peers ==> exists i :: 0 <= i < |result| && result[i].id == id
    {
      result := [];
      var todo := peers.Keys;
      while todo != {}
        invariant todo <= peers.Keys
        invariant forall i :: 0 <= i < |result| ==> fresh(result[i])
        invariant forall i, j :: 0 <= i < j < |result| ==> result[i].id != result[j].id
        invariant forall i :: 0 <= i < |result| ==> result[i].id in peers && result[i].id !in todo
        invariant forall i :: 0 <= i < |result| ==> result[i].AsRecord() == peers[result[i].id].AsRecord()
        invariant forall id :: id in peers && id !in todo ==> exists i :: 0 <= i < |result| && result[i].id == id
        decreases todo
      {
        var id :| id in todo;
        var copy := peers[id].Copy();
        ghost var before := result;
        result := result + [copy];
        assert result[|before|].id == id;
        assert forall i :: 0 <= i < |before| ==> result[i] == before[i];
        todo := todo - {id};
      }
    }
  }
}
