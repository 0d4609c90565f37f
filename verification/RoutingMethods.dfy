/** The routing table as it is updated in place. */
module RoutingMethods {
  import opened Basics
  import opened Order
  import opened Routing
  import RoutingTheorems

  method ComputeDistance(a: NodeId, b: NodeId) returns (out: array<bv8>)
    ensures fresh(out) && out.Length == 32 && out[..] == XorDistance(a, b)
  {
    hide Xor;
    out := new bv8[32];
    for i := 0 to 32
      invariant forall k :: 0 <= k < i ==> out[k] == Xor(a[k], b[k])
    {
      out[i] := Xor(a[i], b[i]);
    }
    assert out[..] == XorDistance(a, b);
  }

  method FindBucket(a: NodeId, b: NodeId) returns (n: nat)
    ensures n == BucketIndex(a, b)
  {
    hide Xor;
    hide LeadingZeros;
    var d := XorDistance(a, b);
    var i := 0;
    while i < 32
      invariant i <= 32 && FirstDifference(d, i) == FirstDifference(d, 0)
    {
      if d[i] != 0 {
        return i * 8 + LeadingZeros(d[i]);
      }
      i := i + 1;
    }
    return 255;
  }

  class KBucket {
    var peers: seq<Peer>

    constructor ()
      ensures peers == []
    {
      peers := [];
    }

    method Find(id: NodeId) returns (at: nat)
      ensures at == Position(peers, id)
    {
      at := 0;
      while at < |peers| && peers[at].id != id
        invariant at <= |peers|
        invariant forall i :: 0 <= i < at ==> peers[i].id != id
      {
        at := at + 1;
      }
    }

    method Insert(peer: Peer) returns (outcome: InsertOutcome)
      modifies this
      ensures (peers, outcome) == InsertPeer(old(peers), peer)
    {
      var at := Find(peer.id);
      if at < |peers| {
        peers := peers[..at] + peers[at + 1..];
        peers := peers + [peer];
        return Refreshed;
      }
      if |peers| >= K {
        return Full(peers[0]);
      }
      peers := peers + [peer];
      return Inserted;
    }

    method Remove(id: NodeId) returns (removed: Option<Peer>)
      modifies this
      ensures (peers, removed) == RemovePeer(old(peers), id)
    {
      var at := Find(id);
      if at == |peers| {
        return None;
      }
      removed := Some(peers[at]);
      peers := peers[..at] + peers[at + 1..];
    }

    method Replace(stale: NodeId, peer: Peer) returns (ok: bool)
      modifies this
      ensures (peers, ok) == ReplacePeer(old(peers), stale, peer)
    {
      hide InsertPeer;
      hide RemovePeer;
      var removed := Remove(stale);
      RemoveNothing(old(peers), stale);
      if removed.None? {
        return false;
      }
      var outcome := Insert(peer);
      return true;
    }
  }

  lemma {:induction false} RemoveNothing(b: seq<Peer>, id: NodeId)
    ensures RemovePeer(b, id).1.None? ==> RemovePeer(b, id).0 == b
  {
  }

  method SortPeers(all: seq<Peer>, target: NodeId) returns (peers: seq<Peer>)
    ensures peers == SortBy(ByDistance(target), all)
  {
    hide ByDistance;
    hide InsertBy;
    var key := ByDistance(target);
    peers := [];
    var i := |all|;
    while i > 0
      invariant 0 <= i <= |all|
      invariant peers == SortBy(key, all[i..])
    {
      i := i - 1;
      assert all[i..][0] == all[i] && all[i..][1..] == all[i + 1..];
      peers := InsertBy(key, all[i], peers);
    }
    assert all[0..] == all;
  }

  class RoutingTable {
    const local: NodeId
    const buckets: seq<KBucket>

    /** Every index has a bucket of its own. */
    ghost predicate Valid() {
      |buckets| == BUCKETS && forall i, j :: 0 <= i < j < BUCKETS ==> buckets[i] != buckets[j]
    }

    ghost function Contents(): (t: Table)
      reads buckets
      ensures t.local == local && |t.buckets| == |buckets|
    {
      Table(local, seq(|buckets|, i requires 0 <= i < |buckets| reads buckets => buckets[i].peers))
    }

    constructor (local: NodeId)
      ensures Valid() && this.local == local && Contents() == EmptyTable(local)
      ensures forall i :: 0 <= i < |buckets| ==> fresh(buckets[i])
    {
      this.local := local;
      var all: seq<KBucket> := [];
      while |all| < BUCKETS
        invariant |all| <= BUCKETS
        invariant forall i :: 0 <= i < |all| ==> fresh(all[i]) && all[i].peers == []
        invariant forall i, j :: 0 <= i < j < |all| ==> all[i] != all[j]
      {
        var b := new KBucket();
        all := all + [b];
      }
      buckets := all;
    }

    method Add(peer: Peer) returns (outcome: InsertOutcome)
      requires Valid()
      modifies buckets
      ensures Valid() && (Contents(), outcome) == AddPeer(old(Contents()), peer)
    {
      hide InsertPeer;
      hide BucketIndex;
      if peer.id == local {
        return LocalNode;
      }
      var at := FindBucket(local, peer.id);
      outcome := buckets[at].Insert(peer);
      assert Contents().buckets == old(Contents()).buckets[at := buckets[at].peers];
    }

    method Remove(id: NodeId) returns (removed: Option<Peer>)
      requires Valid()
      modifies buckets
      ensures Valid() && (Contents(), removed) == DropPeer(old(Contents()), id)
    {
      hide RemovePeer;
      hide BucketIndex;
      if id == local {
        return None;
      }
      var at := FindBucket(local, id);
      removed := buckets[at].Remove(id);
      assert Contents().buckets == old(Contents()).buckets[at := buckets[at].peers];
    }

    method All() returns (peers: seq<Peer>)
      requires Valid()
      ensures peers == AllPeers(Contents())
    {
      peers := [];
      ghost var t := Contents();
      var i := |buckets|;
      while i > 0
        invariant 0 <= i <= |buckets| == |t.buckets|
        invariant t == Contents()
        invariant peers == Concat(t.buckets[i..])
      {
        i := i - 1;
        assert t.buckets[i..][0] == buckets[i].peers && t.buckets[i..][1..] == t.buckets[i + 1..];
        peers := buckets[i].peers + peers;
      }
      assert t.buckets[0..] == t.buckets;
    }

    /** Sorts a copy by distance and truncates it. */
    method NearestTo(target: NodeId, limit: nat) returns (peers: seq<Peer>)
      requires Valid()
      ensures peers == Nearest(Contents(), target, limit)
    {
      var all := All();
      peers := SortPeers(all, target);
      if limit < |peers| {
        peers := peers[..limit];
      }
    }

    /** What is saved of a table that was built by adding and removing rebuilds to this very table. */
    method Save() returns (store: PeerStore)
      requires Valid()
      ensures store == FromTable(Contents())
      ensures RoutingTheorems.Inv(Contents()) ==> IntoTable(store) == Contents()
    {
      var peers := All();
      store := PeerStore(local, peers);
      if RoutingTheorems.Inv(Contents()) {
        RoutingTheorems.StoreRoundTrip(Contents());
      }
    }
  }

  method Rebuild(store: PeerStore) returns (table: RoutingTable)
    ensures table.Valid() && fresh(table) && table.Contents() == IntoTable(store)
  {
    hide AddPeer;
    table := new RoutingTable(store.local);
    var i := 0;
    assert store.peers[0..] == store.peers;
    while i < |store.peers|
      invariant i <= |store.peers|
      invariant table.Valid() && table.local == store.local && fresh(table)
      invariant forall k :: 0 <= k < |table.buckets| ==> fresh(table.buckets[k])
      invariant AddAll(table.Contents(), store.peers[i..]) == IntoTable(store)
    {
      assert store.peers[i..][0] == store.peers[i] && store.peers[i..][1..] == store.peers[i + 1..];
      var outcome := table.Add(store.peers[i]);
      i := i + 1;
    }
  }
}
